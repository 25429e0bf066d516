/**
 * The reset-code lifecycle across operations: a stored code is accepted for exactly ten minutes,
 * only the latest stored code is accepted, and a code that has been used is never accepted again.
 */
module Lifecycle {
  import opened Wrappers
  import opened Errors
  import opened Decimal
  import opened Models
  import opened Serializers

  /** A freshly stored code, typed back within the window with matching passwords, passes validation. */
  lemma FreshCodeAccepted(rows: Table, n: nat, t: int, req: ResetRequest, now: int)
    requires OtpLow <= n <= OtpHigh
    requires req.email in rows && req.otp == DecimalString(n)
    requires now - t <= OtpValiditySeconds && req.newPassword == req.confirmPassword
    ensures ResetValidate(rows[req.email := WithOtp(rows[req.email], DecimalString(n), t)], req, now).Pass?
  {
    DrawIsOtpCode(n);
  }

  /**
   * The window is closed on the right: a correct code exactly ten minutes old passes, one second
   * later it is refused as expired.
   */
  lemma ExpiryBoundary(rows: Table, n: nat, t: int, req: ResetRequest)
    requires OtpLow <= n <= OtpHigh
    requires req.email in rows && req.otp == DecimalString(n) && req.newPassword == req.confirmPassword
    ensures ResetValidate(rows[req.email := WithOtp(rows[req.email], DecimalString(n), t)], req, t + 600).Pass?
    ensures ResetValidate(rows[req.email := WithOtp(rows[req.email], DecimalString(n), t)], req, t + 601) == Fail(OtpExpired)
  {
    DrawIsOtpCode(n);
  }

  /** An expired code is refused whether or not the new passwords match. */
  lemma ExpiredRegardlessOfPasswords(rows: Table, n: nat, t: int, req: ResetRequest, now: int)
    requires OtpLow <= n <= OtpHigh
    requires req.email in rows && req.otp == DecimalString(n) && now - t > OtpValiditySeconds
    ensures ResetValidate(rows[req.email := WithOtp(rows[req.email], DecimalString(n), t)], req, now) == Fail(OtpExpired)
  {
    DrawIsOtpCode(n);
  }

  /** Storing a code replaces the previous one: any other code is refused as invalid, however recent. */
  lemma OnlyLatestCodeAccepted(rows: Table, code: string, t: int, req: ResetRequest, now: int)
    requires req.email in rows && req.otp != code && |req.otp| <= OtpMaxLength
    ensures ResetValidate(rows[req.email := WithOtp(rows[req.email], code, t)], req, now) == Fail(InvalidOtp)
  {
  }

  /** After a completed reset no code at all is accepted for that user until a new one is requested. */
  lemma ReplayAfterResetFails(rows: Table, passwordHash: string, req: ResetRequest, now: int)
    requires req.email in rows
    ensures ResetValidate(rows[req.email := Consumed(rows[req.email], passwordHash)], req, now)
            == Fail(if |req.otp| > OtpMaxLength then OtpTooLong else InvalidOtp)
  {
  }

  /** A row without a time stamp is never refused as expired, however late the request. */
  lemma MissingTimestampSkipsExpiry(rows: Table, req: ResetRequest, now: int)
    requires req.email in rows && rows[req.email].otpCreatedAt.None?
    ensures ResetValidate(rows, req, now) != Fail(OtpExpired)
  {
  }

  /**
   * One code, one reset: the code a request stored passes once within the window, and once the
   * reset has been completed the same request is refused.
   */
  lemma CodeUsableOnce(rows: Table, n: nat, t: int, req: ResetRequest, now: int, later: int, hash: string -> string)
    requires OtpLow <= n <= OtpHigh
    requires req.email in rows && req.otp == DecimalString(n)
    requires now - t <= OtpValiditySeconds && req.newPassword == req.confirmPassword
    ensures var issued := rows[req.email := WithOtp(rows[req.email], DecimalString(n), t)];
            ResetValidate(issued, req, now).Pass?
            && ResetValidate(issued[req.email := Consumed(issued[req.email], hash(req.newPassword))], req, later) == Fail(InvalidOtp)
  {
    FreshCodeAccepted(rows, n, t, req, now);
    DrawIsOtpCode(n);
    var issued := rows[req.email := WithOtp(rows[req.email], DecimalString(n), t)];
    ReplayAfterResetFails(issued, hash(req.newPassword), req, later);
  }
}
