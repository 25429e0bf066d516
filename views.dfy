/**
 * The request handlers: each validates through its serializer first and acts only on success.
 * Token issuance and mail delivery are outside collaborators: the tokens come from a function
 * parameter, and the mail is returned as the message handed to the transport, with the
 * transport's success as a parameter.
 */
module Views {
  import opened Wrappers
  import opened Errors
  import opened Decimal
  import opened Models
  import opened Serializers

  datatype TokenPair = TokenPair(refresh: string, access: string)

  datatype LoginResponse = LoginResponse(tokens: TokenPair, user: PublicUser)

  /** The reset mail as `send_mail` receives it. */
  datatype Mail = Mail(subject: string, body: string, sender: string, recipients: seq<string>)

  const ResetMailSubject := "Password Reset OTP"
  const ResetMailPrefix := "Your OTP for password reset is: "
  const ResetMailSender := "no-reply@yourapp.com"

  function ResetMail(email: string, code: string): (m: Mail)
  {
    Mail(ResetMailSubject, ResetMailPrefix + code, ResetMailSender, [email])
  }

  /** RegisterView (a create view): validate, then create; the response shows the non-write-only fields. */
  method RegisterPost(db: Store, req: RegisterRequest, hash: string -> string) returns (r: Result<RegisterResponse, Error>)
    requires db.Valid()
    modifies db
    ensures db.Valid()
    ensures r.Ok? <==> RegisterValidate(old(db.rows), req).Pass? && !BlankPhoneTaken(old(db.rows), req)
    ensures RegisterValidate(old(db.rows), req).Fail? ==> r == Err(RegisterValidate(old(db.rows), req).error)
    ensures RegisterValidate(old(db.rows), req).Pass? && BlankPhoneTaken(old(db.rows), req) ==> r == Err(IntegrityError)
    ensures r.Err? ==> db.rows == old(db.rows)
    ensures r.Ok? ==> r.value == RegisterResponse(req.username, req.email, req.phoneNumber, req.fullName)
                      && db.rows == old(db.rows)[req.email := NewRow(req, hash).(id := old(db.nextId))]
    ensures OtpWellFormed(old(db.rows)) ==> OtpWellFormed(db.rows)
  {
    var v := RegisterValidate(db.rows, req);
    if v.Fail? {
      return Err(v.error);
    }
    ghost var row := NewRow(req, hash).(id := db.nextId);
    if !BlankPhoneTaken(db.rows, req) {
      forall e | e in db.rows && e != row.email
        ensures SharesNoIdentity(db.rows[e], row)
      {
        assert "username" !in DuplicateFields(db.rows, req);
        assert "phone_number" !in DuplicateFields(db.rows, req);
      }
    } else {
      var e :| e in db.rows && db.rows[e].phoneNumber == Some("");
      assert !SharesNoIdentity(db.rows[e], row);
    }
    var created := Create(db, req, hash);
    r := if created.Ok? then Ok(RegisterResponse(req.username, req.email, req.phoneNumber, req.fullName))
         else Err(created.error);
  }

  /** LoginView.post: validate, then issue tokens for the user and return its public projection. */
  method LoginPost(db: Store, email: string, password: string, hash: string -> string, issue: nat -> TokenPair)
    returns (r: Result<LoginResponse, Error>)
    ensures r.Ok? <==> email in db.rows && hash(password) == db.rows[email].password
    ensures r.Ok? ==> r.value == LoginResponse(issue(db.rows[email].id), Project(db.rows[email]))
    ensures r.Err? ==> r.error == InvalidCredentials
  {
    var v := LoginValidate(db.rows, email, password, hash);
    if v.Err? {
      return Err(v.error);
    }
    var tokens := issue(v.value.id);
    r := Ok(LoginResponse(tokens, Project(v.value)));
  }

  /** `get_object_or_404` on the email column; a null email matches no row, the column being NOT NULL. */
  function GetObjectOr404(rows: Table, email: Option<string>): (r: Result<Row, Error>)
    ensures r.Ok? <==> email.Some? && email.value in rows
    ensures r.Ok? ==> r.value == rows[email.value]
    ensures r.Err? ==> r.error == NotFound
  {
    match email
    case None => Err(NotFound)
    case Some(e) => if e in rows then Ok(rows[e]) else Err(NotFound)
  }

  /**
   * The forgot-password view after validation: fetch the user by `email`, store a fresh code and the
   * current time, save, and mail that code to the user.
   */
  method StoreAndMail(db: Store, email: Option<string>, code: nat, now: int, delivered: bool)
    returns (r: Result<string, Error>, sent: Option<Mail>)
    requires OtpLow <= code <= OtpHigh
    requires db.Valid()
    modifies db
    ensures db.Valid() && db.nextId == old(db.nextId)
    ensures !(email.Some? && email.value in old(db.rows)) ==> r == Err(NotFound) && sent.None? && db.rows == old(db.rows)
    ensures email.Some? && email.value in old(db.rows) ==>
      var u := old(db.rows)[email.value];
      if SaveAllowed(u.password, u.passwordConfirmation)
      then db.rows == old(db.rows)[email.value := WithOtp(u, DecimalString(code), now)]
           && sent == Some(ResetMail(email.value, DecimalString(code)))
           && r == (if delivered then Ok(OtpSentMessage) else Err(DeliveryFailed))
      else r == Err(PasswordConfirmationMismatch) && sent.None? && db.rows == old(db.rows)
    ensures OtpWellFormed(old(db.rows)) ==> OtpWellFormed(db.rows)
  {
    var found := GetObjectOr404(db.rows, email);
    if found.Err? {
      return Err(found.error), None;
    }
    var user := new User.Load(found.value);
    var otp := DecimalString(code);
    DrawIsOtpCode(code);
    user.resetOtp := Some(otp);
    user.otpCreatedAt := Some(now);
    SameIdentityAdmissible(db.rows, user.Snapshot());
    var saved := user.Save(db);
    if saved.Fail? {
      return Err(saved.error), None;
    }
    sent := Some(ResetMail(email.value, otp));
    r := if delivered then Ok(OtpSentMessage) else Err(DeliveryFailed);
  }

  /**
   * ForgotPasswordView.post as written: the email is read back from the validated data, which holds
   * only the message, so the user lookup runs on a null email and always fails. The code generated
   * during validation stays stored, but is never mailed.
   */
  method ForgotPasswordPostAsWritten(db: Store, email: string, validatorCode: nat, viewCode: nat, now: int, delivered: bool)
    returns (r: Result<string, Error>, sent: Option<Mail>)
    requires OtpLow <= validatorCode <= OtpHigh && OtpLow <= viewCode <= OtpHigh
    requires db.Valid()
    modifies db
    ensures db.Valid() && db.nextId == old(db.nextId)
    ensures r.Err? && sent.None?
    ensures email !in old(db.rows) ==> r == Err(NoSuchEmail) && db.rows == old(db.rows)
    ensures email in old(db.rows) ==>
      var u := old(db.rows)[email];
      if SaveAllowed(u.password, u.passwordConfirmation)
      then r == Err(NotFound) && db.rows == old(db.rows)[email := WithOtp(u, DecimalString(validatorCode), now)]
      else r == Err(PasswordConfirmationMismatch) && db.rows == old(db.rows)
    ensures OtpWellFormed(old(db.rows)) ==> OtpWellFormed(db.rows)
  {
    var v := ForgotPasswordValidate(db, email, validatorCode, now);
    if v.Err? {
      return Err(v.error), None;
    }
    r, sent := StoreAndMail(db, Lookup(v.value, "email"), viewCode, now, delivered);
  }

  /**
   * ForgotPasswordView.post as intended: validation (which already stores one code), then the view
   * fetches the user by the requested email, overwrites that code with a fresh one, and mails the
   * fresh one.
   */
  method ForgotPasswordPost(db: Store, email: string, validatorCode: nat, viewCode: nat, now: int, delivered: bool)
    returns (r: Result<string, Error>, sent: Option<Mail>)
    requires OtpLow <= validatorCode <= OtpHigh && OtpLow <= viewCode <= OtpHigh
    requires db.Valid()
    modifies db
    ensures db.Valid() && db.nextId == old(db.nextId)
    ensures email !in old(db.rows) ==> r == Err(NoSuchEmail) && sent.None? && db.rows == old(db.rows)
    ensures email in old(db.rows) ==>
      var u := old(db.rows)[email];
      if SaveAllowed(u.password, u.passwordConfirmation)
      then db.rows == old(db.rows)[email := WithOtp(u, DecimalString(viewCode), now)]
           && sent == Some(ResetMail(email, DecimalString(viewCode)))
           && r == (if delivered then Ok(OtpSentMessage) else Err(DeliveryFailed))
      else r == Err(PasswordConfirmationMismatch) && sent.None? && db.rows == old(db.rows)
    ensures sent.Some? ==> email in db.rows && db.rows[email].resetOtp == Some(DecimalString(viewCode))
                           && sent.value.body == ResetMailPrefix + DecimalString(viewCode)
    ensures OtpWellFormed(old(db.rows)) ==> OtpWellFormed(db.rows)
  {
    var v := ForgotPasswordValidate(db, email, validatorCode, now);
    if v.Err? {
      return Err(v.error), None;
    }
    r, sent := StoreAndMail(db, Some(email), viewCode, now, delivered);
  }

  /** ResetPasswordView.post: the whole validation chain, then the save that changes the password. */
  method ResetPasswordPost(db: Store, req: ResetRequest, now: int, hash: string -> string) returns (r: Result<string, Error>)
    requires db.Valid()
    modifies db
    ensures db.Valid() && db.nextId == old(db.nextId)
    ensures ResetValidate(old(db.rows), req, now).Fail? ==>
              r == Err(ResetValidate(old(db.rows), req, now).error) && db.rows == old(db.rows)
    ensures ResetValidate(old(db.rows), req, now).Pass? ==>
      var u := old(db.rows)[req.email];
      if SaveAllowed(hash(req.newPassword), u.passwordConfirmation)
      then r == Ok(ResetDoneMessage) && db.rows == old(db.rows)[req.email := Consumed(u, hash(req.newPassword))]
      else r == Err(PasswordConfirmationMismatch) && db.rows == old(db.rows)
    ensures OtpWellFormed(old(db.rows)) ==> OtpWellFormed(db.rows)
  {
    var v := ResetValidate(db.rows, req, now);
    if v.Fail? {
      return Err(v.error);
    }
    var saved := ResetSave(db, req.email, req.newPassword, hash);
    r := if saved.Pass? then Ok(ResetDoneMessage) else Err(saved.error);
  }
}
