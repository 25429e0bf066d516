/**
 * The request serializers: each `validate` is a chain of lookups and comparisons that either
 * returns data or raises; `create`, the forgot-password validation and the reset `save` change
 * the table.
 */
module Serializers {
  import opened Wrappers
  import opened Errors
  import opened Decimal
  import opened Models

  /** The public projection of a user (UserSerializer): no credential and no code. */
  datatype PublicUser = PublicUser(
    id: nat, username: string, email: string, phoneNumber: Option<string>, fullName: Option<string>)

  function Project(r: Row): (u: PublicUser)
  {
    PublicUser(r.id, r.username, r.email, r.phoneNumber, r.fullName)
  }

  /** Two users project alike exactly when they agree on their identity columns, whatever their credentials. */
  lemma ProjectionShowsIdentityOnly(a: Row, b: Row)
    ensures Project(a) == Project(b) <==> SameIdentity(a, b)
  {
  }

  // ---------------------------------------------------------------- registration

  datatype RegisterRequest = RegisterRequest(
    username: string, email: string, password: string, confirmPassword: string,
    phoneNumber: Option<string>, fullName: Option<string>)

  /** What the registration response shows: the serializer's fields that are not write-only. */
  datatype RegisterResponse = RegisterResponse(
    username: string, email: string, phoneNumber: Option<string>, fullName: Option<string>)

  /**
   * The fields whose value is already taken; the field validators built from `unique=True` report them.
   * A blank phone number (the column is `blank=True`) is returned before any validator runs, so it is
   * never checked for uniqueness here.
   */
  function DuplicateFields(rows: Table, req: RegisterRequest): (fields: set<string>)
  {
    (if exists e | e in rows :: rows[e].username == req.username then {"username"} else {})
    + (if req.email in rows then {"email"} else {})
    + (if req.phoneNumber.Some? && req.phoneNumber != Some("") && exists e | e in rows :: rows[e].phoneNumber == req.phoneNumber
       then {"phone_number"} else {})
  }

  /** A blank phone number that the field validators let through but the table's unique constraint refuses. */
  predicate BlankPhoneTaken(rows: Table, req: RegisterRequest)
  {
    req.phoneNumber == Some("") && exists e | e in rows :: rows[e].phoneNumber == Some("")
  }

  /**
   * Field validation, then RegisterSerializer.validate. A password mismatch is reported only once
   * every field has passed its own validators.
   */
  function RegisterValidate(rows: Table, req: RegisterRequest): (r: Outcome<Error>)
    ensures r.Pass? <==> DuplicateFields(rows, req) == {} && req.password == req.confirmPassword
    ensures r.Pass? ==> req.email !in rows
    ensures r == Fail(PasswordsDoNotMatch) <==> DuplicateFields(rows, req) == {} && req.password != req.confirmPassword
    ensures r.Fail? && r.error.Duplicate? ==> r.error.fields == DuplicateFields(rows, req) != {}
    ensures req.phoneNumber == Some("") && r.Fail? && r.error.Duplicate? ==> "phone_number" !in r.error.fields
  {
    var dup := DuplicateFields(rows, req);
    if dup != {} then Fail(Duplicate(dup))
    else if req.password != req.confirmPassword then Fail(PasswordsDoNotMatch)
    else Pass
  }

  /** The record `create_user` builds: confirm_password has been popped, so nothing of it is kept. */
  function NewRow(req: RegisterRequest, hash: string -> string): (r: Row)
  {
    Row(0, req.username, req.email, req.phoneNumber, req.fullName, hash(req.password), None, None, None)
  }

  /** Whatever confirm_password held, the created record is the same. */
  lemma NewRowIgnoresConfirmation(req: RegisterRequest, other: string, hash: string -> string)
    ensures NewRow(req, hash) == NewRow(req.(confirmPassword := other), hash)
    ensures NewRow(req, hash).passwordConfirmation.None?
    ensures OtpStateOk(NewRow(req, hash)) && NewRow(req, hash).resetOtp.None?
  {
  }

  /**
   * RegisterSerializer.create: drop confirm_password, then `create_user` hashes the password and
   * inserts. The save guard cannot refuse here: the new record has no confirmation.
   */
  method Create(db: Store, req: RegisterRequest, hash: string -> string) returns (res: Result<Row, Error>)
    requires db.Valid()
    modifies db
    ensures db.Valid()
    ensures res.Ok? <==> req.email !in old(db.rows) && Admissible(old(db.rows), NewRow(req, hash).(id := old(db.nextId)))
    ensures res.Ok? ==> res.value == NewRow(req, hash).(id := old(db.nextId))
                        && db.rows == old(db.rows)[req.email := res.value] && db.nextId == old(db.nextId) + 1
    ensures res.Err? ==> res.error == IntegrityError && db.rows == old(db.rows) && db.nextId == old(db.nextId)
    ensures OtpWellFormed(old(db.rows)) ==> OtpWellFormed(db.rows)
  {
    var row := NewRow(req, hash);
    var ok, id := db.Insert(row);
    res := if ok then Ok(row.(id := id)) else Err(IntegrityError);
  }

  // ---------------------------------------------------------------- login

  /** LoginSerializer.validate: find the user by email, then check the password against the stored hash. */
  function LoginValidate(rows: Table, email: string, password: string, hash: string -> string): (r: Result<Row, Error>)
    ensures r.Ok? <==> email in rows && hash(password) == rows[email].password
    ensures r.Ok? ==> r.value == rows[email]
    ensures r.Err? ==> r.error == InvalidCredentials && Message(r.error) == Some("Invalid credentials")
  {
    if email !in rows then Err(InvalidCredentials)
    else if hash(password) != rows[email].password then Err(InvalidCredentials)
    else Ok(rows[email])
  }

  /** An unknown email and a wrong password cannot be told apart from the error. */
  lemma LoginFailuresIndistinguishable(rows: Table, e1: string, p1: string, e2: string, p2: string, hash: string -> string)
    requires e1 !in rows
    requires e2 in rows && hash(p2) != rows[e2].password
    ensures LoginValidate(rows, e1, p1, hash) == LoginValidate(rows, e2, p2, hash) == Err(InvalidCredentials)
  {
  }

  // ---------------------------------------------------------------- forgot password

  /** The validated data of a serializer: a dictionary from field names to strings. */
  type ValidatedData = map<string, string>

  const OtpSentMessage := "OTP sent successfully!"
  const ResetDoneMessage := "Password reset successful!"

  /** `dict.get`: None for a missing key. */
  function Lookup(d: ValidatedData, key: string): (v: Option<string>)
    ensures v.Some? <==> key in d
    ensures v.Some? ==> v.value == d[key]
  {
    if key in d then Some(d[key]) else None
  }

  /**
   * ForgotPasswordSerializer.validate: find the user, let it generate and save a code, and return
   * a dictionary that holds only the message.
   */
  method ForgotPasswordValidate(db: Store, email: string, code: nat, now: int) returns (res: Result<ValidatedData, Error>)
    requires OtpLow <= code <= OtpHigh
    requires db.Valid()
    modifies db
    ensures db.Valid() && db.nextId == old(db.nextId)
    ensures email !in old(db.rows) ==> res == Err(NoSuchEmail) && db.rows == old(db.rows)
    ensures email in old(db.rows) ==>
      var r := old(db.rows)[email];
      if SaveAllowed(r.password, r.passwordConfirmation)
      then res == Ok(map["message" := OtpSentMessage]) && db.rows == old(db.rows)[email := WithOtp(r, DecimalString(code), now)]
      else res == Err(PasswordConfirmationMismatch) && db.rows == old(db.rows)
    ensures OtpWellFormed(old(db.rows)) ==> OtpWellFormed(db.rows)
  {
    if email !in db.rows {
      return Err(NoSuchEmail);
    }
    var user := new User.Load(db.rows[email]);
    SameIdentityAdmissible(db.rows, WithOtp(db.rows[email], DecimalString(code), now));
    var saved := user.GenerateOtp(code, now, db);
    if saved.Fail? {
      return Err(saved.error);
    }
    res := Ok(map["message" := OtpSentMessage]);
  }

  // ---------------------------------------------------------------- reset password

  datatype ResetRequest = ResetRequest(email: string, otp: string, newPassword: string, confirmPassword: string)

  /** The stored time stamp is set and more than the validity window has elapsed since it. */
  predicate Expired(createdAt: Option<int>, now: int)
  {
    createdAt.Some? && now - createdAt.value > OtpValiditySeconds
  }

  /**
   * The `otp` field's length limit, then ResetPasswordSerializer.validate: user exists, code matches,
   * code not expired, new passwords match, in that order; the first failing check decides the error.
   */
  function ResetValidate(rows: Table, req: ResetRequest, now: int): (r: Outcome<Error>)
    ensures r.Pass? <==>
              (|req.otp| <= OtpMaxLength && req.email in rows && rows[req.email].resetOtp == Some(req.otp)
               && !Expired(rows[req.email].otpCreatedAt, now) && req.newPassword == req.confirmPassword)
    ensures r == Fail(UserNotFound) <==> |req.otp| <= OtpMaxLength && req.email !in rows
    ensures r == Fail(InvalidOtp) <==> |req.otp| <= OtpMaxLength && req.email in rows && rows[req.email].resetOtp != Some(req.otp)
    ensures r == Fail(OtpExpired) <==>
              (|req.otp| <= OtpMaxLength && req.email in rows && rows[req.email].resetOtp == Some(req.otp)
               && Expired(rows[req.email].otpCreatedAt, now))
    ensures r == Fail(NewPasswordsDoNotMatch) <==>
              (|req.otp| <= OtpMaxLength && req.email in rows && rows[req.email].resetOtp == Some(req.otp)
               && !Expired(rows[req.email].otpCreatedAt, now) && req.newPassword != req.confirmPassword)
    ensures r.Fail? ==> r.error in {OtpTooLong, UserNotFound, InvalidOtp, OtpExpired, NewPasswordsDoNotMatch}
  {
    if |req.otp| > OtpMaxLength then Fail(OtpTooLong)
    else if req.email !in rows then Fail(UserNotFound)
    else
      var user := rows[req.email];
      if user.resetOtp != Some(req.otp) then Fail(InvalidOtp)
      else if Expired(user.otpCreatedAt, now) then Fail(OtpExpired)
      else if req.newPassword != req.confirmPassword then Fail(NewPasswordsDoNotMatch)
      else Pass
  }

  /**
   * ResetPasswordSerializer.save: reload the user, set the new password, clear both code columns, save.
   * The save guard compares the new hash with the stored confirmation.
   */
  method ResetSave(db: Store, email: string, newPassword: string, hash: string -> string) returns (res: Outcome<Error>)
    requires db.Valid() && email in db.rows
    modifies db
    ensures db.Valid() && db.nextId == old(db.nextId)
    ensures res.Pass? <==> SaveAllowed(hash(newPassword), old(db.rows)[email].passwordConfirmation)
    ensures res.Fail? ==> res.error == PasswordConfirmationMismatch
    ensures db.rows == (if res.Pass? then old(db.rows)[email := Consumed(old(db.rows)[email], hash(newPassword))]
                        else old(db.rows))
    ensures OtpWellFormed(old(db.rows)) ==> OtpWellFormed(db.rows)
  {
    var user := new User.Load(db.rows[email]);
    user.SetPassword(newPassword, hash);
    user.resetOtp := None;
    user.otpCreatedAt := None;
    assert user.Snapshot() == Consumed(db.rows[email], hash(newPassword));
    SameIdentityAdmissible(db.rows, user.Snapshot());
    res := user.Save(db);
  }
}
