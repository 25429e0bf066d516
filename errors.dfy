/** The errors the authentication backend raises, one constructor per distinct failure. */
module Errors {
  import opened Wrappers

  datatype Error =
      /** Field validators generated from `unique=True` columns; carries the offending field names. */
    | Duplicate(fields: set<string>)
      /** RegisterSerializer.validate: password and confirm_password differ. */
    | PasswordsDoNotMatch
      /** LoginSerializer.validate: unknown email or wrong password (one message for both). */
    | InvalidCredentials
      /** ForgotPasswordSerializer.validate: no user has the email. */
    | NoSuchEmail
      /** ResetPasswordSerializer.validate: no user has the email. */
    | UserNotFound
      /** The `otp` field is declared with `max_length=6`. */
    | OtpTooLong
      /** ResetPasswordSerializer.validate: the code differs from the stored one (or none is stored). */
    | InvalidOtp
      /** ResetPasswordSerializer.validate: the stored code is older than the validity window. */
    | OtpExpired
      /** ResetPasswordSerializer.validate: new_password and confirm_password differ. */
    | NewPasswordsDoNotMatch
      /** CustomUser.save: password and password_confirmation are both non-empty and differ. */
    | PasswordConfirmationMismatch
      /** The database rejected a write that breaks a uniqueness constraint. */
    | IntegrityError
      /** get_object_or_404 found no row. */
    | NotFound
      /** send_mail with fail_silently=False raised. */
    | DeliveryFailed

  /** The text the source itself attaches to an error; None for errors whose text comes from the framework. */
  function Message(e: Error): (text: Option<string>)
  {
    match e
    case PasswordsDoNotMatch => Some("Passwords do not match")
    case InvalidCredentials => Some("Invalid credentials")
    case NoSuchEmail => Some("User with this email does not exist.")
    case UserNotFound => Some("User not found.")
    case InvalidOtp => Some("Invalid OTP.")
    case OtpExpired => Some("OTP expired. Request a new one.")
    case NewPasswordsDoNotMatch => Some("Passwords do not match.")
    case PasswordConfirmationMismatch => Some("Password and Confirm Password do not match")
    case _ => None
  }
}
