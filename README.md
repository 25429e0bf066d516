# Password-reset codes and credential checks of the authentication backend

This project models the Django authentication backend under
`Auth/auth/backend/auth_backend/authentication`. It covers three things:

- the custom user model and its table;
- the register, login, forgot-password and reset-password serializers;
- the views that run those serializers and then act.

The core is the life of a reset code:

- generated as `str(random.randint(100000, 999999))`;
- stored with its creation time, replacing any earlier code;
- accepted for ten minutes, with a strict `>` on the elapsed time;
- cleared when a reset succeeds, so it works only once.

Around the code sit the credential rules:

- the save guard on password and confirmation;
- unique email, username and phone number;
- one error message for both login failures;
- a public projection that never shows the password hash.

## How the model is built

- `decimal.dfy`: `str(int)` and `int(str)` on non-negative integers, and the six-digit code shape.
  Both round trips are proved. A string is a six-digit code with no leading zero exactly when it
  is the text of a draw from [100000, 999999].
- `models.dfy`: a `Row` datatype is one stored user. Timestamps are integer seconds.
  - `Store` is the table, a map keyed by email (the login identifier). Its `Insert` and `Update`
    refuse a row that shares a primary key, username or set phone number with another row.
  - `User` is an instance loaded from the table. `GenerateOtp` assigns the two code fields and
    then calls `Save`. `Save` runs the confirmation guard, then writes.
- `serializers.dfy`: each `validate` is a function that returns data or an `Error`.
  - `Create`, `ForgotPasswordValidate` and `ResetSave` are methods that change the table.
  - The uniqueness checks come from the validators that DRF builds for `unique=True` columns.
    Those run before `validate`, so a duplicate is reported before a password mismatch.
- `views.dfy`: each view validates first and acts only on success.
- `lifecycle.dfy`: lemmas that span several operations. They cover the expiry boundary, that only
  the latest code is accepted, and that a used code is refused.

Modelling choices:

- Password hashing is a function parameter `hash`. `check_password(p, h)` is `hash(p) == h`.
- The random code is a parameter constrained to [100000, 999999].
- "Now" is an integer-seconds parameter, so the ten-minute window is 600.
- Token issuance is a function parameter from the user id to a token pair.
- Mail delivery is a boolean parameter. The mail is returned as the message handed to `send_mail`.

Every mutating method keeps the table's uniqueness invariant (`Store.Valid`). Every serializer and
view operation that changes the table also keeps the code invariant `OtpWellFormed`: both code columns are null or both are set, and a set code is a
six-digit code.

Three behaviours of the code are easy to miss, and the model keeps them:

- The reset chain checks the new-password match last, not first.
- An expired or wrong code is not cleared.
- A missing timestamp skips the expiry check.

## Model

| member | source | states |
|---|---|---|
| `Decimal.DecimalString` | Auth/auth/backend/auth_backend/authentication/models.py:26 | `str(n)` is a non-empty string of decimal digits |
| `Decimal.ParseDecimalString` | Auth/auth/backend/auth_backend/authentication/models.py:26 | reading back the text of a number gives that number |
| `Decimal.DecimalStringOfParse` | Auth/auth/backend/auth_backend/authentication/models.py:26 | writing back the value of a digit string with a non-zero lead gives that string |
| `Decimal.LeadingDigitNonZero` | Auth/auth/backend/auth_backend/authentication/models.py:26 | the text of a positive number does not start with '0' |
| `Decimal.DecimalStringLength` | Auth/auth/backend/auth_backend/authentication/models.py:26 | a number between 10^(k-1) and 10^k is written with exactly k characters |
| `Decimal.ParseDecimalBounds` | Auth/auth/backend/auth_backend/authentication/models.py:26 | a k-digit string with a non-zero lead has a value between 10^(k-1) and 10^k |
| `Decimal.DrawIsOtpCode` | Auth/auth/backend/auth_backend/authentication/models.py:26 | every draw from [100000, 999999] is written as six digits with no leading zero |
| `Decimal.OtpCodeIsDraw` | Auth/auth/backend/auth_backend/authentication/models.py:26 | a string has the six-digit code shape exactly when it is the text of some draw in the range |
| `Models.ConsistentMeansUnique` | Auth/auth/backend/auth_backend/authentication/models.py:7-8 | in a consistent table no two users share an email, id or username, or a phone number that is set |
| `Models.SameIdentityAdmissible` | Auth/auth/backend/auth_backend/authentication/models.py:7-8 | rewriting a user without touching its identity columns never breaks a uniqueness constraint |
| `Models.StoredOtpFitsColumn` | Auth/auth/backend/auth_backend/authentication/models.py:12 | a well-formed stored code fits the column's `max_length=6` |
| `Models.Store.constructor` | Auth/auth/backend/auth_backend/authentication/models.py:6-19 | an empty table is consistent |
| `Models.Store.Insert` | Auth/auth/backend/auth_backend/authentication/models.py:7-8 | an insert succeeds exactly when the email is new and no other row shares the id, username or set phone; the table stays consistent and is unchanged on refusal |
| `Models.Store.Update` | Auth/auth/backend/auth_backend/authentication/models.py:7-8 | an update succeeds exactly when it clashes with no other row; otherwise nothing changes |
| `Models.User.Load` | Auth/auth/backend/auth_backend/authentication/serializers.py:103 | a loaded instance holds exactly the row's values |
| `Models.User.SetPassword` | Auth/auth/backend/auth_backend/authentication/serializers.py:106 | only the hash of the new password is kept |
| `Models.User.Save` | Auth/auth/backend/auth_backend/authentication/models.py:30-34 | fails with the confirmation error, writing nothing, exactly when password and confirmation are both non-empty and differ; otherwise writes the instance's row unless a uniqueness constraint refuses it |
| `Models.User.GenerateOtp` | Auth/auth/backend/auth_backend/authentication/models.py:24-28 | sets the code to the six-digit text of the draw and the timestamp to now, together; replaces any earlier code; changes no other field; then saves |
| `Serializers.ProjectionShowsIdentityOnly` | Auth/auth/backend/auth_backend/authentication/serializers.py:7-10 | two users project alike exactly when id, username, email, phone and full name agree, whatever their password or code |
| `Serializers.RegisterValidate` | Auth/auth/backend/auth_backend/authentication/serializers.py:12-24 | passes exactly when no unique field is taken and the passwords match; the mismatch error is raised exactly when the fields are free and the passwords differ; a blank phone number is never reported as taken, since blank values skip the field validators |
| `Serializers.NewRowIgnoresConfirmation` | Auth/auth/backend/auth_backend/authentication/serializers.py:26-29 | the created record does not depend on confirm_password, has no confirmation and no code |
| `Serializers.Create` | Auth/auth/backend/auth_backend/authentication/serializers.py:26-29 | inserts the hashed record under the next id exactly when no constraint is violated; otherwise the table is unchanged |
| `Serializers.LoginValidate` | Auth/auth/backend/auth_backend/authentication/serializers.py:36-49 | succeeds exactly when a user has the email and the password hashes to its stored hash, and returns that user; every failure is "Invalid credentials" |
| `Serializers.LoginFailuresIndistinguishable` | Auth/auth/backend/auth_backend/authentication/serializers.py:40-47 | an unknown email and a wrong password give the same error |
| `Serializers.ForgotPasswordValidate` | Auth/auth/backend/auth_backend/authentication/serializers.py:55-65 | an unknown email fails and changes nothing; otherwise the user's code and timestamp are replaced, if the save guard allows; the returned data holds only the message |
| `Serializers.ResetValidate` | Auth/auth/backend/auth_backend/authentication/serializers.py:70-98 | the checks run in a fixed order: code length, user exists, code matches, not expired, passwords match; each error arises exactly when all earlier checks pass and its own fails |
| `Serializers.ResetSave` | Auth/auth/backend/auth_backend/authentication/serializers.py:100-110 | on success the password becomes the new hash and both code fields are null, with nothing else changed; it fails, writing nothing, exactly when the save guard refuses |
| `Views.RegisterPost` | Auth/auth/backend/auth_backend/authentication/views.py:17-20 | a user is created exactly when validation passes and the phone is not a blank one already stored; a validation error is returned as is; a blank phone that is already stored passes validation and is refused by the table's unique constraint; on any error the table is unchanged; the response has no password |
| `Views.LoginPost` | Auth/auth/backend/auth_backend/authentication/views.py:26-35 | tokens and the projected user are returned only when the credentials check succeeds |
| `Views.GetObjectOr404` | Auth/auth/backend/auth_backend/authentication/views.py:59 | finds the row only for a present email that is in the table; a null email finds nothing |
| `Views.StoreAndMail` | Auth/auth/backend/auth_backend/authentication/views.py:56-73 | stores the fresh code and the time, then mails that same code to the user; a failed delivery is reported after the code is stored |
| `Views.ForgotPasswordPostAsWritten` | Auth/auth/backend/auth_backend/authentication/views.py:51-73 | never succeeds and never mails; for a known user the code stored during validation stays, and the result is not-found |
| `Views.ForgotPasswordPost` | Auth/auth/backend/auth_backend/authentication/views.py:51-73 | stores a code only for an existing user; the fresh code replaces the one validation stored; the mailed body carries exactly the stored code |
| `Views.ResetPasswordPost` | Auth/auth/backend/auth_backend/authentication/views.py:81-85 | a failed validation returns its error and changes nothing, a wrong or expired code included; the password changes only after the whole chain passes |
| `Lifecycle.FreshCodeAccepted` | Auth/auth/backend/auth_backend/authentication/serializers.py:86-96 | a freshly stored code typed back within ten minutes, with matching passwords, passes validation |
| `Lifecycle.ExpiryBoundary` | Auth/auth/backend/auth_backend/authentication/serializers.py:90 | a correct code exactly 600 seconds old passes; at 601 seconds it is refused as expired |
| `Lifecycle.ExpiredRegardlessOfPasswords` | Auth/auth/backend/auth_backend/authentication/serializers.py:90-96 | an expired correct code is refused as expired whether or not the passwords match |
| `Lifecycle.OnlyLatestCodeAccepted` | Auth/auth/backend/auth_backend/authentication/serializers.py:86 | after a code is stored, any other code is refused as invalid |
| `Lifecycle.ReplayAfterResetFails` | Auth/auth/backend/auth_backend/authentication/serializers.py:107-108 | after a completed reset no code is accepted for that user |
| `Lifecycle.MissingTimestampSkipsExpiry` | Auth/auth/backend/auth_backend/authentication/serializers.py:90 | a row without a timestamp is never refused as expired |
| `Lifecycle.CodeUsableOnce` | Auth/auth/backend/auth_backend/authentication/serializers.py:86-110 | the stored code passes once within the window; after the reset it completes, the same request is refused |

## Findings

| source | as written | input that shows it | evidently intended | confidence | as-written member | corrected member |
|---|---|---|---|---|---|---|
| Auth/auth/backend/auth_backend/authentication/views.py:54 | `validated_data` is what `ForgotPasswordSerializer.validate` returns, `{"message": ...}` (serializers.py:65). So `validated_data.get("email")` is `None`, and `get_object_or_404(email=None)` matches no row. | any registered email: validation stores a code, then the view answers 404; the fresh code is never stored and no mail is sent | look the user up by the requested email, store the fresh code and mail it | not executed; follows from DRF's rule that `validate`'s return value becomes `validated_data` | `Views.ForgotPasswordPostAsWritten` | `Views.ForgotPasswordPost` |

## Left out

- HTTP routing, request parsing and response building (urls.py and the DRF view machinery): no behaviour beyond the order "validate, then act", which the view methods keep.
- `UserProfileView` (views.py:38-43): the caller's identity comes from the external authentication layer. Its output is the public projection `Serializers.Project`.
- JWT issuance (`RefreshToken.for_user`): a function parameter from the user id to a token pair, applied only on the success path.
- Mail transport (`send_mail`): only the message handed to it is modelled, plus whether delivery raised.
- Password hashing: a function parameter `hash`. Django's salted hashes and unusable passwords are not modelled; `check_password(p, h)` is `hash(p) == h`.
- Randomness: each draw of `random.randint(100000, 999999)` is a parameter in that range.
- Time: integer seconds; sub-second differences around the ten-minute boundary are not modelled. The validation step and the view share one "now".
- DRF field validation other than uniqueness and the `otp` length limit: blank and missing fields, whitespace trimming, email format and the other `max_length` limits. All inputs are taken as present strings.
- `create_user`'s normalisation of the email domain and the username: emails and usernames are stored as given. In the source, registration can therefore pass validation (an exact-match uniqueness check) and still fail at the insert, for example "bob@EXAMPLE.com" next to an existing "bob@example.com"; `Views.RegisterPost` does not capture that failure.
- `Models.User.Save`: saving an instance whose row has disappeared is outside the model. No core operation deletes a user, and every instance is loaded just before it is saved.
- Concurrent requests racing on one user's code columns: a storage-engine concern.
