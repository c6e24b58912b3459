# Enrollment tokens and user MFA credentials of defguard, in Dafny

This project models two parts of the defguard identity backend.

- **Enrollment tokens** (`src/db/models/enrollment.rs`). An administrator
  starts enrollment for a user who has no password yet. The user's unused
  tokens are deleted and a fresh 32-character token is issued, optionally
  announced by mail. Presenting an unspent, unexpired copy of the token
  stamps `used_at` and opens a short enrollment session. A copy fetched after
  that spend is refused. The check is made on the presented copy, though, so
  a copy fetched before the spend is still accepted. Errors map to gRPC statuses
  so that a missing, expired, spent or timed-out token cannot be told apart.
- **User MFA credentials** (`src/db/models/user.rs`). These are the TOTP flag
  and secret, the eight single-use recovery codes, and the rule that says
  whether any MFA factor is on: TOTP, a wallet flagged for MFA, or a WebAuthn
  security key.

Modules:

- `Wrappers`: `Option`, `Result` and `Outcome`, the last being Rust's
  `Result<(), E>`.
- `Charset`: the alphanumeric alphabet of generated ids and codes.
- `Enrollments`: the enrollment token engine. The `enrollment` table is the
  class `EnrollmentTable`, a map from token id to row.
- `Users`: the `User` class. Its fields are the fields of the Rust struct. The
  database is the class `Database`, which holds the credential columns of the
  stored `user` rows, the `wallet` rows and the `webauthn` rows.
- `Base32`: base 32 text as in section 6 of RFC 4648. `new_secret` returns the
  TOTP secret in this form.

Time is a whole number of seconds passed in as `now`. The clock is read once
per operation.

Generated values are inputs to the operations, constrained only by the shape
the generator gives them:

- token ids: 32 alphanumeric characters;
- recovery codes: 8 codes of 16 alphanumeric characters;
- TOTP secrets: 20 bytes.

In these places the model follows the code, where a reader might expect
otherwise:

- **Token expiry.** The code's `is_expired` is `expires_at < now`. A token is
  therefore still usable at the instant `now == expires_at`, not only strictly
  before it.
- **TOTP check.** `verify_code` does not require TOTP to be enabled; see
  Findings.
- **`mfa_enabled`.** It first short-cuts on the in-memory `totp_enabled`. Only
  otherwise does it query the stored row, so the stored flag, not the
  in-memory one, decides the query's answer.
- **`disable_mfa`.** It clears the TOTP secret and the recovery codes but not
  the TOTP flag. A user whose TOTP flag was on still counts as having MFA
  afterwards. `Users.User.DisableMfa` states this.

## Model

| member | source | states |
|---|---|---|
| Enrollments.ToStatus | src/db/models/enrollment.rs:42-60 | The mapping is total. The four token rejections (not found, expired, session expired, used) are exactly the errors mapped to Unauthenticated "invalid token". `AlreadyActive` is exactly the error mapped to InvalidArgument "already active". Every other error is Internal "unexpected error". |
| Enrollments.NewEnrollment | src/db/models/enrollment.rs:75-91 | A new token has the given 32-character alphanumeric id, user, admin and email. It was created at `now`, expires `token_timeout` seconds later and is unused. From `now` on, it is usable exactly up to and including `now + token_timeout`. |
| Enrollments.ExpiryBoundary | src/db/models/enrollment.rs:113-116 | `Enrollment.IsExpired` is the strict `expires_at < now`. A token is not expired at the instant `now == expires_at`, and it is expired one second later. |
| Enrollments.SpentNeverUsable | src/db/models/enrollment.rs:118-121 | `Enrollment.IsUsed` holds exactly when `used_at` is set. A spent token is never usable again, at any time. |
| Enrollments.ExpiryIsPermanent | src/db/models/enrollment.rs:113-121 | Expiry is the strict `expires_at < now`. A token expired at one time is expired, and not usable, at every later time. |
| Enrollments.SessionWindow | src/db/models/enrollment.rs:123-131 | `Enrollment.IsSessionValid` holds only for a spent token and only while `now < used_at + session_timeout`. A session valid at some time is valid at every earlier time, so once closed it never reopens. A token with an open session is not usable. |
| Enrollments.Stamp | src/db/models/enrollment.rs:150-157 | The `UPDATE ... SET used_at` stamps `used_at := now` on the row with that id, if there is one. It keeps every id and changes no other row. |
| Enrollments.PurgeUnused | src/db/models/enrollment.rs:208-227 | Deleting a user's unused tokens removes exactly the rows of that user whose `used_at` is absent. Every other row stays unchanged. The user has no unused token left, and no spent token is lost. |
| Enrollments.EnrollmentTable.DeleteUnusedUserTokens | src/db/models/enrollment.rs:208-227 | The table becomes the purged table. The property "every user has at most one unused token" is preserved. |
| Enrollments.EnrollmentTable.FindById | src/db/models/enrollment.rs:162-175 | The lookup succeeds exactly when the id is in the table, with that row. Otherwise it fails with `NotFound`, which is reported as Unauthenticated. In a well-formed table, the row found carries the id looked up. |
| Enrollments.EnrollmentTable.Save | src/db/models/enrollment.rs:93-111 | Inserting a row whose id is free adds exactly that row. A taken id (primary-key violation) is a database error and changes nothing. |
| Enrollments.EnrollmentTable.StartSession | src/db/models/enrollment.rs:133-160 | Expiry is checked before use: an expired token gives `TokenExpired` even if it is also used, and an unexpired used token gives `TokenUsed`. On failure the token and table are unchanged. Success happens exactly when the token is usable. On success `used_at := now` is stamped in the token and its row, and the deadline `now + session_timeout` is returned. The session is then valid exactly before that deadline. No spent token ever becomes unspent, and "at most one unused token per user" is preserved. |
| Enrollments.EnrollmentTable.StartEnrollment | src/db/models/enrollment.rs:229-301 | A user with a password gets `AlreadyActive` and nothing is written. Otherwise the user's unused tokens are deleted and the new token is inserted; an id collision gives a database error. A failed template render or mail hand-off gives `NotificationError` with its reason. Success happens exactly when none of these failures occurs. On success the returned id is the user's only unused token, and that token is usable now. A mail goes out exactly when notification is requested, an address is present and the call succeeds. The mail carries the subject "Defguard user enrollment" and links to the new token. Other users' rows and spent rows are untouched, and "at most one unused token per user" is preserved. |
| Enrollments.Settings.WelcomeMessage | src/db/models/enrollment.rs:305-310 | Returns the configured welcome message when there is one. Otherwise it fails with `WelcomeMsgNotConfigured`, an internal error. |
| Enrollments.Settings.WelcomeEmail | src/db/models/enrollment.rs:312-320 | When the settings say to use the welcome message as the email, the result is the welcome message. Otherwise it is the separately configured email text, or `WelcomeEmailNotConfigured`. Either failure is an internal error. |
| Enrollments.StaleCopySpendsTwice | src/db/models/enrollment.rs:136-160 | Two copies of one token fetched before either is presented both succeed: at `now` and at `now + 5`. The stored row ends up stamped with the second time. This is the sequential form of two sessions racing on one token. |
| Enrollments.IssueAndSpendOnce | src/db/models/enrollment.rs:125-160 | A token issued for a new user opens a session when first presented, with deadline `now + 600`. A second presentation, of a copy looked up after that spend, is refused as `TokenUsed`, and the session is closed at its deadline. |
| Users.User.constructor | src/db/models/user.rs:60-85 | A new user is unsaved (`id` absent), with TOTP off, no TOTP secret, MFA method `None`, no recovery codes and no SSH/PGP data. The profile fields are as given. |
| Users.WriteCodes | src/db/models/user.rs:154-162 | The `UPDATE ... SET recovery_codes` replaces the codes of the row with that id, if there is one. It keeps every id, every other column and every other row. |
| Users.WriteSecret | src/db/models/user.rs:99-107 | The `UPDATE ... SET totp_secret` replaces the secret of the row with that id, if there is one. It keeps every id, every other column and every other row. |
| Users.WriteTotpEnabled | src/db/models/user.rs:186-196 | The `UPDATE ... SET totp_enabled` replaces the TOTP flag of the row with that id, if there is one. It keeps every id, every other column and every other row. |
| Users.AnyMfaWallet | src/db/models/user.rs:124-129 | The `bool_or(use_for_mfa)` part of the MFA query holds exactly when some wallet of the user is flagged for MFA. |
| Users.KeyCount | src/db/models/user.rs:124-129 | The number of the user's security keys. It is positive exactly when the user has a key, and exactly when the query's `count(webauthn.id)` is positive. |
| Users.User.MfaEnabled | src/db/models/user.rs:113-137 | True whenever the in-memory TOTP flag is on. False for an unsaved user with TOTP off. For a saved user, it fails exactly when the stored row is missing. Otherwise it holds exactly when the stored TOTP flag is on, a wallet is flagged for MFA, or a security key exists. |
| Users.User.EnableMfa | src/db/models/user.rs:139-165 | When MFA is already on, it returns `None` and changes nothing; a failed query also changes nothing. Otherwise it replaces, rather than appends to, the recovery codes, both in memory and in a saved row. The new codes are exactly the eight generated 16-character alphanumeric codes, and it returns that same list. |
| Users.ClearWalletMfa | src/db/models/user.rs:177 | Clearing a user's wallet MFA flags keeps every wallet in place. It clears the flag on exactly that user's wallets, so none of them counts for MFA afterwards. |
| Users.DropKeys | src/db/models/user.rs:178 | Deleting a user's security keys removes exactly that user's keys, so the user's key count becomes zero. |
| Users.User.DisableMfa | src/db/models/user.rs:167-183 | The in-memory secret becomes absent and the codes empty. For a saved user, the stored secret and codes are cleared, the wallet MFA flags are cleared and the keys are deleted. Afterwards MFA is reported on exactly when a TOTP flag (in memory or stored) is still on. |
| Users.User.EnableTotp | src/db/models/user.rs:185-196 | As written: when TOTP is off, the stored flag is set, but the in-memory flag stays off. |
| Users.User.EnableTotpCorrected | src/db/models/user.rs:185-196 | When TOTP is off, both the in-memory flag and a saved user's stored flag are turned on. |
| Users.User.DisableTotp | src/db/models/user.rs:198-214 | As written: it does nothing when TOTP is off. Otherwise it clears the in-memory flag and secret, and the stored flag, and deletes the user's security keys. The stored secret is left as it was. |
| Users.User.DisableTotpCorrected | src/db/models/user.rs:198-214 | As intended: the stored secret is cleared as well, so a saved row agrees with the in-memory flag and secret afterwards. |
| Users.User.NewSecret | src/db/models/user.rs:96-111 | The 20-byte secret is installed in memory and in a saved row, and the TOTP flag is unchanged. It returns 32 base 32 characters that decode back to the secret. |
| Users.User.VerifyCode | src/db/models/user.rs:216-225 | As written: no code is accepted without a secret, or when the clock is before the epoch. Otherwise the result is exactly the external TOTP check's answer for the secret, the code and the current time. The TOTP flag is not consulted. |
| Users.User.VerifyCodeCorrected | src/db/models/user.rs:216-225 | No code is accepted while TOTP is off. With TOTP on, it agrees with `VerifyCode`. |
| Users.Position | src/db/models/user.rs:233 | Finds the first index holding the code; there is none exactly when the code is not in the list. |
| Users.SwapRemove | src/db/models/user.rs:234-235 | Removing index `i` by swapping in the last element shortens the list by one and removes exactly one occurrence of the element at `i` (multiset equality). The last element takes place `i`, and every other element keeps its place. |
| Users.User.VerifyRecoveryCode | src/db/models/user.rs:227-249 | Accepts exactly the codes in the list. An accepted code loses its first occurrence by swap-remove, so the list shrinks by one and the multiset loses exactly that code. A code held once can never be accepted again. A saved row gets the new list. A refused code changes nothing. |
| Users.ConsumeEveryRecoveryCode | src/db/models/user.rs:418-446 | The recovery-code test: enabling MFA for a new user installs 8 codes, and an unknown code is refused. Consuming every issued code in turn succeeds each time and leaves the list empty. |
| Users.EnableTotpLeavesFlagOff | src/db/models/user.rs:185-196 | For a saved user with TOTP off, `EnableTotp` stores the flag but leaves the object's flag off. MFA is still reported on, through the stored flag, and a following `DisableTotp` leaves the stored flag on. |
| Users.DisableTotpKeepsStoredSecret | src/db/models/user.rs:198-214 | For a saved user with TOTP on and a secret, `DisableTotp` forgets the secret in memory but the stored row keeps it. |
| Users.VerifyCodeIgnoresTotpFlag | src/db/models/user.rs:216-225 | A user who has a secret but never enabled TOTP has a code accepted whenever the TOTP check accepts it; the corrected check refuses it. |
| Base32.Encode | src/db/models/user.rs:108 | Every five bytes become eight characters of the RFC 4648 base 32 alphabet. `AlphabetOrder` and `RfcVector` fix which text a byte string gets. |
| Base32.AlphabetOrder | src/db/models/user.rs:96 | Digit `d` is written as the `d`-th character of the RFC 4648 alphabet `A`-`Z`, `2`-`7`. |
| Base32.RfcVector | src/db/models/user.rs:96 | The RFC 4648 test vector holds: "fooba" encodes to "MZXW6YTB". |
| Base32.Decode | src/db/models/user.rs:108 | A text that decodes gives five bytes per eight characters. |
| Base32.DecodeEncode | src/db/models/user.rs:108 | Decoding the encoding of any multiple of five bytes gives those bytes back. |
| Base32.EncodeDecode | src/db/models/user.rs:108 | A text that decodes is the encoding of its decoded bytes, so every text that decodes is an encoding. |

## Left out

- SQL, `DbPool` and transactions are not modelled. The store is in-memory
  objects, and a caller's rollback after a failed `start_enrollment` is left to
  the caller: the model shows the writes made before the failure.
- Database failures other than two are not modelled: the missing row in
  `mfa_enabled` and the primary-key collision in `save`. Every other query is
  taken to succeed, so `DbError` from those queries does not appear.
- Concurrency, including two `start_session` calls racing on one token, is not
  modelled. The model is sequential.
- Enrollments.EnrollmentTable.StartSession: like the source, it checks the
  presented copy of the token, not the stored row. A copy fetched before
  another spend therefore still succeeds and stamps `used_at` again
  (`StaleCopySpendsTwice`). "Spent at most once" holds only when each
  presentation looks the token up after the previous spend.
- Randomness (`gen_alphanumeric`, `thread_rng`) is not modelled. Token ids,
  recovery codes and TOTP secrets are inputs of the stated shapes.
- Password hashing (`hash_password`, `set_password`, `verify_password`, Argon2)
  is not modelled. The constructor takes the finished hash, and `new` unwraps
  the hashing result, so its failure panic is not modelled either.
- TOTP code verification (`otpauth::TOTP::verify` with
  `TOTP_CODE_VALIDITY_PERIOD`) is the parameter `totpAccepts`. The system
  clock's seconds since the epoch is the parameter `unixTime`.
- The mail queue and `templates::enrollment_start_mail` are not modelled. Their
  outcomes are the parameters `rendered` and `sent`. The mail body is reduced
  to the token id it links to, and `enrollment_service_url` is not modelled.
- Logging is not modelled.
- Clock reads and sub-second precision are not modelled. `start_session` reads
  the clock twice in the source; here both reads are the one `now`.
  `is_session_valid` takes `now` as an argument.
- Timeouts are unbounded naturals. The cast from `u64` to `i64` and chrono's
  overflow panic for huge timeouts are not modelled.
- `User::has_password` is not part of this model. Whether the subject has a
  password is an input of `StartEnrollment`, and the user and admin ids it
  `expect`s are a precondition.
- `fetch_all`, `fetch_user` and `fetch_admin` are lookups used by the
  enrollment handlers, and they are not modelled. Their errors
  `UserNotFound` and `AdminNotFound` still appear in the status mapping.
- The query-only helpers of `user.rs` (`find_by_username`, `member_of`,
  `devices`, `wallets`, `security_keys`, `add_to_group`, `remove_from_group`)
  and the derived `save`, `delete` and `find_by_id` of `User` are not part of
  this model. `ConsumeEveryRecoveryCode` therefore works on the in-memory user
  instead of saving and fetching it back.
- `Wallet::disable_mfa_for_user` and `WebAuthn::delete_all_for_user` are not
  part of this model. They are modelled by what their names promise
  (`ClearWalletMfa`, `DropKeys`).
- `mfa_method` is not modelled beyond its initial value, because none of the
  modelled operations changes it.
- Base32.Encode: covers only inputs whose length is a multiple of five bytes,
  which includes the 20-byte TOTP secret. Padding is not modelled.

## Findings

| source | as written | input that shows it | evidently intended | confidence | as-written member | corrected member |
|---|---|---|---|---|---|---|
| src/db/models/user.rs:193 | `enable_totp` stores `totp_enabled = TRUE` and then sets the in-memory flag to `false` | a saved user with TOTP off: after `enable_totp` the object says TOTP is off while its row says on, and `disable_totp` on that object does nothing | set the in-memory flag to `true` | high; not executed | Users.User.EnableTotp, shown by Users.EnableTotpLeavesFlagOff | Users.User.EnableTotpCorrected |
| src/db/models/user.rs:203 | `SET totp_enabled = FALSE AND totp_secret = NULL` assigns `totp_enabled` the value of `FALSE AND (totp_secret = NULL)`, which is false, and leaves the stored secret alone | a saved user with TOTP on and a secret: after `disable_totp` the stored row still holds the secret | `SET totp_enabled = FALSE, totp_secret = NULL` | high; not executed | Users.User.DisableTotp, shown by Users.DisableTotpKeepsStoredSecret | Users.User.DisableTotpCorrected |
| src/db/models/user.rs:217-224 | `verify_code` accepts a valid code whenever a secret is present, whatever `totp_enabled` says | a user after `new_secret` but before `enable_totp`, with any code the TOTP check accepts | a code is accepted only while TOTP is enabled | medium (the setup flow may rely on checking a first code before enabling TOTP); not executed | Users.User.VerifyCode, shown by Users.VerifyCodeIgnoresTotpFlag | Users.User.VerifyCodeCorrected |
