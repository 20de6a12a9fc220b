# Account and token lifecycle of the auth system, in Dafny

This project models the account service of a small Spring web application.
The service handles user registration, setting the first password through an
emailed activation link, requesting a password reset, completing the reset,
and looking up the credential subject at login.

The persistent state is a `Model.Store` with two tables:

- `users` is a sequence of `User(name, email, password, enabled)` rows in
  insertion order. A user's id is its position, because the store assigns
  increasing ids and this service never deletes a user. `password` is
  `None` until activation.
- `tokens` maps each token string to `VerificationToken(owner, expiryDate)`.

Every service operation is a pure function from a store to a new store and a
reply string (`UserService.Response`). The Java `LocalDateTime.now()` becomes
a parameter `now`, an integer count of minutes. The random token from
`UUID.randomUUID()` becomes a parameter `newToken`, which must not already be
stored. The password encoder is a parameter `encode: string -> string`, and
its internals are opaque. The outcome of the mail transport is a
`EmailUtil.Delivery` parameter.

`Model.Valid` collects the store invariants:

- emails are unique;
- every token's owner exists;
- no two tokens share an owner;
- a user is enabled exactly when a password is set.

The second and third come from the non-nullable one-to-one join column of
the token entity. `Lifecycle.RunPreservesValid` proves that every trace of
requests keeps all four.

Modules follow the source layout:

- `Model` holds the entities and invariants.
- `Repositories` holds the JPA queries as table operations.
- `EmailUtil` is the mail helper.
- `UserService` is the service.
- `AuthController` holds the reset-page probe.
- `Lifecycle` holds the properties that span several operations.
- `Wrappers` supplies `Option` and `Result`. A `Result` failure stands for an
  exception raised out of a call.

Three behaviours of the code are worth stating plainly:

- **Token expiry.** A token is rejected only when its expiry lies strictly
  before `now` (`isBefore`). A token whose expiry equals `now` is still
  accepted (`Lifecycle.ExpiryBoundaryAccepted`).
- **Empty passwords.** `resetPassword` rejects only a null or unequal
  password pair. Two equal empty strings pass the check.
- **Failed emails.** `EmailUtil.sendVerificationEmail` catches every
  transport exception, so no exception reaches its callers
  (`EmailUtil.SendVerificationEmail`). Hence `registerUser` and
  `createPasswordResetTokenForUser` never take their "failed to send"
  branches, and their contracts state `r.Success?` for every transport
  outcome.

The login lookup hands the stored row to the framework's principal
constructor, which refuses an empty username or a null password. The model
includes that guard (`UserService.NewUserDetails`). A user who has registered
but not yet set a password therefore cannot be looked up: the lookup raises
an illegal-argument error rather than returning a disabled principal.

## Model

| member | source | states |
|---|---|---|
| Repositories.FindByEmail | authsystem/src/main/java/com/example/authsystem/repository/UserRepository.java:10 | The lookup finds nothing exactly when no user row has the email; otherwise it returns the first row with that email. |
| Repositories.FindByEmailFrom | authsystem/src/main/java/com/example/authsystem/repository/UserRepository.java:10 | The scan from a position finds nothing exactly when no later row has the email; otherwise it returns the earliest such row. |
| Repositories.FindByEmailUnique | authsystem/src/main/java/com/example/authsystem/repository/UserRepository.java:10 | When emails are unique, the lookup returns the one row that carries the email. |
| Repositories.FindByToken | authsystem/src/main/java/com/example/authsystem/repository/VerificationTokenRepository.java:10 | A token is found exactly when its string is stored, and the stored row is returned. |
| Repositories.DeleteByUser | authsystem/src/main/java/com/example/authsystem/repository/VerificationTokenRepository.java:12 | The remaining tokens are exactly those not owned by the user, with their rows unchanged. |
| UserService.NewUserDetails | authsystem/src/main/java/com/example/authsystem/service/UserService.java:59-67 | The principal is built exactly when the username is non-empty and the password is present, with that username, password, enabled flag and the single authority ROLE_USER; otherwise it raises an illegal-argument error. |
| UserService.LoadUserByUsername | authsystem/src/main/java/com/example/authsystem/service/UserService.java:41-68 | The lookup raises not-found, with "User not found with email: ...", exactly when no user has the email. For the user found, it succeeds exactly when the email is non-empty and a password is stored, returning that email, password and enabled flag with ROLE_USER; otherwise it raises an illegal-argument error. |
| UserService.FindUserByEmail | authsystem/src/main/java/com/example/authsystem/service/UserService.java:156-159 | The result is null exactly when no user has the email; otherwise it is a stored user with that email. |
| EmailUtil.SendVerificationEmail | authsystem/src/main/java/com/example/authsystem/util/EmailUtil.java:19-25 | No exception escapes the mail helper, whatever the transport does. |
| UserService.CreateVerificationToken | authsystem/src/main/java/com/example/authsystem/service/UserService.java:106-115 | Exactly one token is added, owned by the given user and expiring 30 minutes after now. Users and all other tokens are unchanged. |
| UserService.RegisterUser | authsystem/src/main/java/com/example/authsystem/service/UserService.java:70-104 | Registration never raises. A taken email gives "User with this email already exists" and leaves the store unchanged. Otherwise it appends one user with that name and email, a null password and enabled false, and adds one token owned by that user expiring at now + 30; earlier rows are untouched and the reply is the registration-successful text. |
| UserService.Consume | authsystem/src/main/java/com/example/authsystem/service/UserService.java:138-148 | The token's owner gets the encoded password and enabled = true, and the token is deleted. No other user or token changes. |
| UserService.SavePassword | authsystem/src/main/java/com/example/authsystem/service/UserService.java:117-154 | The reply is "Invalid or expired token" exactly when the token is absent or expired, and the store is then unchanged, so an expired token stays stored. A usable token consumes itself and replies "Password set successfully". A dangling owner gives the user-not-found error with no change. |
| UserService.CreatePasswordResetTokenForUser | authsystem/src/main/java/com/example/authsystem/service/UserService.java:161-192 | The request never raises and always replies with the same generic text. An unknown email leaves the store unchanged. For a known user it removes all of that user's tokens and adds one new token expiring at now + 30; users and other users' tokens are unchanged. |
| UserService.ResetPassword | authsystem/src/main/java/com/example/authsystem/service/UserService.java:194-227 | A null or unequal password pair gives "Passwords do not match." with no change, whatever the token. The invalid-reset-token reply occurs exactly when the pair matches and the token is absent or expired. Otherwise the token is consumed with the encoded new password, or the user-missing error is returned for a dangling owner. |
| AuthController.ShowResetPasswordPage | authsystem/src/main/java/com/example/authsystem/controller/AuthController.java:133-147 | As written, the page always renders the reset form and never the invalid-token message, whatever the store and token. |
| AuthController.ProbeMissesUnknownToken | authsystem/src/main/java/com/example/authsystem/controller/AuthController.java:137-138 | On an empty store a token is unusable, yet the probe still shows the reset form. |
| AuthController.ShowResetPasswordPageChecked | authsystem/src/main/java/com/example/authsystem/controller/AuthController.java:133-147 | The corrected page shows the message view exactly when the token is missing or expired, and the form exactly when it is usable. |
| Lifecycle.RegisterUserPreservesValid | authsystem/src/main/java/com/example/authsystem/service/UserService.java:70-104 | Registration keeps all four invariants: unique emails, existing owners, one token per user, enabled iff password set. |
| Lifecycle.ConsumePreservesValid | authsystem/src/main/java/com/example/authsystem/service/UserService.java:218-226 | Consuming a token keeps the invariants. |
| Lifecycle.SavePasswordPreservesValid | authsystem/src/main/java/com/example/authsystem/service/UserService.java:117-154 | Setting a password keeps the invariants. |
| Lifecycle.ResetPasswordPreservesValid | authsystem/src/main/java/com/example/authsystem/service/UserService.java:194-227 | Completing a reset keeps the invariants. |
| Lifecycle.ResetRequestPreservesValid | authsystem/src/main/java/com/example/authsystem/service/UserService.java:161-192 | A reset request keeps the invariants, including at most one token per user. |
| Lifecycle.ApplyPreservesValid | authsystem/src/main/java/com/example/authsystem/model/VerificationToken.java:18-20 | Every single service request keeps the invariants. |
| Lifecycle.RunPreservesValid | authsystem/src/main/java/com/example/authsystem/model/VerificationToken.java:18-20 | Every trace of requests from a valid store ends in a valid store. Every token's owner exists and no user holds two tokens. |
| Lifecycle.ReachableValid | authsystem/src/main/java/com/example/authsystem/model/VerificationToken.java:18-20 | Every store reachable from the empty store satisfies the invariants. |
| Lifecycle.RunKeepsUsers | authsystem/src/main/java/com/example/authsystem/service/UserService.java:79-84 | Over any trace, users are only added, never removed, and a user's name and email never change. |
| Lifecycle.ExpiryBoundaryAccepted | authsystem/src/main/java/com/example/authsystem/service/UserService.java:127-131 | A token whose expiry equals now is accepted by both set-password and reset-password. |
| Lifecycle.ExpiredTokenRejected | authsystem/src/main/java/com/example/authsystem/service/UserService.java:204-209 | A token past its expiry is rejected by both operations with no change, and it stays in the store. |
| Lifecycle.SavePasswordSingleUse | authsystem/src/main/java/com/example/authsystem/service/UserService.java:146 | After a successful set-password, any later use of the same token by either operation is rejected as invalid. |
| Lifecycle.ResetPasswordSingleUse | authsystem/src/main/java/com/example/authsystem/service/UserService.java:223 | After a successful reset, any later use of the same token by either operation is rejected as invalid. |
| Lifecycle.ResetRequestSupersedes | authsystem/src/main/java/com/example/authsystem/service/UserService.java:172-177 | After a reset request, every token the user held before fails validation. The new token is usable exactly until now + 30. |
| Lifecycle.RegisterTwice | authsystem/src/main/java/com/example/authsystem/service/UserService.java:74-78 | Registering a new email succeeds. Registering the same email again is refused with "already exists" and leaves the store unchanged. |
| Lifecycle.ActivationThenLogin | authsystem/src/main/java/com/example/authsystem/service/UserService.java:41-148 | Looking up a freshly registered user fails, because no password is stored yet. Setting the password with the activation token within 30 minutes succeeds. After that, the lookup gives the encoded password and enabled = true, unless the email is empty. |
| Lifecycle.LoginSubjectConsistent | authsystem/src/main/java/com/example/authsystem/service/UserService.java:59-67 | In a valid store, the lookup of a user succeeds exactly when the email is non-empty and the user is enabled, and every principal it yields is enabled. |

## Findings

| source | as written | input that shows it | evidently intended | confidence | as-written member | corrected member |
|---|---|---|---|---|---|---|
| authsystem/src/main/java/com/example/authsystem/controller/AuthController.java:137-138 | The reset page probes the token with `resetPassword(token, null, null)`. That call returns "Passwords do not match." before it looks at the token, so the probe never sees the invalid-token reply. | Any token on an empty store: the token is unusable, yet the reset form is shown. | Show the message view exactly when the token is missing or expired. | high, not executed | AuthController.ShowResetPasswordPage | AuthController.ShowResetPasswordPageChecked |

## Left out

- The Spring wiring, dependency injection and `@Transactional` semantics are not modelled. In a trace, a raised exception is modelled as leaving the store unchanged. The service operations never raise in this model, except the login lookup, which does not change the store.
- The race between the email-uniqueness check and the insert is left out. The model is sequential.
- The security filter chain, form login and route permissions are left out. They are framework configuration.
- The password encoder's internals are left out. It is an opaque parameter.
- UUID generation is left out. The token is a parameter that must not already be stored.
- The system clock is left out. `now` is a parameter counting minutes.
- The SMTP transport is left out. Its outcome is a parameter that the mail helper ignores, because it catches every failure.
- The controller's view names, model attributes and redirects are left out, except for the reset-page probe. `scripts.js` is a browser UI toggle and is left out.
- Logging is left out. It does not affect any returned value.
- The link strings in emails are built but not delivered anywhere observable.
- Null strings are not modelled for names, emails, token strings or the `savePassword` password. This includes the null fields of an incomplete registration form. The two `resetPassword` password parameters are modelled as optional, because the probe passes null for both.
- The exception the JPA email query raises when two users share an email is not modelled. The lookup returns the first such row instead, and `Model.Valid` rules such stores out.
- UserService.CreatePasswordResetTokenForUser: the superseding clause is stated for the user that the email lookup returns. Only with unique emails, as `Model.Valid` guarantees, is that the one user with the email. The JPA query would raise on duplicate emails; this model picks the first instead. That exception is not modelled.
