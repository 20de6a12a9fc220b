/** The account service: registration, activation, password-reset request and
    completion, and the credential lookup used at login.

    Each operation is a pure transition on the `Store`. The clock reading
    (`now`, in minutes), the freshly generated token string (`newToken`), the
    password encoder (`encode`) and the mail transport outcome are parameters. */
module UserService {
  import opened Wrappers
  import opened Model
  import Repositories
  import EmailUtil

  const EmailTaken := "User with this email already exists"
  const Registration := "Registration successful. Please check your email to set your password."
  const RegistrationMailFailed := "Failed to send verification email. Registration failed."
  const InvalidToken := "Invalid or expired token"
  const PasswordSet := "Password set successfully"
  const UserNotFoundForToken := "Error: User not found for the provided token."
  const ResetRequested := "If an account with that email exists, a password reset link has been sent."
  const ResetMailFailed := "Failed to send password reset email."
  const PasswordsDiffer := "Passwords do not match."
  const InvalidResetToken := "Invalid or expired password reset token."
  const ResetUserMissing := "Error: User associated with token not found."
  const PasswordReset := "Your password has been successfully reset."
  const RoleUser := "ROLE_USER"

  const SetPasswordLink := "http://localhost:8080/set-password?token="
  const ResetPasswordLink := "http://localhost:8080/reset-password?token="

  /** The store after an operation, with the string the operation returned. */
  datatype Response = Response(store: Store, reply: string)

  /** The principal handed to the authentication layer. */
  datatype UserDetails = UserDetails(
    username: string,
    password: string,
    enabled: bool,
    accountNonExpired: bool,
    credentialsNonExpired: bool,
    accountNonLocked: bool,
    authorities: seq<string>)

  /** `s'` is `s` with `token` consumed: its owner now has password `hash`
      and is enabled, the token is gone, and nothing else changed. */
  predicate Consumed(s: Store, s': Store, token: string, hash: string) {
    && token in s.tokens
    && var id := s.tokens[token].owner;
    && id < |s.users|
    && |s'.users| == |s.users|
    && s'.users[id] == s.users[id].(password := Some(hash), enabled := true)
    && (forall i :: 0 <= i < |s.users| && i != id ==> s'.users[i] == s.users[i])
    && s'.tokens.Keys == s.tokens.Keys - {token}
    && (forall t :: t in s'.tokens ==> s'.tokens[t] == s.tokens[t])
  }

  /** `s'` is `s` after user `id` was issued `newToken`: the user's earlier
      tokens are gone, the new one expires `TokenLifetime` minutes after
      `now`, and the users and every other user's tokens are unchanged. */
  predicate Superseded(s: Store, s': Store, id: UserId, newToken: string, now: int) {
    && s'.users == s.users
    && newToken in s'.tokens
    && s'.tokens[newToken] == VerificationToken(id, now + TokenLifetime)
    && (forall t :: t in s'.tokens && t != newToken ==> t in s.tokens && s.tokens[t].owner != id)
    && (forall t :: t in s.tokens && s.tokens[t].owner != id ==> t in s'.tokens && s'.tokens[t] == s.tokens[t])
  }

  /** The pair of passwords submitted to a reset is present and equal. */
  predicate PairMatches(newPassword: Option<string>, confirmPassword: Option<string>) {
    newPassword.Some? && confirmPassword.Some? && newPassword.value == confirmPassword.value
  }

  /** The exceptions a credential lookup can raise. */
  datatype LookupError =
    | UsernameNotFound(message: string)
    | IllegalArgument(message: string)

  const PrincipalArgumentsRejected := "Cannot pass null or empty values to constructor"

  /** The principal's constructor: it refuses an empty username or a null
      password. */
  function NewUserDetails(username: string, password: Option<string>, enabled: bool): (r: Result<UserDetails, LookupError>)
    ensures r.Success? <==> username != "" && password.Some?
    ensures r.Failure? ==> r.error == IllegalArgument(PrincipalArgumentsRejected)
    ensures r.Success? ==>
      && r.value.username == username && r.value.password == password.value
      && r.value.enabled == enabled && r.value.authorities == [RoleUser]
  {
    if username == "" || password.None? then Failure(IllegalArgument(PrincipalArgumentsRejected))
    else Success(UserDetails(username, password.value, enabled, true, true, true, [RoleUser]))
  }

  /** `loadUserByUsername`: the credential subject for an email. It raises
      not-found for an unknown email, and the principal's constructor raises
      for an empty email or a user who has no password yet. */
  function LoadUserByUsername(s: Store, email: string): (r: Result<UserDetails, LookupError>)
    ensures r.Failure? && r.error.UsernameNotFound? <==> !Registered(s.users, email)
    ensures r.Failure? && r.error.UsernameNotFound? ==>
      r.error.message == "User not found with email: " + email
    ensures forall id :: Repositories.FindByEmail(s.users, email) == Some(id) ==>
      && (r.Success? <==> email != "" && s.users[id].password.Some?)
      && (r.Failure? ==> r.error == IllegalArgument(PrincipalArgumentsRejected))
      && (r.Success? ==> r.value == UserDetails(email, s.users[id].password.value, s.users[id].enabled,
                                                true, true, true, [RoleUser]))
  {
    match Repositories.FindByEmail(s.users, email)
    case None => Failure(UsernameNotFound("User not found with email: " + email))
    case Some(id) =>
      var u := s.users[id];
      NewUserDetails(u.email, u.password, u.enabled)
  }

  /** `findByEmail`: the user row with this email, or null. */
  function FindUserByEmail(s: Store, email: string): (r: Option<User>)
    ensures r.None? <==> !Registered(s.users, email)
    ensures r.Some? ==> r.value.email == email && r.value in s.users
  {
    match Repositories.FindByEmail(s.users, email)
    case None => None
    case Some(id) => Some(s.users[id])
  }

  /** `createVerificationToken`: store `token` for `owner`, expiring
      `TokenLifetime` minutes after `now`. */
  function CreateVerificationToken(s: Store, owner: UserId, token: string, now: int): (s': Store)
    ensures s'.users == s.users
    ensures s'.tokens.Keys == s.tokens.Keys + {token}
    ensures s'.tokens[token] == VerificationToken(owner, now + TokenLifetime)
    ensures forall t :: t in s.tokens && t != token ==> s'.tokens[t] == s.tokens[t]
  {
    s.(tokens := s.tokens[token := VerificationToken(owner, now + TokenLifetime)])
  }

  /** `registerUser`: a pending user and its activation token, unless the
      email is taken. */
  function RegisterUser(s: Store, name: string, email: string, now: int, newToken: string,
                        transport: EmailUtil.Delivery): (r: Result<Response, string>)
    requires newToken !in s.tokens
    ensures r.Success?
    ensures Registered(s.users, email) ==> r.value == Response(s, EmailTaken)
    ensures !Registered(s.users, email) ==>
      var s' := r.value.store;
      && r.value.reply == Registration
      && |s'.users| == |s.users| + 1
      && s'.users[..|s.users|] == s.users
      && s'.users[|s.users|] == User(name, email, None, false)
      && s'.tokens.Keys == s.tokens.Keys + {newToken}
      && (forall t :: t in s.tokens ==> s'.tokens[t] == s.tokens[t])
      && s'.tokens[newToken] == VerificationToken(|s.users|, now + TokenLifetime)
  {
    if Repositories.FindByEmail(s.users, email).Some? then
      Success(Response(s, EmailTaken))
    else
      var id := |s.users|;
      var saved := s.(users := s.users + [User(name, email, None, false)]);
      var s' := CreateVerificationToken(saved, id, newToken, now);
      if EmailUtil.SendVerificationEmail(transport, email, "Set Your Password", SetPasswordLink + newToken) then
        Failure(RegistrationMailFailed)
      else
        Success(Response(s', Registration))
  }

  /** The successful tail of `savePassword` and `resetPassword`: set the
      owner's password, enable the owner and delete the token. */
  function Consume(s: Store, token: string, hash: string): (s': Store)
    requires token in s.tokens && s.tokens[token].owner < |s.users|
    ensures Consumed(s, s', token, hash)
  {
    var id := s.tokens[token].owner;
    Store(s.users[id := s.users[id].(password := Some(hash), enabled := true)], s.tokens - {token})
  }

  /** `savePassword`: activate the account behind an activation token. */
  function SavePassword(s: Store, token: string, password: string, now: int,
                        encode: string -> string): (r: Response)
    ensures r.reply == InvalidToken <==> !Usable(s, token, now)
    ensures !Usable(s, token, now) ==> r.store == s
    ensures Usable(s, token, now) && s.tokens[token].owner < |s.users| ==>
      r.reply == PasswordSet && Consumed(s, r.store, token, encode(password))
    ensures Usable(s, token, now) && s.tokens[token].owner >= |s.users| ==>
      r == Response(s, UserNotFoundForToken)
  {
    match Repositories.FindByToken(s.tokens, token)
    case None => Response(s, InvalidToken)
    case Some(vt) =>
      if Expired(vt, now) then Response(s, InvalidToken)
      else if vt.owner < |s.users| then Response(Consume(s, token, encode(password)), PasswordSet)
      else Response(s, UserNotFoundForToken)
  }

  /** `createPasswordResetTokenForUser`: replace the user's tokens with a
      newToken reset token; the reply never reveals whether the email exists. */
  function CreatePasswordResetTokenForUser(s: Store, email: string, now: int, newToken: string,
                                           transport: EmailUtil.Delivery): (r: Result<Response, string>)
    requires newToken !in s.tokens
    ensures r.Success? && r.value.reply == ResetRequested
    ensures !Registered(s.users, email) ==> r.value.store == s
    ensures forall id :: Repositories.FindByEmail(s.users, email) == Some(id) ==>
      Superseded(s, r.value.store, id, newToken, now)
  {
    match Repositories.FindByEmail(s.users, email)
    case None => Success(Response(s, ResetRequested))
    case Some(id) =>
      var cleared := s.(tokens := Repositories.DeleteByUser(s.tokens, id));
      var s' := CreateVerificationToken(cleared, id, newToken, now);
      if EmailUtil.SendVerificationEmail(transport, email, "Password Reset Request", ResetPasswordLink + newToken) then
        Failure(ResetMailFailed)
      else
        Success(Response(s', ResetRequested))
  }

  /** `resetPassword`: check the submitted password pair, then consume a
      reset token. A `None` password stands for a null parameter. */
  function ResetPassword(s: Store, token: string, newPassword: Option<string>,
                         confirmPassword: Option<string>, now: int,
                         encode: string -> string): (r: Response)
    ensures !PairMatches(newPassword, confirmPassword) ==> r == Response(s, PasswordsDiffer)
    ensures r.reply == InvalidResetToken <==>
      PairMatches(newPassword, confirmPassword) && !Usable(s, token, now)
    ensures !Usable(s, token, now) ==> r.store == s
    ensures (PairMatches(newPassword, confirmPassword) && Usable(s, token, now)
             && s.tokens[token].owner < |s.users|) ==>
      r.reply == PasswordReset && Consumed(s, r.store, token, encode(newPassword.value))
    ensures (PairMatches(newPassword, confirmPassword) && Usable(s, token, now)
             && s.tokens[token].owner >= |s.users|) ==>
      r == Response(s, ResetUserMissing)
  {
    if newPassword.None? || confirmPassword.None? || newPassword.value != confirmPassword.value then
      Response(s, PasswordsDiffer)
    else
      match Repositories.FindByToken(s.tokens, token)
      case None => Response(s, InvalidResetToken)
      case Some(vt) =>
        if Expired(vt, now) then Response(s, InvalidResetToken)
        else if vt.owner >= |s.users| then Response(s, ResetUserMissing)
        else Response(Consume(s, token, encode(newPassword.value)), PasswordReset)
  }
}
