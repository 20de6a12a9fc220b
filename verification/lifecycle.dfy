/** Properties of the account and token lifecycle across operations: the
    store invariants every operation preserves, single use of tokens,
    superseding on a reset request, the expiry boundary, and whole traces of
    requests starting from the empty store. */
module Lifecycle {
  import opened Wrappers
  import opened Model
  import EmailUtil
  import opened UserService

  /** One call into the service. */
  datatype Request =
    | SubmitRegistration(name: string, email: string, newToken: string, transport: EmailUtil.Delivery)
    | SubmitPassword(token: string, password: string)
    | RequestReset(email: string, newToken: string, transport: EmailUtil.Delivery)
    | SubmitReset(token: string, newPassword: Option<string>, confirmPassword: Option<string>)
    | Login(email: string)

  /** A request together with the clock reading when it was handled. */
  datatype Event = Event(now: int, request: Request)

  /** A generated token string never collides with a stored one. */
  predicate Admits(s: Store, r: Request) {
    match r
    case SubmitRegistration(_, _, t, _) => t !in s.tokens
    case RequestReset(_, t, _) => t !in s.tokens
    case _ => true
  }

  /** The store after handling one event. A raised exception leaves the store
      as it was (the transaction rolls back). */
  function Apply(s: Store, e: Event, encode: string -> string): Store
    requires Admits(s, e.request)
  {
    match e.request
    case SubmitRegistration(name, email, t, d) =>
      (match RegisterUser(s, name, email, e.now, t, d)
       case Success(resp) => resp.store
       case Failure(_) => s)
    case SubmitPassword(token, pw) => SavePassword(s, token, pw, e.now, encode).store
    case RequestReset(email, t, d) =>
      (match CreatePasswordResetTokenForUser(s, email, e.now, t, d)
       case Success(resp) => resp.store
       case Failure(_) => s)
    case SubmitReset(token, p, c) => ResetPassword(s, token, p, c, e.now, encode).store
    case Login(_) => s
  }

  /** Every generated token string in the trace is fresh when it is used. */
  predicate Admissible(s: Store, events: seq<Event>, encode: string -> string)
    decreases |events|
  {
    |events| == 0 ||
    (Admits(s, events[0].request) && Admissible(Apply(s, events[0], encode), events[1..], encode))
  }

  function Run(s: Store, events: seq<Event>, encode: string -> string): Store
    requires Admissible(s, events, encode)
    decreases |events|
  {
    if |events| == 0 then s else Run(Apply(s, events[0], encode), events[1..], encode)
  }

  // ---------------------------------------------------------------------
  // Invariant preservation, one operation at a time

  lemma RegisterUserPreservesValid(s: Store, name: string, email: string, now: int, newToken: string,
                                   d: EmailUtil.Delivery)
    requires Valid(s) && newToken !in s.tokens
    ensures Valid(RegisterUser(s, name, email, now, newToken, d).value.store)
  {
  }

  lemma ConsumePreservesValid(s: Store, s': Store, token: string, hash: string)
    requires Valid(s) && Consumed(s, s', token, hash)
    ensures Valid(s')
  {
  }

  lemma SavePasswordPreservesValid(s: Store, token: string, pw: string, now: int, encode: string -> string)
    requires Valid(s)
    ensures Valid(SavePassword(s, token, pw, now, encode).store)
  {
  }

  lemma ResetPasswordPreservesValid(s: Store, token: string, p: Option<string>, c: Option<string>,
                                    now: int, encode: string -> string)
    requires Valid(s)
    ensures Valid(ResetPassword(s, token, p, c, now, encode).store)
  {
  }

  lemma ResetRequestPreservesValid(s: Store, email: string, now: int, newToken: string, d: EmailUtil.Delivery)
    requires Valid(s) && newToken !in s.tokens
    ensures Valid(CreatePasswordResetTokenForUser(s, email, now, newToken, d).value.store)
  {
  }

  lemma ApplyPreservesValid(s: Store, e: Event, encode: string -> string)
    requires Valid(s) && Admits(s, e.request)
    ensures Valid(Apply(s, e, encode))
  {
  }

  /** Every store reachable by a trace of requests satisfies the invariants. */
  lemma {:induction false} RunPreservesValid(s: Store, events: seq<Event>, encode: string -> string)
    requires Valid(s) && Admissible(s, events, encode)
    ensures Valid(Run(s, events, encode))
    decreases |events|
  {
    if |events| > 0 {
      ApplyPreservesValid(s, events[0], encode);
      RunPreservesValid(Apply(s, events[0], encode), events[1..], encode);
    }
  }

  lemma ReachableValid(events: seq<Event>, encode: string -> string)
    requires Admissible(EmptyStore(), events, encode)
    ensures Valid(Run(EmptyStore(), events, encode))
  {
    RunPreservesValid(EmptyStore(), events, encode);
  }

  /** Users are never deleted, and a user's name and email never change. */
  lemma {:induction false} RunKeepsUsers(s: Store, events: seq<Event>, encode: string -> string)
    requires Admissible(s, events, encode)
    ensures |Run(s, events, encode).users| >= |s.users|
    ensures forall i :: 0 <= i < |s.users| ==>
      Run(s, events, encode).users[i].email == s.users[i].email
      && Run(s, events, encode).users[i].name == s.users[i].name
    decreases |events|
  {
    if |events| > 0 {
      var s1 := Apply(s, events[0], encode);
      assert |s1.users| >= |s.users|;
      assert forall i :: 0 <= i < |s.users| ==> s1.users[i].email == s.users[i].email && s1.users[i].name == s.users[i].name;
      RunKeepsUsers(s1, events[1..], encode);
    }
  }

  // ---------------------------------------------------------------------
  // Tokens

  /** A token that expires exactly now is still accepted. */
  lemma ExpiryBoundaryAccepted(s: Store, token: string, pw: string, now: int, encode: string -> string)
    requires Valid(s) && token in s.tokens && s.tokens[token].expiryDate == now
    ensures SavePassword(s, token, pw, now, encode).reply == PasswordSet
    ensures ResetPassword(s, token, Some(pw), Some(pw), now, encode).reply == PasswordReset
  {
  }

  /** A token past its expiry is rejected and stays in the store. */
  lemma ExpiredTokenRejected(s: Store, token: string, pw: string, now: int, encode: string -> string)
    requires token in s.tokens && s.tokens[token].expiryDate < now
    ensures SavePassword(s, token, pw, now, encode) == Response(s, InvalidToken)
    ensures ResetPassword(s, token, Some(pw), Some(pw), now, encode) == Response(s, InvalidResetToken)
    ensures token in SavePassword(s, token, pw, now, encode).store.tokens
  {
  }

  /** An activation token works once: any second use, by either operation
      and at any time, is rejected. */
  lemma SavePasswordSingleUse(s: Store, token: string, pw: string, now: int,
                              pw': string, now': int, encode: string -> string)
    requires SavePassword(s, token, pw, now, encode).reply == PasswordSet
    ensures var s' := SavePassword(s, token, pw, now, encode).store;
      && SavePassword(s', token, pw', now', encode) == Response(s', InvalidToken)
      && ResetPassword(s', token, Some(pw'), Some(pw'), now', encode) == Response(s', InvalidResetToken)
  {
  }

  /** A reset token works once. */
  lemma ResetPasswordSingleUse(s: Store, token: string, pw: string, now: int,
                               pw': string, now': int, encode: string -> string)
    requires ResetPassword(s, token, Some(pw), Some(pw), now, encode).reply == PasswordReset
    ensures var s' := ResetPassword(s, token, Some(pw), Some(pw), now, encode).store;
      && ResetPassword(s', token, Some(pw'), Some(pw'), now', encode) == Response(s', InvalidResetToken)
      && SavePassword(s', token, pw', now', encode) == Response(s', InvalidToken)
  {
  }

  /** After a reset request, every token the user held before is rejected,
      while the new one is usable until it expires. */
  lemma ResetRequestSupersedes(s: Store, email: string, now: int, newToken: string, d: EmailUtil.Delivery,
                               earlier: string, pw: string, now': int, encode: string -> string)
    requires Valid(s) && newToken !in s.tokens
    requires earlier in s.tokens && s.users[s.tokens[earlier].owner].email == email
    ensures var s' := CreatePasswordResetTokenForUser(s, email, now, newToken, d).value.store;
      && SavePassword(s', earlier, pw, now', encode) == Response(s', InvalidToken)
      && ResetPassword(s', earlier, Some(pw), Some(pw), now', encode) == Response(s', InvalidResetToken)
      && (now' <= now + TokenLifetime <==> Usable(s', newToken, now'))
  {
  }

  // ---------------------------------------------------------------------
  // Registration and login

  /** Registering the same email twice: the first succeeds, the second is
      refused and changes nothing. */
  lemma RegisterTwice(s: Store, name: string, name': string, email: string, now: int, now': int,
                      t: string, t': string, d: EmailUtil.Delivery, d': EmailUtil.Delivery)
    requires !Registered(s.users, email) && t !in s.tokens && t' !in s.tokens && t' != t
    ensures RegisterUser(s, name, email, now, t, d).value.reply == Registration
    ensures var s' := RegisterUser(s, name, email, now, t, d).value.store;
      RegisterUser(s', name', email, now', t', d') == Success(Response(s', EmailTaken))
  {
  }

  /** A registered but not yet activated user cannot be looked up: the
      principal's constructor refuses the missing password. After activation
      within 30 minutes the lookup yields the encoded password and the
      enabled flag, unless the email is empty. */
  lemma ActivationThenLogin(s: Store, name: string, email: string, now: int, t: string,
                            d: EmailUtil.Delivery, pw: string, now': int, encode: string -> string)
    requires Valid(s) && !Registered(s.users, email) && t !in s.tokens
    requires now' <= now + TokenLifetime
    ensures var s1 := RegisterUser(s, name, email, now, t, d).value.store;
      && LoadUserByUsername(s1, email) == Failure(IllegalArgument(PrincipalArgumentsRejected))
      && SavePassword(s1, t, pw, now', encode).reply == PasswordSet
      && LoadUserByUsername(SavePassword(s1, t, pw, now', encode).store, email)
         == if email == "" then Failure(IllegalArgument(PrincipalArgumentsRejected))
            else Success(UserDetails(email, encode(pw), true, true, true, true, [RoleUser]))
  {
  }

  /** In a valid store the lookup succeeds exactly for a non-empty email of
      an enabled user, and every principal it yields is enabled. */
  lemma LoginSubjectConsistent(s: Store, email: string, id: UserId)
    requires Valid(s) && id < |s.users| && s.users[id].email == email
    ensures LoadUserByUsername(s, email).Success? <==> email != "" && s.users[id].enabled
    ensures LoadUserByUsername(s, email).Success? ==> LoadUserByUsername(s, email).value.enabled
  {
  }
}
