/** The two persistent tables of the account system and their invariants.

    The user table is a sequence in insertion order: a user's id is its
    position, since ids are assigned by the store in increasing order and this
    domain never deletes a user. The token table maps each token string to the
    owning user's id and the token's expiry time, counted in minutes. */
module Model {
  import opened Wrappers

  type UserId = nat

  /** A user row; `password` holds the encoded password, `None` until the
      account is activated. */
  datatype User = User(name: string, email: string, password: Option<string>, enabled: bool)

  /** A verification token row, keyed in the store by its token string. */
  datatype VerificationToken = VerificationToken(owner: UserId, expiryDate: int)

  datatype Store = Store(users: seq<User>, tokens: map<string, VerificationToken>)

  /** Minutes between issuing a token and its expiry. */
  const TokenLifetime: int := 30

  /** The store before anything has happened. */
  function EmptyStore(): (s: Store)
    ensures Valid(s)
    ensures |s.users| == 0 && |s.tokens| == 0
  {
    Store([], map[])
  }

  /** Some user row carries this email. */
  predicate Registered(users: seq<User>, email: string) {
    exists i :: 0 <= i < |users| && users[i].email == email
  }

  /** `LocalDateTime.isBefore`: the expiry instant lies strictly before `now`. */
  predicate Expired(t: VerificationToken, now: int) {
    t.expiryDate < now
  }

  /** The token string is stored and its expiry has not passed. */
  predicate Usable(s: Store, token: string, now: int) {
    token in s.tokens && !Expired(s.tokens[token], now)
  }

  /** The token strings the store holds for one user. */
  function TokensOf(s: Store, id: UserId): set<string> {
    set t | t in s.tokens && s.tokens[t].owner == id
  }

  predicate EmailsUnique(users: seq<User>) {
    forall i, j :: 0 <= i < j < |users| ==> users[i].email != users[j].email
  }

  /** Every token refers to an existing user (the non-null join column). */
  predicate OwnersExist(s: Store) {
    forall t :: t in s.tokens ==> s.tokens[t].owner < |s.users|
  }

  /** No two tokens share an owner (the one-to-one mapping). */
  predicate OneTokenPerUser(tokens: map<string, VerificationToken>) {
    forall t, t' :: t in tokens && t' in tokens && tokens[t].owner == tokens[t'].owner ==> t == t'
  }

  /** A user is enabled exactly when a password has been set. */
  predicate EnabledIffPassword(users: seq<User>) {
    forall i :: 0 <= i < |users| ==> (users[i].enabled <==> users[i].password.Some?)
  }

  predicate Valid(s: Store) {
    && EmailsUnique(s.users)
    && OwnersExist(s)
    && OneTokenPerUser(s.tokens)
    && EnabledIffPassword(s.users)
  }
}
