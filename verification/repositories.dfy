/** The repository queries the service uses, as operations on the tables. */
module Repositories {
  import opened Wrappers
  import opened Model

  /** `UserRepository.findByEmail`: the first user row with this email. */
  function FindByEmail(users: seq<User>, email: string): (r: Option<UserId>)
    ensures r.None? <==> !Registered(users, email)
    ensures r.Some? ==> r.value < |users| && users[r.value].email == email
    ensures r.Some? ==> forall i :: 0 <= i < r.value ==> users[i].email != email
  {
    FindByEmailFrom(users, email, 0)
  }

  /** The first user row at or after position `from` with this email. */
  function FindByEmailFrom(users: seq<User>, email: string, from: nat): (r: Option<UserId>)
    requires from <= |users|
    ensures r.None? <==> forall i :: from <= i < |users| ==> users[i].email != email
    ensures r.Some? ==> from <= r.value < |users| && users[r.value].email == email
    ensures r.Some? ==> forall i :: from <= i < r.value ==> users[i].email != email
    decreases |users| - from
  {
    if from == |users| then None
    else if users[from].email == email then Some(from)
    else FindByEmailFrom(users, email, from + 1)
  }

  /** With unique emails the lookup finds the one row carrying the email. */
  lemma FindByEmailUnique(users: seq<User>, email: string, id: UserId)
    requires EmailsUnique(users)
    requires id < |users| && users[id].email == email
    ensures FindByEmail(users, email) == Some(id)
  {
  }

  /** `VerificationTokenRepository.findByToken`. */
  function FindByToken(tokens: map<string, VerificationToken>, token: string): (r: Option<VerificationToken>)
    ensures r.Some? <==> token in tokens
    ensures r.Some? ==> r.value == tokens[token]
  {
    if token in tokens then Some(tokens[token]) else None
  }

  /** `VerificationTokenRepository.deleteByUser`: drop every token the user owns. */
  function DeleteByUser(tokens: map<string, VerificationToken>, id: UserId): (r: map<string, VerificationToken>)
    ensures forall t :: t in r <==> t in tokens && tokens[t].owner != id
    ensures forall t :: t in r ==> r[t] == tokens[t]
  {
    map t | t in tokens && tokens[t].owner != id :: tokens[t]
  }
}
