/** What the two user-account handlers share: the user collection keyed by
    ObjectId, the unique `gmail` index of models/User.js, the schema's
    required fields and role enum checked on save, and bcrypt as an opaque
    hash/verify pair. */
module Accounts {
  import opened Common
  import opened Records

  type Users = map<Id, User>

  /** bcrypt as the handlers use it: `hash` stands for `bcrypt.hash(p, 10)`
      with its salt fixed, `verify(p, stored)` for `bcrypt.compare`. */
  datatype Hasher = Hasher(hash: string -> string, verify: (string, string) -> bool)

  /** What the handlers rely on: a password verifies against its own hash,
      and a hash is never empty (a bcrypt hash has 60 characters). */
  ghost predicate Sound(h: Hasher) {
    forall p :: h.verify(p, h.hash(p)) && h.hash(p) != ""
  }

  /** Some stored user has this gmail. */
  predicate GmailTaken(users: Users, gmail: string) {
    exists k :: k in users && users[k].gmail == gmail
  }

  /** The unique index on `gmail`: no two users share one. */
  predicate GmailsUnique(users: Users) {
    forall a, b :: a in users && b in users && users[a].gmail == users[b].gmail ==> a == b
  }

  /** `User.findOne({ gmail })` under the unique index: the one owner, if any. */
  function OwnerOf(users: Users, gmail: string): (r: Option<Id>)
    requires GmailsUnique(users)
    ensures r.None? <==> !GmailTaken(users, gmail)
    ensures r.Some? ==> r.value in users && users[r.value].gmail == gmail
    ensures r.Some? ==> forall k :: k in users && users[k].gmail == gmail ==> k == r.value
  {
    if GmailTaken(users, gmail) then
      var k :| k in users && users[k].gmail == gmail;
      Some(k)
    else None
  }

  /** The checks `save()` runs for models/User.js: the required strings are
      non-empty, the age is present and the role is one of the enum's. */
  predicate SchemaValid(u: User) {
    && u.name != "" && u.gmail != "" && u.password != ""
    && u.age.Some?
    && (u.role == "learner" || u.role == "tutor")
  }

  /** The head of the message a failed `save()` validation reports. */
  const ValidationFailed := "User validation failed"

  /** Saving a new user under a fresh id: refused when the schema check
      fails, otherwise the user is stored and nothing else changes. */
  function Save(users: Users, newId: Id, u: User): (r: Step<User, Users>)
    requires newId !in users
    ensures !SchemaValid(u) <==> r == Step(Err(500, ValidationFailed), users)
    ensures SchemaValid(u) <==> r == Step(Ok(201, u), users[newId := u])
  {
    if SchemaValid(u) then Step(Ok(201, u), users[newId := u])
    else Step(Err(500, ValidationFailed), users)
  }

  /** Adding a user whose gmail is new keeps gmails unique. */
  lemma AddKeepsGmailsUnique(users: Users, newId: Id, u: User)
    requires newId !in users && !GmailTaken(users, u.gmail)
    ensures GmailsUnique(users) ==> GmailsUnique(users[newId := u])
  {
  }
}
