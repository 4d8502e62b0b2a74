/** How documents of Backend/models/Learner.js and Backend/models/Tutor.js
    are built and found from a user id. Both schemas name the owning user
    `user_id` (required and unique). The session handlers and the two
    profile controllers build and filter on `user` instead, a path neither
    schema declares. Strict mode, on by default, drops an undeclared path
    when a document is built, so no stored document carries `user`. With
    strictQuery off, the default from Mongoose 7 on and not changed by
    Backend/server.js, a filter on `user` reaches the store as written and
    matches nothing. */
module OwnerLookup {
  import opened Common

  /** A learner or tutor document: its `_id` and its two owner paths. */
  datatype Doc = Doc(id: Id, userId: Option<Id>, user: Option<Id>)

  /** `new Model({ user_id, user, ... })` under strict mode: the declared
      `user_id` is kept and the undeclared `user` is dropped. */
  function Build(id: Id, userIdPath: Option<Id>, userPath: Option<Id>): (d: Doc)
    ensures d.id == id && d.userId == userIdPath
    ensures d.user.None?
  {
    Doc(id, userIdPath, None)
  }

  /** The schemas' `required: true` on `user_id`. */
  predicate OwnerValid(d: Doc) {
    d.userId.Some?
  }

  /** Every document in the collection was built and validated as above. */
  predicate Stored(ds: seq<Doc>) {
    forall i :: 0 <= i < |ds| ==> ds[i].user.None? && OwnerValid(ds[i])
  }

  /** `Model.findOne(filter)`: the first document the filter accepts. */
  function FindOne(ds: seq<Doc>, accepts: Doc -> bool): (r: Option<Doc>)
    ensures r.None? <==> forall i :: 0 <= i < |ds| ==> !accepts(ds[i])
    ensures r.Some? ==> r.value in ds && accepts(r.value)
  {
    if ds == [] then None
    else if accepts(ds[0]) then Some(ds[0])
    else FindOne(ds[1..], accepts)
  }

  /** `findOne({ user: u })`, as the handlers write it. */
  function ByUser(ds: seq<Doc>, u: Id): Option<Doc> {
    FindOne(ds, (d: Doc) => d.user == Some(u))
  }

  /** `findOne({ user_id: u })`, on the path the schemas declare. */
  function ByUserId(ds: seq<Doc>, u: Id): Option<Doc> {
    FindOne(ds, (d: Doc) => d.userId == Some(u))
  }

  /** The lookup as written finds no stored document, whoever asks. */
  lemma ByUserFindsNothing(ds: seq<Doc>, u: Id)
    requires Stored(ds)
    ensures ByUser(ds, u).None?
  {
  }

  /** The lookup by `user_id` finds a document of `u` whenever one is stored,
      and only a document of `u`. */
  lemma ByUserIdFindsOwner(ds: seq<Doc>, u: Id, i: nat)
    requires i < |ds| && ds[i].userId == Some(u)
    ensures ByUserId(ds, u).Some? && ByUserId(ds, u).value.userId == Some(u)
  {
  }

  /** A document built with `user` and no `user_id` fails validation. */
  lemma BuiltWithUserIsInvalid(id: Id, u: Id)
    ensures !OwnerValid(Build(id, None, Some(u)))
  {
  }

  /** The owner index a lookup of `u` yields, in the form the handlers read
      it: the found document's id under `u`, and nothing else. */
  function Index(found: Option<Doc>, u: Id): (m: map<Id, Id>)
    ensures u in m <==> found.Some?
    ensures found.Some? ==> m[u] == found.value.id
    ensures forall k :: k in m ==> k == u
  {
    if found.Some? then map[u := found.value.id] else map[]
  }
}
