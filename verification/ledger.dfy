/** Backend/controllers/registrationController.js: the Registration
    collection as a ledger in the store's natural order. `findOne` returns
    the first matching record; the controller keeps at most one record per
    (learner, session) pair by checking before it inserts. */
module RegistrationLedger {
  import opened Common
  import opened Records

  type Ledger = seq<Registration>

  predicate Matches(r: Registration, learnerId: Id, sessionId: Id) {
    r.learnerId == learnerId && r.sessionId == sessionId
  }

  /** `Registration.findOne({ learnerId, sessionId })`: the position of the
      first matching record. */
  function FindPair(ledger: Ledger, learnerId: Id, sessionId: Id): (r: Option<nat>)
    ensures r.None? <==> forall i :: 0 <= i < |ledger| ==> !Matches(ledger[i], learnerId, sessionId)
    ensures r.Some? ==> r.value < |ledger| && Matches(ledger[r.value], learnerId, sessionId)
    ensures r.Some? ==> forall i :: 0 <= i < r.value ==> !Matches(ledger[i], learnerId, sessionId)
  {
    if ledger == [] then None
    else if Matches(ledger[0], learnerId, sessionId) then Some(0)
    else match FindPair(ledger[1..], learnerId, sessionId)
      case None => None
      case Some(k) => Some(k + 1)
  }

  /** At most one record per (learner, session) pair. */
  predicate PairsUnique(ledger: Ledger) {
    forall i, j :: 0 <= i < j < |ledger| ==>
      !(ledger[i].learnerId == ledger[j].learnerId && ledger[i].sessionId == ledger[j].sessionId)
  }

  /** registerSession: a conflict when the pair is already recorded,
      otherwise a new record carrying the four given fields. */
  function Register(ledger: Ledger, learnerId: Id, sessionId: Id, sessionDate: Option<string>,
                    sessionTime: Option<string>): (r: Step<string, Ledger>)
    ensures FindPair(ledger, learnerId, sessionId).Some? ==>
      r == Step(Err(409, "Already registered for this session."), ledger)
    ensures FindPair(ledger, learnerId, sessionId).None? ==>
      && r.response == Ok(200, "Session registered successfully")
      && r.state == ledger + [Registration(sessionId, learnerId, sessionDate, sessionTime)]
  {
    if FindPair(ledger, learnerId, sessionId).Some? then
      Step(Err(409, "Already registered for this session."), ledger)
    else
      Step(Ok(200, "Session registered successfully"),
           ledger + [Registration(sessionId, learnerId, sessionDate, sessionTime)])
  }

  /** unregisterSession: not found when the pair is not recorded, otherwise
      the first matching record is deleted and the rest kept in order. */
  function Unregister(ledger: Ledger, learnerId: Id, sessionId: Id): (r: Step<string, Ledger>)
    ensures FindPair(ledger, learnerId, sessionId).None? ==>
      r == Step(Err(404, "No registration found to delete."), ledger)
    ensures FindPair(ledger, learnerId, sessionId).Some? ==>
      var k := FindPair(ledger, learnerId, sessionId).value;
      && r.response == Ok(200, "Registration deleted successfully")
      && |r.state| == |ledger| - 1
      && r.state == ledger[..k] + ledger[k + 1..]
      && multiset(r.state) + multiset{ledger[k]} == multiset(ledger)
  {
    match FindPair(ledger, learnerId, sessionId)
    case None => Step(Err(404, "No registration found to delete."), ledger)
    case Some(k) =>
      assert ledger == ledger[..k] + [ledger[k]] + ledger[k + 1..];
      Step(Ok(200, "Registration deleted successfully"), ledger[..k] + ledger[k + 1..])
  }

  /** Register never creates a second record for a pair. */
  lemma RegisterKeepsPairsUnique(ledger: Ledger, learnerId: Id, sessionId: Id,
                                 sessionDate: Option<string>, sessionTime: Option<string>)
    requires PairsUnique(ledger)
    ensures PairsUnique(Register(ledger, learnerId, sessionId, sessionDate, sessionTime).state)
  {
    var r := Register(ledger, learnerId, sessionId, sessionDate, sessionTime);
    if FindPair(ledger, learnerId, sessionId).None? {
      var l' := r.state;
      forall i, j | 0 <= i < j < |l'|
        ensures !(l'[i].learnerId == l'[j].learnerId && l'[i].sessionId == l'[j].sessionId)
      {
        if j == |ledger| {
          assert !Matches(ledger[i], learnerId, sessionId);
        } else {
          assert l'[i] == ledger[i] && l'[j] == ledger[j];
        }
      }
    }
  }

  /** Unregister keeps the pair invariant, and with it in force no record
      of the pair survives the deletion. */
  lemma UnregisterClearsPair(ledger: Ledger, learnerId: Id, sessionId: Id)
    requires PairsUnique(ledger)
    ensures var after := Unregister(ledger, learnerId, sessionId).state;
            PairsUnique(after) && FindPair(after, learnerId, sessionId).None?
  {
    var after := Unregister(ledger, learnerId, sessionId).state;
    match FindPair(ledger, learnerId, sessionId)
    case None =>
    case Some(k) =>
      assert forall i :: 0 <= i < |after| ==> after[i] == (if i < k then ledger[i] else ledger[i + 1]);
      forall i | 0 <= i < |after| ensures !Matches(after[i], learnerId, sessionId) {
        if i >= k {
          assert after[i] == ledger[i + 1];
        }
      }
      forall i, j | 0 <= i < j < |after|
        ensures !(after[i].learnerId == after[j].learnerId && after[i].sessionId == after[j].sessionId)
      {
        var i0 := if i < k then i else i + 1;
        var j0 := if j < k then j else j + 1;
        assert after[i] == ledger[i0] && after[j] == ledger[j0];
      }
  }

  /** Registering a new pair and then unregistering it restores the ledger. */
  lemma RegisterUnregisterRoundTrip(ledger: Ledger, learnerId: Id, sessionId: Id,
                                    sessionDate: Option<string>, sessionTime: Option<string>)
    requires FindPair(ledger, learnerId, sessionId).None?
    ensures var mid := Register(ledger, learnerId, sessionId, sessionDate, sessionTime);
            && mid.response.Ok?
            && Unregister(mid.state, learnerId, sessionId) == Step(Ok(200, "Registration deleted successfully"), ledger)
  {
    var mid := Register(ledger, learnerId, sessionId, sessionDate, sessionTime).state;
    assert FindPair(mid, learnerId, sessionId) == Some(|ledger|) by {
      assert Matches(mid[|ledger|], learnerId, sessionId);
      assert forall i :: 0 <= i < |ledger| ==> mid[i] == ledger[i];
    }
    assert mid[..|ledger|] + mid[|ledger| + 1..] == ledger;
  }

  /** A second registration of the same pair is refused and changes nothing. */
  lemma RegisterTwiceConflicts(ledger: Ledger, learnerId: Id, sessionId: Id,
                               sessionDate: Option<string>, sessionTime: Option<string>)
    ensures var mid := Register(ledger, learnerId, sessionId, sessionDate, sessionTime).state;
            Register(mid, learnerId, sessionId, sessionDate, sessionTime)
              == Step(Err(409, "Already registered for this session."), mid)
  {
    var mid := Register(ledger, learnerId, sessionId, sessionDate, sessionTime).state;
    if FindPair(ledger, learnerId, sessionId).None? {
      assert Matches(mid[|ledger|], learnerId, sessionId);
    }
  }
}
