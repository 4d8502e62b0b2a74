/** Frontend/src/pages/Learner/DiscoverSessions.jsx: the case-insensitive
    search over the session cards, the split into sessions matching the
    learner's interest and the rest, the time shown and sent, and the list
    of registered session ids the page keeps in step with its register and
    unregister calls. The HTTP calls are parameters: each handler receives
    whether its request succeeded. */
module DiscoverSessions {
  import opened Common
  import opened Text
  import opened Records
  import opened RegistrationLedger

  /** A session card as the discover endpoint delivers it; `tutorName` is
      `tutor.user.name`, absent when any link of that chain is. */
  datatype Card = Card(sessionId: Id, topic: string, sessionDate: Option<string>, sessionTime: string,
                       tutorName: Option<string>)

  /** The search predicate: the query occurs in the topic or in the tutor's
      name (empty when missing), ignoring case. */
  predicate MatchesQuery(c: Card, query: string) {
    Contains(Lower(c.topic), Lower(query)) || Contains(Lower(c.tutorName.GetOr("")), Lower(query))
  }

  /** The interest predicate; an empty interest matches nothing. */
  predicate MatchesInterest(c: Card, interest: string) {
    interest != "" && Contains(Lower(c.topic), interest)
  }

  /** `filteredSessions`. */
  function Filtered(sessions: seq<Card>, query: string): (r: seq<Card>)
    ensures SubseqOf(r, sessions)
    ensures forall c :: c in r <==> c in sessions && MatchesQuery(c, query)
  {
    Filter(sessions, c => MatchesQuery(c, query))
  }

  /** `interestSessions`. */
  function InterestSessions(filtered: seq<Card>, interest: string): (r: seq<Card>)
    ensures SubseqOf(r, filtered)
    ensures forall c :: c in r <==> c in filtered && MatchesInterest(c, interest)
    ensures interest == "" ==> r == []
  {
    var r := Filter(filtered, c => MatchesInterest(c, interest));
    assert r != [] ==> r[0] in r;
    r
  }

  /** `otherSessions`: the filtered cards not among the interest ones. */
  function OtherSessions(filtered: seq<Card>, interest: string): (r: seq<Card>)
    ensures SubseqOf(r, filtered)
    ensures forall c :: c in r <==> c in filtered && c !in InterestSessions(filtered, interest)
  {
    var inInterest := InterestSessions(filtered, interest);
    Filter(filtered, c => c !in inInterest)
  }

  /** Filtering keeps everything when every element passes. */
  lemma {:induction false} FilterKeepsAll<T(!new)>(s: seq<T>, keep: T -> bool)
    requires forall x :: x in s ==> keep(x)
    ensures Filter(s, keep) == s
  {
    if s != [] {
      assert s == [s[0]] + s[1..];
      FilterKeepsAll(s[1..], keep);
    }
  }

  /** Filtering by two predicates that agree on the elements gives the same result. */
  lemma {:induction false} FilterAgree<T(!new)>(s: seq<T>, p: T -> bool, q: T -> bool)
    requires forall x :: x in s ==> p(x) == q(x)
    ensures Filter(s, p) == Filter(s, q)
  {
    if s != [] {
      assert s == [s[0]] + s[1..];
      FilterAgree(s[1..], p, q);
    }
  }

  /** A predicate and its negation split a sequence's elements between them. */
  lemma {:induction false} FilterSplits<T(!new)>(s: seq<T>, p: T -> bool, q: T -> bool)
    requires forall x :: q(x) == !p(x)
    ensures multiset(Filter(s, p)) + multiset(Filter(s, q)) == multiset(s)
  {
    if s != [] {
      assert s == [s[0]] + s[1..];
      FilterSplits(s[1..], p, q);
    }
  }

  /** An empty query keeps every card, in order. */
  lemma EmptyQueryKeepsAll(sessions: seq<Card>)
    ensures Filtered(sessions, "") == sessions
  {
    forall c | c in sessions ensures MatchesQuery(c, "") {
      ContainsEmpty(Lower(c.topic));
    }
    FilterKeepsAll(sessions, c => MatchesQuery(c, ""));
  }

  /** `otherSessions` is the filtered list with the interest test negated. */
  lemma OtherIsComplement(filtered: seq<Card>, interest: string)
    ensures OtherSessions(filtered, interest) == Filter(filtered, c => !MatchesInterest(c, interest))
  {
    var inInterest := InterestSessions(filtered, interest);
    FilterAgree(filtered, c => c !in inInterest, c => !MatchesInterest(c, interest));
  }

  /** The two lists partition the filtered cards: every card lands in
      exactly one of them, as often as it occurs, and each keeps the
      filtered order. */
  lemma Partition(filtered: seq<Card>, interest: string)
    ensures var i := InterestSessions(filtered, interest);
            var o := OtherSessions(filtered, interest);
            && multiset(i) + multiset(o) == multiset(filtered)
            && (forall c :: !(c in i && c in o))
            && SubseqOf(i, filtered) && SubseqOf(o, filtered)
  {
    OtherIsComplement(filtered, interest);
    FilterSplits(filtered, c => MatchesInterest(c, interest), c => !MatchesInterest(c, interest));
  }

  /** `learnerRes.data.interest?.toLowerCase() || ""`. */
  function InterestOf(interest: Option<string>): (r: string)
    ensures NoUpper(r)
    ensures interest.None? ==> r == ""
    ensures interest.Some? ==> r == Lower(interest.value)
  {
    match interest
    case None => ""
    case Some(s) => Lower(s)
  }

  /** `sessionTime.split(".")[0]`. */
  function TrimmedTime(c: Card): (t: string)
    ensures t <= c.sessionTime && '.' !in t
    ensures |t| < |c.sessionTime| ==> c.sessionTime[|t|] == '.'
    ensures '.' !in c.sessionTime ==> t == c.sessionTime
  {
    BeforeFirstDot(c.sessionTime)
  }

  /** The record the register and unregister calls send for a card. */
  function Payload(learnerId: Id, c: Card): (r: Registration)
    ensures r.sessionId == c.sessionId && r.learnerId == learnerId && r.sessionDate == c.sessionDate
    ensures r.sessionTime == Some(TrimmedTime(c))
  {
    Registration(c.sessionId, learnerId, c.sessionDate, Some(TrimmedTime(c)))
  }

  /** The ids the page believes registered, after a register call. */
  function AfterRegister(ids: seq<Id>, id: Id, succeeded: bool): (r: seq<Id>)
    ensures succeeded ==> id in r && ids <= r && |r| == |ids| + 1 && r[|ids|] == id
    ensures !succeeded ==> r == ids
  {
    if succeeded then ids + [id] else ids
  }

  /** The ids the page believes registered, after an unregister call. */
  function AfterUnregister(ids: seq<Id>, id: Id, succeeded: bool): (r: seq<Id>)
    ensures succeeded ==> id !in r && SubseqOf(r, ids)
    ensures succeeded ==> forall x :: x != id ==> (x in r <==> x in ids)
    ensures succeeded ==> forall x :: x != id ==> multiset(r)[x] == multiset(ids)[x]
    ensures !succeeded ==> r == ids
  {
    if succeeded then RemoveAll(ids, id) else ids
  }

  /** The button a card shows. */
  datatype Button = RegisterButton | UnregisterButton

  function CardButton(ids: seq<Id>, c: Card): (b: Button)
    ensures b == UnregisterButton <==> c.sessionId in ids
  {
    if c.sessionId in ids then UnregisterButton else RegisterButton
  }

  /** A successful register turns the card's button to Unregister, and a
      successful unregister turns it back. */
  lemma ButtonFollowsCalls(ids: seq<Id>, c: Card)
    ensures CardButton(AfterRegister(ids, c.sessionId, true), c) == UnregisterButton
    ensures CardButton(AfterUnregister(ids, c.sessionId, true), c) == RegisterButton
  {
  }

  /** The page's ids agree with the registration ledger for this learner. */
  ghost predicate Mirrors(ids: seq<Id>, ledger: Ledger, learnerId: Id) {
    forall id :: id in ids <==> FindPair(ledger, learnerId, id).Some?
  }

  /** A pair can be found in a ledger exactly when some record matches it. */
  lemma FoundIff(ledger: Ledger, learnerId: Id, sessionId: Id)
    ensures FindPair(ledger, learnerId, sessionId).Some? <==>
            exists i :: 0 <= i < |ledger| && Matches(ledger[i], learnerId, sessionId)
  {
  }

  /** When the register endpoint answers as registerSession does, a click on
      Register keeps the page's ids in agreement with the ledger. */
  lemma RegisterClickKeepsMirror(ids: seq<Id>, ledger: Ledger, learnerId: Id, c: Card)
    requires Mirrors(ids, ledger, learnerId)
    ensures var p := Payload(learnerId, c);
            var step := Register(ledger, learnerId, p.sessionId, p.sessionDate, p.sessionTime);
            Mirrors(AfterRegister(ids, c.sessionId, step.response.Ok?), step.state, learnerId)
  {
    var p := Payload(learnerId, c);
    var step := Register(ledger, learnerId, p.sessionId, p.sessionDate, p.sessionTime);
    var ids' := AfterRegister(ids, c.sessionId, step.response.Ok?);
    if step.response.Ok? {
      var l' := step.state;
      forall id ensures id in ids' <==> FindPair(l', learnerId, id).Some? {
        FoundIff(ledger, learnerId, id);
        FoundIff(l', learnerId, id);
        if FindPair(ledger, learnerId, id).Some? {
          var i :| 0 <= i < |ledger| && Matches(ledger[i], learnerId, id);
          assert l'[i] == ledger[i];
        }
        if FindPair(l', learnerId, id).Some? {
          var i :| 0 <= i < |l'| && Matches(l'[i], learnerId, id);
          if i < |ledger| {
            assert l'[i] == ledger[i];
          }
        }
        if id == c.sessionId {
          assert Matches(l'[|ledger|], learnerId, id);
        }
      }
    }
  }

  /** Deleting the record of one pair leaves every other session of the
      learner findable exactly as before. */
  lemma UnregisterKeepsOthers(ledger: Ledger, learnerId: Id, sessionId: Id, other: Id)
    requires other != sessionId
    ensures FindPair(Unregister(ledger, learnerId, sessionId).state, learnerId, other).Some?
            <==> FindPair(ledger, learnerId, other).Some?
  {
    var l' := Unregister(ledger, learnerId, sessionId).state;
    match FindPair(ledger, learnerId, sessionId)
    case None =>
    case Some(k) =>
      assert l' == ledger[..k] + ledger[k + 1..];
      match FindPair(ledger, learnerId, other) {
        case Some(i) =>
          assert i != k;
          var j := if i < k then i else i - 1;
          assert l'[j] == ledger[i];
        case None =>
      }
      match FindPair(l', learnerId, other) {
        case Some(j) =>
          var i := if j < k then j else j + 1;
          assert ledger[i] == l'[j];
        case None =>
      }
  }

  /** When the unregister endpoint answers as unregisterSession does and the
      ledger holds each pair at most once, a click on Unregister keeps the
      page's ids in agreement with the ledger. */
  lemma UnregisterClickKeepsMirror(ids: seq<Id>, ledger: Ledger, learnerId: Id, c: Card)
    requires Mirrors(ids, ledger, learnerId) && PairsUnique(ledger)
    ensures var step := Unregister(ledger, learnerId, c.sessionId);
            Mirrors(AfterUnregister(ids, c.sessionId, step.response.Ok?), step.state, learnerId)
  {
    var step := Unregister(ledger, learnerId, c.sessionId);
    if step.response.Ok? {
      UnregisterClearsPair(ledger, learnerId, c.sessionId);
      forall id | id != c.sessionId
        ensures FindPair(step.state, learnerId, id).Some? <==> FindPair(ledger, learnerId, id).Some?
      {
        UnregisterKeepsOthers(ledger, learnerId, c.sessionId, id);
      }
    }
  }
}
