/** Backend/controllers/sessionController.js: creating sessions, listing
    them by date, the embedded learner list with set semantics, and the
    meeting lifecycle Upcoming -> Ongoing -> Completed. Every handler is
    one atomic transition of `Db`. */
module SessionLifecycle {
  import opened Common
  import opened Text
  import opened Records
  import opened OwnerLookup

  /** The collections the controller touches: which tutor documents exist,
      the learner profile id owned by each user, and the sessions by id.
      `learnerOfUser` is the lookup on the schema's `user_id`; the handlers
      as written filter on `user` (see RegisterLearnerAsWritten). */
  datatype Db = Db(tutors: set<Id>, learnerOfUser: map<Id, Id>, sessions: map<Id, Session>)

  /** Every session's learner list holds each learner at most once. */
  predicate LearnersAreSets(db: Db) {
    forall k :: k in db.sessions ==> NoDups(db.sessions[k].learners)
  }

  // ----------------------------------------------------------------------
  // Creation

  /** createSession. `newId` is the ObjectId the store assigns. */
  function CreateSession(db: Db, newId: Id, tutorId: Id, title: string, description: Option<string>,
                         date: int, time: string): (r: Step<Session, Db>)
    requires newId !in db.sessions
    ensures tutorId !in db.tutors ==> r == Step(Err(400, "Invalid tutor"), db)
    ensures tutorId in db.tutors ==>
      && r.response == Ok(201, NewSession(tutorId, title, description, date, time))
      && r.state.tutors == db.tutors && r.state.learnerOfUser == db.learnerOfUser
      && r.state.sessions.Keys == db.sessions.Keys + {newId}
      && r.state.sessions[newId] == r.response.body
      && (forall k :: k in db.sessions ==> r.state.sessions[k] == db.sessions[k])
    ensures r.response.Ok? ==>
      var s := r.response.body;
      && s.tutor == tutorId && s.date == date && s.time == time && s.title == Trim(title)
      && s.status == Upcoming && s.learners == [] && s.meetingLink.None?
  {
    if tutorId !in db.tutors then Step(Err(400, "Invalid tutor"), db)
    else
      var s := NewSession(tutorId, title, description, date, time);
      Step(Ok(201, s), db.(sessions := db.sessions[newId := s]))
  }

  // ----------------------------------------------------------------------
  // Learner membership

  /** registerLearner: the session must exist, then the learner profile of
      user `userId`; the learner's profile id is appended only when absent. */
  function RegisterLearner(db: Db, sessionId: Id, userId: Id): (r: Step<Session, Db>)
    ensures sessionId !in db.sessions ==> r == Step(Err(404, "Session not found"), db)
    ensures sessionId in db.sessions && userId !in db.learnerOfUser ==>
      r == Step(Err(404, "Learner not found"), db)
    ensures sessionId in db.sessions && userId in db.learnerOfUser ==>
      var old_ := db.sessions[sessionId];
      var lid := db.learnerOfUser[userId];
      && r.response.Ok? && r.response.status == 200
      && r.state.tutors == db.tutors && r.state.learnerOfUser == db.learnerOfUser
      && r.state.sessions.Keys == db.sessions.Keys
      && r.state.sessions[sessionId] == r.response.body
      && r.response.body == old_.(learners := r.response.body.learners)
      && lid in r.response.body.learners
      && |r.response.body.learners| <= |old_.learners| + 1
      && old_.learners <= r.response.body.learners
      && (lid in old_.learners ==> r.state == db)
      && (forall k :: k in db.sessions && k != sessionId ==> r.state.sessions[k] == db.sessions[k])
  {
    if sessionId !in db.sessions then Step(Err(404, "Session not found"), db)
    else if userId !in db.learnerOfUser then Step(Err(404, "Learner not found"), db)
    else
      var s := db.sessions[sessionId];
      var lid := db.learnerOfUser[userId];
      var s' := s.(learners := AddOnce(s.learners, lid));
      Step(Ok(200, s'), db.(sessions := db.sessions[sessionId := s']))
  }

  /** unregisterLearner: both the session and the learner profile must
      exist; then every occurrence of the learner is dropped. */
  function UnregisterLearner(db: Db, sessionId: Id, userId: Id): (r: Step<Session, Db>)
    ensures sessionId !in db.sessions || userId !in db.learnerOfUser ==>
      r == Step(Err(404, "Session or learner not found"), db)
    ensures sessionId in db.sessions && userId in db.learnerOfUser ==> r.response.Ok?
    ensures sessionId in db.sessions && userId in db.learnerOfUser && r.response.Ok? ==>
      var old_ := db.sessions[sessionId];
      var lid := db.learnerOfUser[userId];
      var now_ := r.response.body.learners;
      && r.response.status == 200
      && r.state.tutors == db.tutors && r.state.learnerOfUser == db.learnerOfUser
      && r.state.sessions.Keys == db.sessions.Keys
      && r.state.sessions[sessionId] == r.response.body
      && r.response.body == old_.(learners := now_)
      && lid !in now_
      && SubseqOf(now_, old_.learners)
      && (forall x :: x != lid ==> multiset(now_)[x] == multiset(old_.learners)[x])
      && (lid !in old_.learners ==> r.state == db)
      && (forall k :: k in db.sessions && k != sessionId ==> r.state.sessions[k] == db.sessions[k])
  {
    if sessionId !in db.sessions || userId !in db.learnerOfUser then
      Step(Err(404, "Session or learner not found"), db)
    else
      var s := db.sessions[sessionId];
      var s' := s.(learners := RemoveAll(s.learners, db.learnerOfUser[userId]));
      Step(Ok(200, s'), db.(sessions := db.sessions[sessionId := s']))
  }

  /** Registering twice is registering once. */
  lemma RegisterIdempotent(db: Db, sessionId: Id, userId: Id)
    ensures var once := RegisterLearner(db, sessionId, userId);
            RegisterLearner(once.state, sessionId, userId) == once
  {
    var once := RegisterLearner(db, sessionId, userId);
    if sessionId in db.sessions && userId in db.learnerOfUser {
      assert once.state.sessions[sessionId] == once.response.body;
      assert once.state.sessions[sessionId := once.response.body] == once.state.sessions;
    }
  }

  /** Registering a learner who was not on the list and then unregistering
      them restores the store. */
  lemma RegisterUnregisterRoundTrip(db: Db, sessionId: Id, userId: Id)
    requires sessionId in db.sessions && userId in db.learnerOfUser
    requires db.learnerOfUser[userId] !in db.sessions[sessionId].learners
    ensures UnregisterLearner(RegisterLearner(db, sessionId, userId).state, sessionId, userId).state == db
  {
    var s := db.sessions[sessionId];
    var lid := db.learnerOfUser[userId];
    RemoveAllAppended(s.learners, lid);
    var after := UnregisterLearner(RegisterLearner(db, sessionId, userId).state, sessionId, userId).state;
    assert after.sessions[sessionId] == s;
    assert after.sessions == db.sessions;
  }

  /** registerLearner as written: the learner comes from
      `findOne({ user: learnerId })` over the stored learner documents `ls`. */
  function RegisterLearnerAsWritten(db: Db, ls: seq<Doc>, sessionId: Id, userId: Id): (r: Step<Session, Db>)
  {
    RegisterLearner(db.(learnerOfUser := Index(ByUser(ls, userId), userId)), sessionId, userId)
  }

  /** As written, registering for an existing session always answers
      "Learner not found" and changes no session. */
  lemma RegisterLearnerAsWrittenNotFound(db: Db, ls: seq<Doc>, sessionId: Id, userId: Id)
    requires Stored(ls) && sessionId in db.sessions
    ensures var r := RegisterLearnerAsWritten(db, ls, sessionId, userId);
            r.response == Err(404, "Learner not found") && r.state.sessions == db.sessions
  {
    ByUserFindsNothing(ls, userId);
  }

  /** unregisterLearner as written, with the same lookup. */
  function UnregisterLearnerAsWritten(db: Db, ls: seq<Doc>, sessionId: Id, userId: Id): (r: Step<Session, Db>)
  {
    UnregisterLearner(db.(learnerOfUser := Index(ByUser(ls, userId), userId)), sessionId, userId)
  }

  /** As written, every unregistration answers the combined 404. */
  lemma UnregisterLearnerAsWrittenNotFound(db: Db, ls: seq<Doc>, sessionId: Id, userId: Id)
    requires Stored(ls)
    ensures var r := UnregisterLearnerAsWritten(db, ls, sessionId, userId);
            r.response == Err(404, "Session or learner not found") && r.state.sessions == db.sessions
  {
    ByUserFindsNothing(ls, userId);
  }

  /** With the lookup on `user_id`, a user who has a stored learner document
      is registered: that document's id joins the session's list. */
  lemma RegisterByUserIdSucceeds(db: Db, ls: seq<Doc>, sessionId: Id, userId: Id, i: nat)
    requires sessionId in db.sessions && i < |ls| && ls[i].userId == Some(userId)
    ensures var found := ByUserId(ls, userId);
            var r := RegisterLearner(db.(learnerOfUser := Index(found, userId)), sessionId, userId);
            && found.Some? && found.value.userId == Some(userId)
            && r.response.Ok? && found.value.id in r.response.body.learners
  {
    ByUserIdFindsOwner(ls, userId, i);
  }

  // ----------------------------------------------------------------------
  // Listing

  /** The session filters of getAllSessions, getTutorSessions and
      getLearnerSessions (`find({})`, `find({ tutor })`, `find({ learners })`). */
  datatype Query = AllSessions | OfTutor(tutor: Id) | WithLearner(learner: Id)

  predicate Selects(q: Query, s: Session) {
    match q
    case AllSessions => true
    case OfTutor(t) => s.tutor == t
    case WithLearner(l) => l in s.learners
  }

  /** `sort({ date: 1 })`. */
  predicate SortedByDate(r: seq<(Id, Session)>) {
    forall i, j :: 0 <= i < j < |r| ==> r[i].1.date <= r[j].1.date
  }

  predicate DistinctIds(r: seq<(Id, Session)>) {
    forall i, j :: 0 <= i < j < |r| ==> r[i].0 != r[j].0
  }

  /** `r` answers `q` over `sessions`: exactly the selected sessions, each
      once, ascending by date. */
  predicate Listing(sessions: map<Id, Session>, q: Query, r: seq<(Id, Session)>) {
    && (forall e :: e in r ==> e.0 in sessions && sessions[e.0] == e.1 && Selects(q, e.1))
    && (forall k :: k in sessions && Selects(q, sessions[k]) ==> (k, sessions[k]) in r)
    && DistinctIds(r)
    && SortedByDate(r)
  }

  /** Where an entry dated `d` goes in a date-sorted list: after every
      entry dated no later than `d`. */
  function InsertPos(r: seq<(Id, Session)>, d: int): (p: nat)
    requires SortedByDate(r)
    ensures p <= |r|
    ensures forall i :: 0 <= i < p ==> r[i].1.date <= d
    ensures forall i :: p <= i < |r| ==> r[i].1.date > d
  {
    if r == [] || r[|r| - 1].1.date <= d then |r|
    else InsertPos(r[..|r| - 1], d)
  }

  /** The entries of `r` with `x` placed at position `p`. */
  function InsertAt(r: seq<(Id, Session)>, x: (Id, Session), p: nat): (r': seq<(Id, Session)>)
    requires p <= |r|
    ensures |r'| == |r| + 1
    ensures forall i :: 0 <= i < p ==> r'[i] == r[i]
    ensures r'[p] == x
    ensures forall i :: p < i < |r'| ==> r'[i] == r[i - 1]
    ensures multiset(r') == multiset(r) + multiset{x}
  {
    assert r == r[..p] + r[p..];
    r[..p] + [x] + r[p..]
  }

  /** Inserting at `InsertPos` keeps the list sorted and, for a new id,
      free of repeated ids. */
  lemma InsertKeepsListing(r: seq<(Id, Session)>, x: (Id, Session), p: nat)
    requires SortedByDate(r) && DistinctIds(r)
    requires p <= |r|
    requires forall i :: 0 <= i < p ==> r[i].1.date <= x.1.date
    requires forall i :: p <= i < |r| ==> r[i].1.date > x.1.date
    requires forall e :: e in r ==> e.0 != x.0
    ensures SortedByDate(InsertAt(r, x, p)) && DistinctIds(InsertAt(r, x, p))
  {
    var r' := InsertAt(r, x, p);
    forall i, j | 0 <= i < j < |r'|
      ensures r'[i].1.date <= r'[j].1.date && r'[i].0 != r'[j].0
    {
      var i0 := if i < p then i else i - 1;
      var j0 := if j < p then j else j - 1;
      if i != p && j != p {
        assert r'[i] == r[i0] && r'[j] == r[j0];
      } else if i == p {
        assert r'[j] == r[j0] && r[j0] in r;
      } else {
        assert r'[i] == r[i0] && r[i0] in r;
      }
    }
  }

  /** The query behind every listing handler: walks the session ids in an
      unspecified order and inserts each selected session by date. */
  method Find(sessions: map<Id, Session>, q: Query) returns (r: seq<(Id, Session)>)
    ensures Listing(sessions, q, r)
  {
    r := [];
    var pending := sessions.Keys;
    while pending != {}
      invariant pending <= sessions.Keys
      invariant forall e :: e in r ==> e.0 in sessions && e.0 !in pending && sessions[e.0] == e.1 && Selects(q, e.1)
      invariant forall k :: k in sessions && k !in pending && Selects(q, sessions[k]) ==> (k, sessions[k]) in r
      invariant DistinctIds(r) && SortedByDate(r)
      decreases pending
    {
      var k :| k in pending;
      if Selects(q, sessions[k]) {
        var x := (k, sessions[k]);
        var p := InsertPos(r, x.1.date);
        InsertKeepsListing(r, x, p);
        r := InsertAt(r, x, p);
      }
      pending := pending - {k};
    }
  }

  /** getAllSessions. */
  method GetAllSessions(db: Db) returns (r: Response<seq<(Id, Session)>>)
    ensures r.Ok? && r.status == 200 && Listing(db.sessions, AllSessions, r.body)
  {
    var l := Find(db.sessions, AllSessions);
    r := Ok(200, l);
  }

  /** getTutorSessions. */
  method GetTutorSessions(db: Db, tutorId: Id) returns (r: Response<seq<(Id, Session)>>)
    ensures r.Ok? && r.status == 200 && Listing(db.sessions, OfTutor(tutorId), r.body)
  {
    var l := Find(db.sessions, OfTutor(tutorId));
    r := Ok(200, l);
  }

  /** getLearnerSessions: the sessions whose learner list holds the
      learner profile of user `userId`. */
  method GetLearnerSessions(db: Db, userId: Id) returns (r: Response<seq<(Id, Session)>>)
    ensures userId !in db.learnerOfUser ==> r == Err(404, "Learner not found")
    ensures userId in db.learnerOfUser ==>
      r.Ok? && r.status == 200 && Listing(db.sessions, WithLearner(db.learnerOfUser[userId]), r.body)
  {
    if userId !in db.learnerOfUser {
      return Err(404, "Learner not found");
    }
    var l := Find(db.sessions, WithLearner(db.learnerOfUser[userId]));
    r := Ok(200, l);
  }

  /** getLearnerSessions as written: the lookup on `user` finds no stored
      learner, so the answer is always "Learner not found". */
  method GetLearnerSessionsAsWritten(db: Db, ls: seq<Doc>, userId: Id) returns (r: Response<seq<(Id, Session)>>)
    requires Stored(ls)
    ensures r == Err(404, "Learner not found")
  {
    ByUserFindsNothing(ls, userId);
    r := GetLearnerSessions(db.(learnerOfUser := Index(ByUser(ls, userId), userId)), userId);
  }

  // ----------------------------------------------------------------------
  // Deletion and the meeting lifecycle

  /** deleteSession. */
  function DeleteSession(db: Db, sessionId: Id): (r: Step<string, Db>)
    ensures sessionId !in db.sessions ==> r == Step(Err(404, "Session not found"), db)
    ensures sessionId in db.sessions ==>
      && r.response == Ok(200, "Session deleted successfully")
      && r.state.tutors == db.tutors && r.state.learnerOfUser == db.learnerOfUser
      && r.state.sessions.Keys == db.sessions.Keys - {sessionId}
      && (forall k :: k in r.state.sessions ==> r.state.sessions[k] == db.sessions[k])
  {
    if sessionId !in db.sessions then Step(Err(404, "Session not found"), db)
    else Step(Ok(200, "Session deleted successfully"), db.(sessions := db.sessions - {sessionId}))
  }

  const JitsiBase: string := "https://meet.jit.si/"

  /** The Jitsi link startMeeting issues: the session id and the start time. */
  function MeetingLink(id: Id, now: nat): (link: string)
    ensures JitsiBase + id + "-" <= link
    ensures link[|JitsiBase + id + "-"|..] == DecimalString(now)
  {
    JitsiBase + id + "-" + DecimalString(now)
  }

  /** Two starts of the same session at different times issue different links. */
  lemma MeetingLinkFresh(id: Id, t1: nat, t2: nat)
    requires t1 != t2
    ensures MeetingLink(id, t1) != MeetingLink(id, t2)
  {
    var pre := JitsiBase + id + "-";
    assert MeetingLink(id, t1)[|pre|..] == DecimalString(t1);
    assert MeetingLink(id, t2)[|pre|..] == DecimalString(t2);
    DecimalStringInjective(t1, t2);
  }

  /** startMeeting: from any status, issues a new link built from the id and
      the clock reading `now`, and marks the session Ongoing. */
  function StartMeeting(db: Db, id: Id, now: nat): (r: Step<string, Db>)
    ensures id !in db.sessions ==> r == Step(Err(404, "Session not found"), db)
    ensures id in db.sessions ==>
      && r.response.Ok? && r.response.status == 200
      && r.response.body == MeetingLink(id, now)
      && r.state.tutors == db.tutors && r.state.learnerOfUser == db.learnerOfUser
      && r.state.sessions.Keys == db.sessions.Keys
      && r.state.sessions[id] == db.sessions[id].(status := Ongoing, meetingLink := Some(r.response.body))
      && (forall k :: k in db.sessions && k != id ==> r.state.sessions[k] == db.sessions[k])
  {
    if id !in db.sessions then Step(Err(404, "Session not found"), db)
    else
      var link := MeetingLink(id, now);
      var s := db.sessions[id].(meetingLink := Some(link), status := Ongoing);
      Step(Ok(200, link), db.(sessions := db.sessions[id := s]))
  }

  /** joinMeeting: read-only; fails until a link has been set. */
  function JoinMeeting(db: Db, id: Id): (r: Step<string, Db>)
    ensures r.state == db
    ensures id !in db.sessions ==> r.response == Err(404, "Session not found")
    ensures id in db.sessions && !TruthyStr(db.sessions[id].meetingLink) ==>
      r.response == Err(400, "Meeting not started yet by tutor")
    ensures id in db.sessions && TruthyStr(db.sessions[id].meetingLink) ==>
      r.response == Ok(200, db.sessions[id].meetingLink.value)
  {
    if id !in db.sessions then Step(Err(404, "Session not found"), db)
    else if !TruthyStr(db.sessions[id].meetingLink) then Step(Err(400, "Meeting not started yet by tutor"), db)
    else Step(Ok(200, db.sessions[id].meetingLink.value), db)
  }

  /** endMeeting: marks the session Completed from any status. */
  function EndMeeting(db: Db, id: Id): (r: Step<string, Db>)
    ensures id !in db.sessions ==> r == Step(Err(404, "Session not found"), db)
    ensures id in db.sessions ==>
      && r.response == Ok(200, "Session \"" + db.sessions[id].title + "\" ended.")
      && r.state.tutors == db.tutors && r.state.learnerOfUser == db.learnerOfUser
      && r.state.sessions.Keys == db.sessions.Keys
      && r.state.sessions[id] == db.sessions[id].(status := Completed)
      && (forall k :: k in db.sessions && k != id ==> r.state.sessions[k] == db.sessions[k])
  {
    if id !in db.sessions then Step(Err(404, "Session not found"), db)
    else
      var s := db.sessions[id];
      Step(Ok(200, "Session \"" + s.title + "\" ended."), db.(sessions := db.sessions[id := s.(status := Completed)]))
  }

  /** Joining right after a start returns exactly the issued link. */
  lemma StartThenJoin(db: Db, id: Id, now: nat)
    requires id in db.sessions
    ensures var started := StartMeeting(db, id, now);
            JoinMeeting(started.state, id).response == Ok(200, MeetingLink(id, now))
  {
  }

  /** A session nobody has started cannot be joined. */
  lemma JoinBeforeStart(db: Db, newId: Id, tutorId: Id, title: string, description: Option<string>, date: int, time: string)
    requires newId !in db.sessions && tutorId in db.tutors
    ensures var created := CreateSession(db, newId, tutorId, title, description, date, time);
            JoinMeeting(created.state, newId).response == Err(400, "Meeting not started yet by tutor")
  {
  }

  /** The lifecycle of a session from creation: Upcoming, then Ongoing once
      started, then Completed once ended. */
  lemma Lifecycle(db: Db, newId: Id, tutorId: Id, title: string, date: int, time: string, now: nat)
    requires newId !in db.sessions && tutorId in db.tutors
    ensures var c := CreateSession(db, newId, tutorId, title, None, date, time).state;
            var s := StartMeeting(c, newId, now).state;
            var e := EndMeeting(s, newId).state;
            && c.sessions[newId].status == Upcoming
            && s.sessions[newId].status == Ongoing
            && e.sessions[newId].status == Completed
            && e.sessions[newId].meetingLink == Some(MeetingLink(newId, now))
  {
  }

  /** Registering keeps each learner list free of repeats. */
  lemma RegisterKeepsLearnerSets(db: Db, sessionId: Id, userId: Id)
    requires LearnersAreSets(db)
    ensures LearnersAreSets(RegisterLearner(db, sessionId, userId).state)
  {
    if sessionId in db.sessions && userId in db.learnerOfUser {
      var ls := db.sessions[sessionId].learners;
      var lid := db.learnerOfUser[userId];
      if lid !in ls {
        var ls' := ls + [lid];
        forall i, j | 0 <= i < j < |ls'| ensures ls'[i] != ls'[j] {
          if j == |ls| {
            assert ls'[i] in ls;
          }
        }
      }
    }
  }

  /** Unregistering keeps each learner list free of repeats. */
  lemma UnregisterKeepsLearnerSets(db: Db, sessionId: Id, userId: Id)
    requires LearnersAreSets(db)
    ensures LearnersAreSets(UnregisterLearner(db, sessionId, userId).state)
  {
    if sessionId in db.sessions && userId in db.learnerOfUser {
      RemoveAllNoDups(db.sessions[sessionId].learners, db.learnerOfUser[userId]);
    }
  }

  /** Every handler keeps each learner list free of repeats. */
  lemma HandlersKeepLearnerSets(db: Db, sessionId: Id, userId: Id, now: nat)
    requires LearnersAreSets(db)
    ensures LearnersAreSets(RegisterLearner(db, sessionId, userId).state)
    ensures LearnersAreSets(UnregisterLearner(db, sessionId, userId).state)
    ensures LearnersAreSets(StartMeeting(db, sessionId, now).state)
    ensures LearnersAreSets(EndMeeting(db, sessionId).state)
    ensures LearnersAreSets(DeleteSession(db, sessionId).state)
  {
    RegisterKeepsLearnerSets(db, sessionId, userId);
    UnregisterKeepsLearnerSets(db, sessionId, userId);
  }
}
