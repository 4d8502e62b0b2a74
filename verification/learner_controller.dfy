/** Backend/controllers/learnerController.js: the role-checked learner
    profile variant. Its documents hold `user`, `age` and `interest`; the
    collection is keyed here by the owning user. Create refuses a second
    profile with a conflict, and update keeps an old value wherever the
    new one is falsy. */
module LearnerController {
  import opened Common
  import opened Records
  import opened OwnerLookup

  /** The learner document this controller writes. */
  datatype LearnerProfile = LearnerProfile(age: Option<int>, interest: Option<string>)

  datatype Db = Db(users: map<Id, User>, learners: map<Id, LearnerProfile>)

  /** The user exists and has the learner role. */
  predicate IsLearnerUser(db: Db, userId: Id) {
    userId in db.users && db.users[userId].role == "learner"
  }

  /** createLearner. */
  function CreateLearner(db: Db, userId: Id, age: Option<int>, interest: Option<string>): (r: Step<LearnerProfile, Db>)
    ensures r.state.users == db.users
    ensures !IsLearnerUser(db, userId) ==> r == Step(Err(400, "Invalid user or role"), db)
    ensures IsLearnerUser(db, userId) && userId in db.learners ==>
      r == Step(Err(409, "Learner profile already exists"), db)
    ensures IsLearnerUser(db, userId) && userId !in db.learners ==>
      && r.response == Ok(201, LearnerProfile(age, interest))
      && r.state.learners.Keys == db.learners.Keys + {userId}
      && r.state.learners[userId] == LearnerProfile(age, interest)
      && (forall k :: k in db.learners ==> r.state.learners[k] == db.learners[k])
    ensures r.response.Err? <==> r.state == db
  {
    if !IsLearnerUser(db, userId) then Step(Err(400, "Invalid user or role"), db)
    else if userId in db.learners then Step(Err(409, "Learner profile already exists"), db)
    else
      var l := LearnerProfile(age, interest);
      Step(Ok(201, l), db.(learners := db.learners[userId := l]))
  }

  /** A second create for the same user is refused and changes nothing, so
      create never yields two profiles for one user. */
  lemma CreateTwiceConflicts(db: Db, userId: Id, a1: Option<int>, i1: Option<string>, a2: Option<int>, i2: Option<string>)
    requires IsLearnerUser(db, userId)
    ensures var mid := CreateLearner(db, userId, a1, i1).state;
            CreateLearner(mid, userId, a2, i2) == Step(Err(409, "Learner profile already exists"), mid)
  {
  }

  /** updateLearner. */
  function UpdateLearner(db: Db, userId: Id, age: Option<int>, interest: Option<string>): (r: Step<LearnerProfile, Db>)
    ensures r.state.users == db.users
    ensures userId !in db.learners ==> r == Step(Err(404, "Learner profile not found"), db)
    ensures userId in db.learners ==>
      var old_ := db.learners[userId];
      && r.state.learners.Keys == db.learners.Keys
      && var l := r.state.learners[userId];
      && r.response == Ok(200, l)
      && (TruthyInt(age) ==> l.age == age)
      && (!TruthyInt(age) ==> l.age == old_.age)
      && (TruthyStr(interest) ==> l.interest == interest)
      && (!TruthyStr(interest) ==> l.interest == old_.interest)
      && (forall k :: k in db.learners && k != userId ==> r.state.learners[k] == db.learners[k])
  {
    if userId !in db.learners then Step(Err(404, "Learner profile not found"), db)
    else
      var old_ := db.learners[userId];
      var l := LearnerProfile(OrInt(age, old_.age), OrStr(interest, old_.interest));
      Step(Ok(200, l), db.(learners := db.learners[userId := l]))
  }

  /** getLearnerByUserId: the profile with its user joined, password left out. */
  function GetLearnerByUserId(db: Db, userId: Id): (r: Response<(LearnerProfile, Option<UserView>)>)
    ensures userId !in db.learners <==> r == Err(404, "Learner profile not found")
    ensures r.Ok? ==> r.status == 200 && r.body.0 == db.learners[userId]
    ensures r.Ok? ==> (r.body.1.Some? <==> userId in db.users)
    ensures r.Ok? && r.body.1.Some? ==> r.body.1.value == Project(userId, db.users[userId], AllButPassword)
  {
    if userId !in db.learners then Err(404, "Learner profile not found")
    else
      var u := if userId in db.users then Some(Project(userId, db.users[userId], AllButPassword)) else None;
      Ok(200, (db.learners[userId], u))
  }

  /** A created profile is the one the lookup by user then returns. */
  lemma CreateThenGet(db: Db, userId: Id, age: Option<int>, interest: Option<string>)
    requires IsLearnerUser(db, userId) && userId !in db.learners
    ensures var got := GetLearnerByUserId(CreateLearner(db, userId, age, interest).state, userId);
            && got.Ok? && got.body.0 == LearnerProfile(age, interest)
            && got.body.1 == Some(Project(userId, db.users[userId], AllButPassword))
  {
  }

  /** The lookup after an update returns the profile the update answered
      with: each truthy field replaced, each falsy one kept. */
  lemma UpdateThenGet(db: Db, userId: Id, age: Option<int>, interest: Option<string>)
    requires userId in db.learners
    ensures var r := UpdateLearner(db, userId, age, interest);
            var got := GetLearnerByUserId(r.state, userId);
            && got.Ok? && got.body.0 == r.response.body
            && got.body.0.age == OrInt(age, db.learners[userId].age)
            && got.body.0.interest == OrStr(interest, db.learners[userId].interest)
  {
  }

  /** The head of the error Learner.js validation reports. */
  const LearnerValidationFailed := "Learner validation failed"

  /** createLearner as written, over the stored learner documents `ls`: the
      conflict check filters on `user`, and the new document is built from
      `{ user, age, interest }`. Learner.js declares none of the three, so
      the required `user_id` (and `gmail`) stay unset and the save fails. */
  function CreateLearnerAsWritten(db: Db, ls: seq<Doc>, newId: Id, userId: Id): (r: Step<Doc, seq<Doc>>)
  {
    if !IsLearnerUser(db, userId) then Step(Err(400, "Invalid user or role"), ls)
    else if ByUser(ls, userId).Some? then Step(Err(409, "Learner profile already exists"), ls)
    else
      var d := Build(newId, None, Some(userId));
      if OwnerValid(d) then Step(Ok(201, d), ls + [d])
      else Step(Err(500, LearnerValidationFailed), ls)
  }

  /** As written, no request creates a learner: a learner user always gets
      the validation error, and the collection never changes. */
  lemma CreateLearnerAsWrittenNeverSucceeds(db: Db, ls: seq<Doc>, newId: Id, userId: Id)
    requires Stored(ls)
    ensures var r := CreateLearnerAsWritten(db, ls, newId, userId);
            && r.state == ls && r.response.Err?
            && (IsLearnerUser(db, userId) ==> r.response == Err(500, LearnerValidationFailed))
  {
    ByUserFindsNothing(ls, userId);
    BuiltWithUserIsInvalid(newId, userId);
  }
}
