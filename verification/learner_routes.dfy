/** Backend/routes/learnerRoutes.js: the learner profile upsert with gender
    normalisation, age kept in step with the owning user, the age-only
    update, the two-step account deletion and the lookup by user. The
    learner collection is keyed by its unique `user_id`. */
module LearnerRoutes {
  import opened Common
  import opened Records

  datatype Db = Db(users: map<Id, User>, learners: map<Id, LearnerDoc>)

  /** The body of `POST /`; any field may be missing. */
  datatype UpsertRequest = UpsertRequest(
    userId: Option<Id>,
    gender: Option<string>,
    areaOfInterest: Option<string>,
    goal: Option<string>,
    age: Option<int>)

  /** Maps the requested gender onto the schema's enum; anything else,
      including a missing value, becomes Other. */
  function NormaliseGender(g: Option<string>): (r: Gender)
    ensures g == Some("Male") <==> r == Male
    ensures g == Some("Female") <==> r == Female
    ensures r == Other <==> !(g == Some("Male") || g == Some("Female"))
  {
    match g
    case Some("Male") => Male
    case Some("Female") => Female
    case _ => Other
  }

  /** The learner of `uid` and the user `uid` carry the same age. */
  predicate AgeInSync(db: Db, uid: Id) {
    uid in db.learners && uid in db.users && db.learners[uid].age == db.users[uid].age
  }

  /** `POST /`: update the learner of `user_id` if one exists, otherwise
      create it. A truthy age is written to both the learner and the user. */
  function Upsert(db: Db, req: UpsertRequest): (r: Step<LearnerDoc, Db>)
    ensures !TruthyStr(req.userId) ==> r == Step(Err(400, "User ID is required"), db)
    ensures TruthyStr(req.userId) && req.userId.value !in db.users ==>
      r == Step(Err(404, "User not found"), db)
    ensures TruthyStr(req.userId) && req.userId.value in db.users ==> r.response.Ok?
    ensures r.response.Ok? ==>
      var uid := req.userId.value;
      var l := r.response.body;
      && TruthyStr(req.userId) && uid in db.users
      && r.state.learners.Keys == db.learners.Keys + {uid}
      && r.state.learners[uid] == l
      && (forall k :: k in db.learners && k != uid ==> r.state.learners[k] == db.learners[k])
      && r.state.users.Keys == db.users.Keys
      && (forall k :: k in db.users && k != uid ==> r.state.users[k] == db.users[k])
      && r.state.users[uid] == db.users[uid].(age := r.state.users[uid].age)
      && l.gender == NormaliseGender(req.gender)
      && l.areaOfInterest == req.areaOfInterest && l.goal == req.goal
      && (TruthyInt(req.age) ==> l.age == req.age && r.state.users[uid].age == req.age)
      && (!TruthyInt(req.age) ==> r.state.users[uid] == db.users[uid])
      && (uid in db.learners ==>
            && r.response.status == 200
            && l.gmail == db.learners[uid].gmail
            && (!TruthyInt(req.age) ==> l.age == db.learners[uid].age))
      && (uid !in db.learners ==>
            && r.response.status == 201
            && l.gmail == db.users[uid].gmail
            && (!TruthyInt(req.age) ==> l.age == db.users[uid].age))
  {
    if !TruthyStr(req.userId) then Step(Err(400, "User ID is required"), db)
    else
      var uid := req.userId.value;
      if uid !in db.users then Step(Err(404, "User not found"), db)
      else
        var user := db.users[uid];
        var g := NormaliseGender(req.gender);
        var users' := if TruthyInt(req.age) then WithAge(db.users, uid, req.age) else db.users;
        if uid in db.learners then
          var old_ := db.learners[uid];
          var l := old_.(gender := g, areaOfInterest := req.areaOfInterest, goal := req.goal,
                         age := if TruthyInt(req.age) then req.age else old_.age);
          Step(Ok(200, l), Db(users', db.learners[uid := l]))
        else
          var l := LearnerDoc(user.gmail, OrInt(req.age, user.age), g, req.areaOfInterest, req.goal);
          Step(Ok(201, l), Db(users', db.learners[uid := l]))
  }

  /** A successful upsert that supplies an age leaves learner and user in step. */
  lemma UpsertSyncsAge(db: Db, req: UpsertRequest)
    requires TruthyStr(req.userId) && req.userId.value in db.users && TruthyInt(req.age)
    ensures AgeInSync(Upsert(db, req).state, req.userId.value)
  {
  }

  /** Two upserts for the same user leave one learner, carrying the second
      request's fields. */
  lemma UpsertTwiceKeepsOneProfile(db: Db, first: UpsertRequest, second: UpsertRequest)
    requires TruthyStr(first.userId) && first.userId.value in db.users
    requires second.userId == first.userId
    ensures var mid := Upsert(db, first);
            var end := Upsert(mid.state, second);
            var uid := first.userId.value;
            && mid.response.Ok? && end.response.Ok? && end.response.status == 200
            && end.state.learners.Keys == db.learners.Keys + {uid}
            && end.state.learners[uid].gender == NormaliseGender(second.gender)
            && end.state.learners[uid].areaOfInterest == second.areaOfInterest
            && end.state.learners[uid].goal == second.goal
  {
  }

  /** `PUT /update-age/:userId`. */
  function UpdateAge(db: Db, userId: Id, age: Option<int>): (r: Step<LearnerDoc, Db>)
    ensures !TruthyInt(age) ==> r == Step(Err(400, "Age is required"), db)
    ensures TruthyInt(age) && userId !in db.learners ==> r == Step(Err(404, "Learner not found"), db)
    ensures TruthyInt(age) && userId in db.learners && userId !in db.users ==>
      r == Step(Err(404, "User not found"), db)
    ensures TruthyInt(age) && userId in db.learners && userId in db.users ==>
      && r.response == Ok(200, db.learners[userId].(age := age))
      && r.state.learners == db.learners[userId := db.learners[userId].(age := age)]
      && r.state.users == db.users[userId := db.users[userId].(age := age)]
      && AgeInSync(r.state, userId)
  {
    if !TruthyInt(age) then Step(Err(400, "Age is required"), db)
    else if userId !in db.learners then Step(Err(404, "Learner not found"), db)
    else if userId !in db.users then Step(Err(404, "User not found"), db)
    else
      var l := db.learners[userId].(age := age);
      Step(Ok(200, l), Db(WithAge(db.users, userId, age), db.learners[userId := l]))
  }

  /** `DELETE /delete/:userId`: the learner goes first, whether or not it
      exists; only a missing user is an error, and the learner deletion
      has already happened by then. */
  function DeleteAccount(db: Db, userId: Id): (r: Step<string, Db>)
    ensures userId !in r.state.learners && userId !in r.state.users
    ensures r.state.learners == db.learners - {userId}
    ensures r.state.users == db.users - {userId}
    ensures userId !in db.users <==> r.response == Err(404, "User not found")
    ensures userId in db.users <==> r.response == Ok(200, "Account and profile deleted successfully")
  {
    var db' := Db(db.users - {userId}, db.learners - {userId});
    if userId !in db.users then Step(Err(404, "User not found"), db')
    else Step(Ok(200, "Account and profile deleted successfully"), db')
  }

  /** The fields `GET /:userId` joins from the owning user. */
  const JoinedFields: set<Field> := {Name, Profile, Role, Age, Gmail}

  /** `GET /:userId`: the learner with its user joined (absent when the user
      record is gone). */
  function GetByUser(db: Db, userId: Id): (r: Response<(LearnerDoc, Option<UserView>)>)
    ensures userId !in db.learners <==> r == Err(404, "Learner not found")
    ensures r.Ok? ==> r.status == 200 && r.body.0 == db.learners[userId]
    ensures r.Ok? ==> (r.body.1.Some? <==> userId in db.users)
    ensures r.Ok? && r.body.1.Some? ==> r.body.1.value == Project(userId, db.users[userId], JoinedFields)
  {
    if userId !in db.learners then Err(404, "Learner not found")
    else
      var u := if userId in db.users then Some(Project(userId, db.users[userId], JoinedFields)) else None;
      Ok(200, (db.learners[userId], u))
  }

  /** The learner a successful upsert stores is the one the lookup by user
      then returns, with the updated user joined. */
  lemma UpsertThenGet(db: Db, req: UpsertRequest)
    requires TruthyStr(req.userId) && req.userId.value in db.users
    ensures var r := Upsert(db, req);
            var uid := req.userId.value;
            var got := GetByUser(r.state, uid);
            && got.Ok? && got.body.0 == r.response.body
            && got.body.0.gender == NormaliseGender(req.gender)
            && got.body.0.areaOfInterest == req.areaOfInterest && got.body.0.goal == req.goal
            && got.body.1 == Some(Project(uid, r.state.users[uid], JoinedFields))
            && (TruthyInt(req.age) ==> got.body.0.age == req.age && got.body.1.value.age == req.age)
  {
  }

  /** Once the account is deleted, the lookup by user finds no learner,
      whether or not the user existed. */
  lemma DeleteThenGetNotFound(db: Db, userId: Id)
    ensures GetByUser(DeleteAccount(db, userId).state, userId) == Err(404, "Learner not found")
  {
  }
}
