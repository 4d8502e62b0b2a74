/** Backend/routes/tutorRoutes.js: the tutor profile upsert whose update
    keeps an old value wherever the new one is falsy, age kept in step with
    the owning user, the age-only update, the two-step account deletion and
    the lookup by user. The tutor collection is keyed by its unique
    `user_id`. */
module TutorRoutes {
  import opened Common
  import opened Records

  datatype Db = Db(users: map<Id, User>, tutors: map<Id, Tutor>)

  /** The body of `POST /`; any field may be missing. */
  datatype UpsertRequest = UpsertRequest(
    userId: Option<Id>,
    domain: Option<string>,
    professional: Option<string>,
    workExperience: Option<string>,
    age: Option<int>)

  /** The tutor of `uid` and the user `uid` carry the same age. */
  predicate AgeInSync(db: Db, uid: Id) {
    uid in db.tutors && uid in db.users && db.tutors[uid].age == db.users[uid].age
  }

  /** `POST /`: update the tutor of `user_id` if one exists, keeping each old
      text field the request leaves falsy; otherwise create it. A truthy age
      is written to both the tutor and the user. */
  function Upsert(db: Db, req: UpsertRequest): (r: Step<Tutor, Db>)
    ensures !TruthyStr(req.userId) ==> r == Step(Err(400, "User ID is required"), db)
    ensures TruthyStr(req.userId) && req.userId.value !in db.users ==>
      r == Step(Err(404, "User not found!"), db)
    ensures TruthyStr(req.userId) && req.userId.value in db.users ==> r.response.Ok?
    ensures r.response.Ok? ==>
      var uid := req.userId.value;
      var t := r.response.body;
      && TruthyStr(req.userId) && uid in db.users
      && r.state.tutors.Keys == db.tutors.Keys + {uid}
      && r.state.tutors[uid] == t
      && (forall k :: k in db.tutors && k != uid ==> r.state.tutors[k] == db.tutors[k])
      && r.state.users.Keys == db.users.Keys
      && (forall k :: k in db.users && k != uid ==> r.state.users[k] == db.users[k])
      && r.state.users[uid] == db.users[uid].(age := r.state.users[uid].age)
      && (TruthyInt(req.age) ==> t.age == req.age && r.state.users[uid].age == req.age)
      && (!TruthyInt(req.age) ==> r.state.users[uid] == db.users[uid])
      && (uid in db.tutors ==>
            var old_ := db.tutors[uid];
            && r.response.status == 200
            && (TruthyStr(req.domain) ==> t.domain == req.domain)
            && (!TruthyStr(req.domain) ==> t.domain == old_.domain)
            && (TruthyStr(req.professional) ==> t.professional == req.professional)
            && (!TruthyStr(req.professional) ==> t.professional == old_.professional)
            && (TruthyStr(req.workExperience) ==> t.workExperience == req.workExperience)
            && (!TruthyStr(req.workExperience) ==> t.workExperience == old_.workExperience)
            && (!TruthyInt(req.age) ==> t.age == old_.age))
      && (uid !in db.tutors ==>
            && r.response.status == 201
            && t.domain == req.domain && t.professional == req.professional
            && t.workExperience == req.workExperience
            && (!TruthyInt(req.age) ==> t.age == db.users[uid].age))
  {
    if !TruthyStr(req.userId) then Step(Err(400, "User ID is required"), db)
    else
      var uid := req.userId.value;
      if uid !in db.users then Step(Err(404, "User not found!"), db)
      else
        var user := db.users[uid];
        var users' := if TruthyInt(req.age) then WithAge(db.users, uid, req.age) else db.users;
        if uid in db.tutors then
          var old_ := db.tutors[uid];
          var t := Tutor(
            if TruthyInt(req.age) then req.age else old_.age,
            OrStr(req.domain, old_.domain),
            OrStr(req.professional, old_.professional),
            OrStr(req.workExperience, old_.workExperience));
          Step(Ok(200, t), Db(users', db.tutors[uid := t]))
        else
          var t := Tutor(OrInt(req.age, user.age), req.domain, req.professional, req.workExperience);
          Step(Ok(201, t), Db(users', db.tutors[uid := t]))
  }

  /** An update with no truthy field is a no-op on the tutor. */
  lemma EmptyUpdateKeepsTutor(db: Db, uid: Id)
    requires uid != "" && uid in db.users && uid in db.tutors
    ensures var r := Upsert(db, UpsertRequest(Some(uid), None, None, None, None));
            r.response.Ok? && r.state == db
  {
    var r := Upsert(db, UpsertRequest(Some(uid), None, None, None, None));
    var t := db.tutors[uid];
    assert r.state.tutors == db.tutors[uid := Tutor(t.age, t.domain, t.professional, t.workExperience)];
    assert r.state.tutors == db.tutors;
    assert r.state.users == db.users;
  }

  /** `PUT /update-age/:userId`. */
  function UpdateAge(db: Db, userId: Id, age: Option<int>): (r: Step<Tutor, Db>)
    ensures !TruthyInt(age) ==> r == Step(Err(400, "Age is required"), db)
    ensures TruthyInt(age) && userId !in db.tutors ==> r == Step(Err(404, "Tutor not found"), db)
    ensures TruthyInt(age) && userId in db.tutors && userId !in db.users ==>
      r == Step(Err(404, "User not found"), db)
    ensures TruthyInt(age) && userId in db.tutors && userId in db.users ==>
      && r.response == Ok(200, db.tutors[userId].(age := age))
      && r.state.tutors == db.tutors[userId := db.tutors[userId].(age := age)]
      && r.state.users == db.users[userId := db.users[userId].(age := age)]
      && AgeInSync(r.state, userId)
  {
    if !TruthyInt(age) then Step(Err(400, "Age is required"), db)
    else if userId !in db.tutors then Step(Err(404, "Tutor not found"), db)
    else if userId !in db.users then Step(Err(404, "User not found"), db)
    else
      var t := db.tutors[userId].(age := age);
      Step(Ok(200, t), Db(WithAge(db.users, userId, age), db.tutors[userId := t]))
  }

  /** `DELETE /delete/:userId`: the tutor goes first, whether or not it
      exists; only a missing user is an error. */
  function DeleteAccount(db: Db, userId: Id): (r: Step<string, Db>)
    ensures userId !in r.state.tutors && userId !in r.state.users
    ensures r.state.tutors == db.tutors - {userId}
    ensures r.state.users == db.users - {userId}
    ensures userId !in db.users <==> r.response == Err(404, "User not found")
    ensures userId in db.users <==> r.response == Ok(200, "Account and profile deleted successfully")
  {
    var db' := Db(db.users - {userId}, db.tutors - {userId});
    if userId !in db.users then Step(Err(404, "User not found"), db')
    else Step(Ok(200, "Account and profile deleted successfully"), db')
  }

  /** Deleting twice leaves the same store as deleting once. */
  lemma DeleteAccountIdempotent(db: Db, userId: Id)
    ensures var once := DeleteAccount(db, userId).state;
            DeleteAccount(once, userId).state == once
  {
    var once := DeleteAccount(db, userId).state;
    assert once.tutors - {userId} == once.tutors;
    assert once.users - {userId} == once.users;
  }

  /** The fields `GET /:userId` joins from the owning user. */
  const JoinedFields: set<Field> := {Name, Gmail, Role, Age}

  /** `GET /:userId`. */
  function GetByUser(db: Db, userId: Id): (r: Response<(Tutor, Option<UserView>)>)
    ensures userId !in db.tutors <==> r == Err(404, "Tutor not found")
    ensures r.Ok? ==> r.status == 200 && r.body.0 == db.tutors[userId]
    ensures r.Ok? ==> (r.body.1.Some? <==> userId in db.users)
    ensures r.Ok? && r.body.1.Some? ==> r.body.1.value == Project(userId, db.users[userId], JoinedFields)
  {
    if userId !in db.tutors then Err(404, "Tutor not found")
    else
      var u := if userId in db.users then Some(Project(userId, db.users[userId], JoinedFields)) else None;
      Ok(200, (db.tutors[userId], u))
  }

  /** The tutor a successful upsert stores is the one the lookup by user
      then returns, with the updated user joined. */
  lemma UpsertThenGet(db: Db, req: UpsertRequest)
    requires TruthyStr(req.userId) && req.userId.value in db.users
    ensures var r := Upsert(db, req);
            var uid := req.userId.value;
            var got := GetByUser(r.state, uid);
            && got.Ok? && got.body.0 == r.response.body
            && got.body.1 == Some(Project(uid, r.state.users[uid], JoinedFields))
            && (TruthyStr(req.domain) ==> got.body.0.domain == req.domain)
            && (TruthyInt(req.age) ==> got.body.0.age == req.age && got.body.1.value.age == req.age)
  {
  }

  /** Once the account is deleted, the lookup by user finds no tutor. */
  lemma DeleteThenGetNotFound(db: Db, userId: Id)
    ensures GetByUser(DeleteAccount(db, userId).state, userId) == Err(404, "Tutor not found")
  {
  }
}
