/** Backend/controllers/tutorController.js: the role-checked tutor profile
    variant, keyed by the owning user. Create-or-update overwrites every
    field, including with missing values; deletion removes the profile and
    then the account, and fails only when there is no profile. */
module TutorController {
  import opened Common
  import opened Records
  import opened OwnerLookup

  datatype Db = Db(users: map<Id, User>, tutors: map<Id, Tutor>)

  /** The user exists and has the tutor role. */
  predicate IsTutorUser(db: Db, userId: Id) {
    userId in db.users && db.users[userId].role == "tutor"
  }

  /** createOrUpdateTutor. */
  function CreateOrUpdate(db: Db, userId: Id, age: Option<int>, domain: Option<string>,
                          professional: Option<string>, workExperience: Option<string>): (r: Step<Tutor, Db>)
    ensures r.state.users == db.users
    ensures !IsTutorUser(db, userId) ==> r == Step(Err(400, "Invalid user or role"), db)
    ensures IsTutorUser(db, userId) ==>
      && r.state.tutors.Keys == db.tutors.Keys + {userId}
      && var t := r.state.tutors[userId];
      && t.age == age && t.domain == domain && t.professional == professional
      && t.workExperience == workExperience
      && r.response == Ok(if userId in db.tutors then 200 else 201, t)
      && (forall k :: k in db.tutors && k != userId ==> r.state.tutors[k] == db.tutors[k])
  {
    if !IsTutorUser(db, userId) then Step(Err(400, "Invalid user or role"), db)
    else
      var t := Tutor(age, domain, professional, workExperience);
      Step(Ok(if userId in db.tutors then 200 else 201, t), db.(tutors := db.tutors[userId := t]))
  }

  /** Repeating the same request changes nothing more and reports an update. */
  lemma CreateOrUpdateIdempotent(db: Db, userId: Id, age: Option<int>, domain: Option<string>,
                                 professional: Option<string>, workExperience: Option<string>)
    requires IsTutorUser(db, userId)
    ensures var once := CreateOrUpdate(db, userId, age, domain, professional, workExperience);
            var twice := CreateOrUpdate(once.state, userId, age, domain, professional, workExperience);
            twice.state == once.state && twice.response.Ok? && twice.response.status == 200
  {
    var once := CreateOrUpdate(db, userId, age, domain, professional, workExperience);
    assert once.state.tutors[userId := once.state.tutors[userId]] == once.state.tutors;
  }

  /** getTutorByUserId. The projection asks for `name age email`; User has
      no `email` field, so only name and age are joined. */
  const JoinedFields: set<Field> := {Name, Age}

  function GetTutorByUserId(db: Db, userId: Id): (r: Response<(Tutor, Option<UserView>)>)
    ensures userId !in db.tutors <==> r == Err(404, "Tutor profile not found")
    ensures r.Ok? ==> r.status == 200 && r.body.0 == db.tutors[userId]
    ensures r.Ok? ==> (r.body.1.Some? <==> userId in db.users)
    ensures r.Ok? && r.body.1.Some? ==>
      r.body.1.value == Project(userId, db.users[userId], JoinedFields)
      && r.body.1.value.gmail.None?
  {
    if userId !in db.tutors then Err(404, "Tutor profile not found")
    else
      var u := if userId in db.users then Some(Project(userId, db.users[userId], JoinedFields)) else None;
      Ok(200, (db.tutors[userId], u))
  }

  /** deleteTutor. */
  function DeleteTutor(db: Db, userId: Id): (r: Step<string, Db>)
    ensures userId !in db.tutors ==> r == Step(Err(404, "Tutor profile not found"), db)
    ensures userId in db.tutors ==>
      && r.response == Ok(200, "Tutor account deleted successfully")
      && r.state.tutors == db.tutors - {userId}
      && r.state.users == db.users - {userId}
      && userId !in r.state.tutors && userId !in r.state.users
  {
    if userId !in db.tutors then Step(Err(404, "Tutor profile not found"), db)
    else Step(Ok(200, "Tutor account deleted successfully"), Db(db.users - {userId}, db.tutors - {userId}))
  }

  /** Whatever create-or-update stores, the lookup by user then returns. */
  lemma CreateOrUpdateThenGet(db: Db, userId: Id, age: Option<int>, domain: Option<string>,
                              professional: Option<string>, workExperience: Option<string>)
    requires IsTutorUser(db, userId)
    ensures var got := GetTutorByUserId(CreateOrUpdate(db, userId, age, domain, professional, workExperience).state, userId);
            && got.Ok? && got.body.0 == Tutor(age, domain, professional, workExperience)
            && got.body.1 == Some(Project(userId, db.users[userId], JoinedFields))
  {
  }

  /** After a successful delete the lookup by user finds no profile, and a
      second delete is refused. */
  lemma DeleteThenGetNotFound(db: Db, userId: Id)
    requires userId in db.tutors
    ensures var after := DeleteTutor(db, userId).state;
            && GetTutorByUserId(after, userId) == Err(404, "Tutor profile not found")
            && DeleteTutor(after, userId).response == Err(404, "Tutor profile not found")
  {
  }

  /** The head of the error Tutor.js validation reports. */
  const TutorValidationFailed := "Tutor validation failed"

  /** createOrUpdateTutor as written, over the stored tutor documents `ts`:
      the existing profile is looked up on `user`, and a new one is built
      with `user`, which Tutor.js does not declare, so its required
      `user_id` stays unset and the save fails. */
  function CreateOrUpdateAsWritten(db: Db, ts: seq<Doc>, newId: Id, userId: Id): (r: Step<Doc, seq<Doc>>)
  {
    if !IsTutorUser(db, userId) then Step(Err(400, "Invalid user or role"), ts)
    // Doc carries only the owner paths, which the update branch leaves alone.
    else if ByUser(ts, userId).Some? then Step(Ok(200, ByUser(ts, userId).value), ts)
    else
      var d := Build(newId, None, Some(userId));
      if OwnerValid(d) then Step(Ok(201, d), ts + [d])
      else Step(Err(500, TutorValidationFailed), ts)
  }

  /** As written, the update branch is never taken and no tutor is ever
      created: a tutor user always gets the validation error. */
  lemma CreateOrUpdateAsWrittenNeverSucceeds(db: Db, ts: seq<Doc>, newId: Id, userId: Id)
    requires Stored(ts)
    ensures var r := CreateOrUpdateAsWritten(db, ts, newId, userId);
            && r.state == ts && r.response.Err?
            && (IsTutorUser(db, userId) ==> r.response == Err(500, TutorValidationFailed))
  {
    ByUserFindsNothing(ts, userId);
    BuiltWithUserIsInvalid(newId, userId);
  }
}
