/** Backend/controllers/userController.js: account creation that checks the
    required request fields and gmail uniqueness before hashing, and login
    that answers 401 alike for an unknown gmail and a wrong password and
    otherwise returns the stored record. */
module UserController {
  import opened Common
  import opened Records
  import opened Accounts

  /** The body of createUser; every field may be missing. */
  datatype CreateRequest = CreateRequest(
    name: Option<string>,
    gmail: Option<string>,
    password: Option<string>,
    profile: Option<string>,
    role: Option<string>)

  /** The four fields createUser insists on are all truthy. */
  predicate RequiredPresent(req: CreateRequest) {
    TruthyStr(req.name) && TruthyStr(req.gmail) && TruthyStr(req.password) && TruthyStr(req.role)
  }

  /** createUser with the age the caller supplies; the handler as written
      supplies none. */
  function CreateWithAge(users: Users, newId: Id, req: CreateRequest, age: Option<int>, h: Hasher): (r: Step<User, Users>)
    requires newId !in users
    ensures !RequiredPresent(req) ==> r == Step(Err(400, "All required fields must be filled"), users)
    ensures RequiredPresent(req) && GmailTaken(users, req.gmail.value) ==>
      r == Step(Err(400, "User already exists"), users)
    ensures r.response.Err? ==> r.state == users
    ensures r.response.Ok? ==>
      && RequiredPresent(req) && !GmailTaken(users, req.gmail.value)
      && newId in r.state && r.state == users[newId := r.state[newId]]
      && r.response == Ok(201, r.state[newId])
      && r.state[newId].password == h.hash(req.password.value)
      && r.state[newId].gmail == req.gmail.value && r.state[newId].age == age
    ensures GmailsUnique(users) ==> GmailsUnique(r.state)
  {
    if !RequiredPresent(req) then Step(Err(400, "All required fields must be filled"), users)
    else if GmailTaken(users, req.gmail.value) then Step(Err(400, "User already exists"), users)
    else
      var u := User(req.name.value, req.gmail.value, h.hash(req.password.value),
                    req.profile.GetOr(""), age, req.role.value);
      AddKeepsGmailsUnique(users, newId, u);
      Save(users, newId, u)
  }

  /** createUser as written: the new user is built without an age. */
  function CreateUser(users: Users, newId: Id, req: CreateRequest, h: Hasher): (r: Step<User, Users>)
    requires newId !in users
    ensures !RequiredPresent(req) ==> r == Step(Err(400, "All required fields must be filled"), users)
    ensures RequiredPresent(req) && GmailTaken(users, req.gmail.value) ==>
      r == Step(Err(400, "User already exists"), users)
    ensures RequiredPresent(req) && !GmailTaken(users, req.gmail.value) ==>
      r == Step(Err(500, ValidationFailed), users)
  {
    CreateWithAge(users, newId, req, None, h)
  }

  /** The schema requires an age, so the handler as written never stores a
      user: every request ends in an error and leaves the store as it was. */
  lemma CreateUserNeverSucceeds(users: Users, newId: Id, req: CreateRequest, h: Hasher)
    requires newId !in users
    ensures CreateUser(users, newId, req, h).response.Err?
    ensures CreateUser(users, newId, req, h).state == users
  {
  }

  /** With the age passed through, a complete request for a new gmail with
      a schema role is stored, under its hash. */
  lemma CreateWithAgeSucceeds(users: Users, newId: Id, req: CreateRequest, age: int, h: Hasher)
    requires Sound(h) && newId !in users
    requires RequiredPresent(req) && !GmailTaken(users, req.gmail.value)
    requires req.role == Some("learner") || req.role == Some("tutor")
    ensures var r := CreateWithAge(users, newId, req, Some(age), h);
            && r.response.Ok? && r.response.status == 201
            && newId in r.state && h.verify(req.password.value, r.state[newId].password)
  {
    assert h.verify(req.password.value, h.hash(req.password.value)) && h.hash(req.password.value) != "";
  }

  /** loginUser. */
  function LoginUser(users: Users, gmail: string, password: string, h: Hasher): (r: Response<User>)
    requires GmailsUnique(users)
    ensures !GmailTaken(users, gmail) ==> r == Err(401, "Invalid email or password")
    ensures r.Err? ==> r == Err(401, "Invalid email or password")
    ensures r.Ok? <==> exists k :: k in users && users[k].gmail == gmail && h.verify(password, users[k].password)
    ensures r.Ok? ==> r.status == 200 && r.body in users.Values && r.body.gmail == gmail
  {
    match OwnerOf(users, gmail)
    case None => Err(401, "Invalid email or password")
    case Some(k) =>
      if !h.verify(password, users[k].password) then Err(401, "Invalid email or password")
      else Ok(200, users[k])
  }

  /** A user created with its age logs in with the same gmail and password
      and gets the stored record back. */
  lemma CreateThenLogin(users: Users, newId: Id, req: CreateRequest, age: int, h: Hasher)
    requires Sound(h) && GmailsUnique(users) && newId !in users
    requires RequiredPresent(req) && !GmailTaken(users, req.gmail.value)
    requires req.role == Some("learner") || req.role == Some("tutor")
    ensures var r := CreateWithAge(users, newId, req, Some(age), h);
            GmailsUnique(r.state)
            && LoginUser(r.state, req.gmail.value, req.password.value, h) == Ok(200, r.state[newId])
  {
    CreateWithAgeSucceeds(users, newId, req, age, h);
    var after := CreateWithAge(users, newId, req, Some(age), h).state;
    assert OwnerOf(after, req.gmail.value) == Some(newId);
  }
}
