/** Backend/routes/userRoutes.js: registration with a unique gmail and a
    hashed password, login that answers both kinds of failure alike and
    never returns the hash, listing and lookup without the hash, update
    that re-hashes a supplied password, and deletion that always succeeds. */
module UserRoutes {
  import opened Common
  import opened Records
  import opened Accounts

  /** The body of `POST /register`. */
  datatype RegisterRequest = RegisterRequest(
    name: string,
    gmail: string,
    password: string,
    profile: Option<string>,
    age: Option<int>,
    role: string)

  /** The user `POST /register` would store. */
  function NewUser(req: RegisterRequest, h: Hasher): (u: User)
    ensures u.password == h.hash(req.password)
    ensures u.name == req.name && u.gmail == req.gmail && u.age == req.age && u.role == req.role
    ensures u.profile == (if req.profile.Some? then req.profile.value else "")
  {
    User(req.name, req.gmail, h.hash(req.password), req.profile.GetOr(""), req.age, req.role)
  }

  /** `POST /register`. */
  function Register(users: Users, newId: Id, req: RegisterRequest, h: Hasher): (r: Step<(string, User), Users>)
    requires newId !in users
    ensures GmailTaken(users, req.gmail) ==> r == Step(Err(400, "User already exists"), users)
    ensures !GmailTaken(users, req.gmail) && !SchemaValid(NewUser(req, h)) ==>
      r == Step(Err(500, ValidationFailed), users)
    ensures r.response.Ok? <==> !GmailTaken(users, req.gmail) && SchemaValid(NewUser(req, h))
    ensures r.response.Ok? ==>
      && newId in r.state
      && r.response == Ok(201, ("User registered successfully", r.state[newId]))
      && r.state == users[newId := r.state[newId]]
      && r.state[newId].password == h.hash(req.password)
      && r.state[newId].gmail == req.gmail
    ensures GmailsUnique(users) ==> GmailsUnique(r.state)
  {
    if GmailTaken(users, req.gmail) then Step(Err(400, "User already exists"), users)
    else
      var u := NewUser(req, h);
      AddKeepsGmailsUnique(users, newId, u);
      match Save(users, newId, u)
      case Step(Ok(s, v), users') => Step(Ok(s, ("User registered successfully", v)), users')
      case Step(Err(s, m), users') => Step(Err(s, m), users')
  }

  /** `POST /login`. */
  function Login(users: Users, gmail: string, password: string, h: Hasher): (r: Response<(string, UserView)>)
    requires GmailsUnique(users)
    ensures !GmailTaken(users, gmail) ==> r == Err(400, "Invalid credentials")
    ensures r.Ok? <==> exists k :: k in users && users[k].gmail == gmail && h.verify(password, users[k].password)
    ensures r.Err? ==> r == Err(400, "Invalid credentials")
    ensures r.Ok? ==>
      var k := r.body.1.id;
      && k in users && users[k].gmail == gmail
      && r == Ok(200, ("Login successful", Project(k, users[k], AllButPassword)))
  {
    match OwnerOf(users, gmail)
    case None => Err(400, "Invalid credentials")
    case Some(k) =>
      if !h.verify(password, users[k].password) then Err(400, "Invalid credentials")
      else Ok(200, ("Login successful", Project(k, users[k], AllButPassword)))
  }

  /** A valid registration followed by a login with the same gmail and
      password succeeds and returns the new user without its hash. */
  lemma RegisterThenLogin(users: Users, newId: Id, req: RegisterRequest, h: Hasher)
    requires Sound(h) && GmailsUnique(users) && newId !in users
    requires !GmailTaken(users, req.gmail) && SchemaValid(NewUser(req, h))
    ensures var after := Register(users, newId, req, h).state;
            GmailsUnique(after)
            && Login(after, req.gmail, req.password, h)
               == Ok(200, ("Login successful", Project(newId, NewUser(req, h), AllButPassword)))
  {
    var after := Register(users, newId, req, h).state;
    assert after[newId].gmail == req.gmail;
    assert OwnerOf(after, req.gmail) == Some(newId);
    assert h.verify(req.password, h.hash(req.password));
  }

  /** `GET /`: every user, without the hash. */
  function GetAll(users: Users): (r: map<Id, UserView>)
    ensures r.Keys == users.Keys
    ensures forall k :: k in r ==>
      && r[k].id == k
      && r[k].name == Some(users[k].name) && r[k].gmail == Some(users[k].gmail)
      && r[k].profile == Some(users[k].profile) && r[k].age == users[k].age
      && r[k].role == Some(users[k].role)
  {
    map k | k in users :: Project(k, users[k], AllButPassword)
  }

  /** `GET /:id`. */
  function GetOne(users: Users, id: Id): (r: Response<UserView>)
    ensures id !in users <==> r == Err(404, "User not found")
    ensures r.Ok? ==> r.status == 200 && r.body == GetAll(users)[id]
  {
    if id !in users then Err(404, "User not found")
    else Ok(200, Project(id, users[id], AllButPassword))
  }

  /** The body of `PUT /:id`: the fields a client chose to send. */
  datatype UserPatch = UserPatch(
    name: Option<string>,
    gmail: Option<string>,
    password: Option<string>,
    profile: Option<string>,
    age: Option<int>,
    role: Option<string>)

  /** The stored user after `findByIdAndUpdate` applies the patch; a truthy
      password has been replaced by its hash first. Validators do not run
      on this path, so any role string is stored. */
  function Apply(u: User, p: UserPatch, h: Hasher): (v: User)
    ensures v.name == p.name.GetOr(u.name) && v.gmail == p.gmail.GetOr(u.gmail)
    ensures v.profile == p.profile.GetOr(u.profile) && v.role == p.role.GetOr(u.role)
    ensures v.age == (if p.age.Some? then p.age else u.age)
    ensures TruthyStr(p.password) ==> v.password == h.hash(p.password.value)
    ensures p.password == Some("") ==> v.password == ""
    ensures p.password.None? ==> v.password == u.password
  {
    var pw := if TruthyStr(p.password) then Some(h.hash(p.password.value)) else p.password;
    User(p.name.GetOr(u.name), p.gmail.GetOr(u.gmail), pw.GetOr(u.password),
         p.profile.GetOr(u.profile), if p.age.Some? then p.age else u.age, p.role.GetOr(u.role))
  }

  /** The head of the message the unique index reports on a clash. */
  const DuplicateKey := "E11000 duplicate key error"

  /** The patch would give `id` a gmail another user already has. */
  predicate Clashes(users: Users, id: Id, p: UserPatch) {
    p.gmail.Some? && exists k :: k in users && k != id && users[k].gmail == p.gmail.value
  }

  /** `PUT /:id`: the updated user, hash included, or `null` when there is
      no such user. */
  function Update(users: Users, id: Id, p: UserPatch, h: Hasher): (r: Step<Option<User>, Users>)
    ensures id !in users ==> r == Step(Ok(200, None), users)
    ensures id in users && Clashes(users, id, p) ==> r == Step(Err(500, DuplicateKey), users)
    ensures id in users && !Clashes(users, id, p) ==>
      && id in r.state
      && r.response == Ok(200, Some(r.state[id]))
      && r.state == users[id := Apply(users[id], p, h)]
    ensures GmailsUnique(users) ==> GmailsUnique(r.state)
  {
    if id !in users then Step(Ok(200, None), users)
    else if Clashes(users, id, p) then Step(Err(500, DuplicateKey), users)
    else
      var v := Apply(users[id], p, h);
      UpdateKeepsGmailsUnique(users, id, v);
      Step(Ok(200, Some(v)), users[id := v])
  }

  /** Replacing a user by one whose gmail no other user has keeps gmails unique. */
  lemma UpdateKeepsGmailsUnique(users: Users, id: Id, v: User)
    requires id in users
    requires v.gmail == users[id].gmail || forall k :: k in users && k != id ==> users[k].gmail != v.gmail
    ensures GmailsUnique(users) ==> GmailsUnique(users[id := v])
  {
  }

  /** After a password change the new password logs in and the old one
      (when different in the eyes of bcrypt) no longer does. */
  lemma UpdatePasswordThenLogin(users: Users, id: Id, newPassword: string, oldPassword: string, h: Hasher)
    requires Sound(h) && GmailsUnique(users) && id in users && newPassword != ""
    requires !h.verify(oldPassword, h.hash(newPassword))
    ensures var after := Update(users, id, UserPatch(None, None, Some(newPassword), None, None, None), h).state;
            && GmailsUnique(after)
            && Login(after, users[id].gmail, newPassword, h).Ok?
            && Login(after, users[id].gmail, oldPassword, h) == Err(400, "Invalid credentials")
  {
    var p := UserPatch(None, None, Some(newPassword), None, None, None);
    var after := Update(users, id, p, h).state;
    assert !Clashes(users, id, p);
    assert after[id].gmail == users[id].gmail;
    assert after[id].password == h.hash(newPassword);
    assert OwnerOf(after, users[id].gmail) == Some(id);
    assert h.verify(newPassword, h.hash(newPassword));
  }

  /** `DELETE /:id`: success whether or not the user existed. */
  function Delete(users: Users, id: Id): (r: Step<string, Users>)
    ensures r.response == Ok(200, "User deleted successfully")
    ensures id !in r.state && r.state == users - {id}
    ensures id !in users ==> r.state == users
  {
    Step(Ok(200, "User deleted successfully"), users - {id})
  }

  /** After a deletion the user can no longer be fetched or log in. */
  lemma DeleteThenLookup(users: Users, id: Id, password: string, h: Hasher)
    requires GmailsUnique(users) && id in users
    ensures var after := Delete(users, id).state;
            && GetOne(after, id) == Err(404, "User not found")
            && GmailsUnique(after)
            && Login(after, users[id].gmail, password, h) == Err(400, "Invalid credentials")
  {
    var after := Delete(users, id).state;
    assert !GmailTaken(after, users[id].gmail);
  }
}
