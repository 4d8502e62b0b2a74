/** The documents of the record store, one datatype per Mongoose schema
    (Backend/models). Collection membership and identifiers live in the
    maps and sequences of each handler's state, not in the records. */
module Records {
  import opened Common
  import opened Text

  /** models/User.js. `role` is kept as the stored string because updates
      bypass the schema's enum check; `age` is absent when a create path
      did not supply one. */
  datatype User = User(
    name: string,
    gmail: string,
    password: string,
    profile: string,
    age: Option<int>,
    role: string)

  /** The gender values models/Learner.js admits. */
  datatype Gender = Male | Female | Other

  /** models/Learner.js, keyed in its collection by the owning user
      (the unique `user_id` index). */
  datatype LearnerDoc = LearnerDoc(
    gmail: string,
    age: Option<int>,
    gender: Gender,
    areaOfInterest: Option<string>,
    goal: Option<string>)

  /** models/Tutor.js, keyed in its collection by the owning user. */
  datatype Tutor = Tutor(
    age: Option<int>,
    domain: Option<string>,
    professional: Option<string>,
    workExperience: Option<string>)

  /** The session lifecycle states of models/Session.js. */
  datatype Status = Upcoming | Ongoing | Completed | Cancelled

  /** models/Session.js. `date` is the stored `Date` as a timestamp. */
  datatype Session = Session(
    tutor: Id,
    title: string,
    description: Option<string>,
    date: int,
    time: string,
    status: Status,
    learners: seq<Id>,
    meetingLink: Option<string>)

  /** A freshly saved session: the schema trims the title and description,
      defaults the status to Upcoming and starts with no learners and no link. */
  function NewSession(tutor: Id, title: string, description: Option<string>, date: int, time: string): (s: Session)
    ensures s.tutor == tutor && s.date == date && s.time == time
    ensures s.title == Trim(title)
    ensures description.None? <==> s.description.None?
    ensures description.Some? ==> s.description.value == Trim(description.value)
    ensures s.status == Upcoming && s.learners == [] && s.meetingLink == None
  {
    var d := match description
      case Some(t) => Some(Trim(t))
      case None => None;
    Session(tutor, Trim(title), d, date, time, Upcoming, [], None)
  }

  /** models/Registration.js. */
  datatype Registration = Registration(
    sessionId: Id,
    learnerId: Id,
    sessionDate: Option<string>,
    sessionTime: Option<string>)

  /** models/TestQuestion.js; `correctAnswer` indexes `options`, unchecked. */
  datatype Question = Question(
    subject: string,
    question: string,
    options: seq<string>,
    correctAnswer: int)

  /** A saved question: the schema lower-cases the subject and keeps the
      rest as given, with no bound check on `correctAnswer`. */
  function NewQuestion(subject: string, question: string, options: seq<string>, correctAnswer: int): (q: Question)
    ensures NoUpper(q.subject) && |q.subject| == |subject|
    ensures NoUpper(subject) ==> q.subject == subject
    ensures q.question == question && q.options == options && q.correctAnswer == correctAnswer
  {
    Question(Lower(subject), question, options, correctAnswer)
  }

  /** The user fields a projection may select. The password hash is not
      among them, so no projection can carry it. */
  datatype Field = Name | Gmail | Profile | Age | Role

  /** `select("-password")`: every field except the hash. */
  const AllButPassword: set<Field> := {Name, Gmail, Profile, Age, Role}

  /** A user as sent to a client: its id and the selected fields. A field
      that is not selected is absent, as it is from the JSON. */
  datatype UserView = UserView(
    id: Id,
    name: Option<string>,
    gmail: Option<string>,
    profile: Option<string>,
    age: Option<int>,
    role: Option<string>)

  /** Projects a stored user onto `fields`. */
  function Project(id: Id, u: User, fields: set<Field>): (v: UserView)
    ensures v.id == id
    ensures Name in fields <==> v.name == Some(u.name)
    ensures Gmail in fields <==> v.gmail == Some(u.gmail)
    ensures Profile in fields <==> v.profile == Some(u.profile)
    ensures Role in fields <==> v.role == Some(u.role)
    ensures v.age == (if Age in fields then u.age else None)
  {
    UserView(
      id,
      if Name in fields then Some(u.name) else None,
      if Gmail in fields then Some(u.gmail) else None,
      if Profile in fields then Some(u.profile) else None,
      if Age in fields then u.age else None,
      if Role in fields then Some(u.role) else None)
  }

  /** Sets the age of user `uid` when that user exists; every other user
      is left as it was. */
  function WithAge(users: map<Id, User>, uid: Id, age: Option<int>): (r: map<Id, User>)
    ensures r.Keys == users.Keys
    ensures uid in users ==> r[uid] == users[uid].(age := age)
    ensures forall k :: k in users && k != uid ==> r[k] == users[k]
  {
    if uid in users then users[uid := users[uid].(age := age)] else users
  }
}
