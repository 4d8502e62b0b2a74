# LearnLoop: the record-keeping rules, modelled in Dafny

LearnLoop is a tutoring platform. Tutors create sessions and run them as Jitsi meetings. Learners discover sessions, register for them, join them and take subject tests. The backend is an Express/Mongoose service and the frontend is a React app.

This project models the backend's record-keeping rules and the list logic of three learner pages. Each HTTP handler is a pure transition: it takes the store and the request and yields `Step(response, store')`. The response is either `Ok(status, body)` or `Err(status, message)`, with the handler's own status codes and message texts. Collections are maps from opaque ids to records, except the Registration collection, which is a sequence in the store's natural order.

One module per source file:

- `SessionLifecycle` (sessionController.js) covers:
  - session creation;
  - the embedded learner list with set semantics;
  - the date-sorted listings;
  - deletion;
  - the meeting lifecycle Upcoming → Ongoing → Completed.
- `RegistrationLedger` (registrationController.js) holds at most one record per learner/session pair.
- There are four profile variants, each kept as written rather than reconciled:
  - `LearnerRoutes` normalises gender and keeps the profile's age in step with the user's.
  - `TutorRoutes` keeps an old field wherever the new one is falsy, and also keeps ages in step.
  - `LearnerController` checks the role and answers a second create with a conflict.
  - `TutorController` checks the role and overwrites every field.
  - The two controllers, and the session handlers' learner lookup, use a `user` path the schemas do not declare. Each is modelled both as written and with the lookup on `user_id` (see Findings); the rest of the model uses the corrected form.
- `Accounts` holds what the two account handlers share. `UserRoutes` (userRoutes.js) and `UserController` (userController.js) build on it.
- `QuizBank` (testController.js) draws the sample of at most fifteen questions. The choice is modelled nondeterministically.
- `TestInterface`, `DiscoverSessions` and `MySessions` model the three frontend pages.
- `OwnerLookup` (models/Learner.js, models/Tutor.js) models how learner and tutor documents are built and found from a user id, on the declared `user_id` path and on the undeclared `user` path the handlers use.
- `Common`, `Text` and `Records` hold shared pieces:
  - JavaScript truthiness and `||`;
  - filtering and removal on sequences;
  - ASCII lower-casing and ECMAScript trimming;
  - `split(".")[0]` and decimal rendering;
  - the Mongoose schemas as datatypes.

The ObjectId a new document receives is a caller-supplied parameter `newId`, and so is the clock reading `now`. bcrypt is a `Hasher` pair of functions. The one assumption made about it is `Sound`: a password verifies against its own hash, and a hash is never empty.

Several statements go across modules:

- `DiscoverSessions.RegisterClickKeepsMirror` and `DiscoverSessions.UnregisterClickKeepsMirror` show that the page's list of registered ids stays in agreement with the registration ledger. This holds when the endpoints answer as registrationController.js does.
- `TestInterface.SearchFindsAddedQuestion` shows that the page's search key reaches a question stored through `addQuestion`, for every key that travels intact as one URL path segment.
- `MySessions.JoinMissesMeetingLink` shows that the room the MySessions page opens is never the link `startMeeting` issues.

## Model

| member | source | states |
|---|---|---|
| Common.OrInt | Backend/controllers/learnerController.js:35 | `v \|\| fallback` on numbers: the value when it is truthy (present and non-zero), the fallback otherwise; the result is truthy exactly when either operand is |
| Common.OrStr | Backend/routes/tutorRoutes.js:22-24 | `v \|\| fallback` on strings: the value when it is truthy (present and non-empty), the fallback otherwise; the result is truthy exactly when either operand is |
| Common.Filter | Frontend/src/pages/Learner/DiscoverSessions.jsx:85-96 | `Array.filter`: exactly the elements that pass, each with its count in the input, as a subsequence of the input in the same order |
| Common.RemoveAll | Backend/controllers/sessionController.js:96-98 | the filter that drops an id: no occurrence remains; every other element keeps its count and relative order; a list without the id is unchanged |
| Common.AddOnce | Backend/controllers/sessionController.js:73-75 | push when absent: afterwards the id is present, the old list is a prefix, and the list grows by at most one |
| Common.RemoveAllAppended | Backend/controllers/sessionController.js:73-98 | appending an absent id and then filtering it out gives back the original list |
| Common.RemoveAllNoDups | Backend/controllers/sessionController.js:96-98 | filtering out an id keeps a repeat-free list repeat-free |
| Text.Lower | Backend/controllers/testController.js:9 | `toLowerCase` on ASCII: same length, no upper-case letter left, each character lowered on its own |
| Text.LowerOfLower | Backend/models/TestQuestion.js:7 | text without upper-case letters is its own lower case |
| Text.LowerIdempotent | Backend/models/TestQuestion.js:4-8 | lower-casing twice is lower-casing once, so a stored subject matches itself |
| Text.TrimStart | Backend/models/Session.js:11-19 | the result is a suffix of the input; everything removed is whitespace; the result does not start with whitespace |
| Text.TrimEnd | Backend/models/Session.js:11-19 | the result is a prefix of the input; everything removed is whitespace; the result does not end with whitespace |
| Text.Trim | Frontend/src/pages/Learner/TestInterface.jsx:16 | `trim()`: empty exactly when the input is all whitespace; otherwise neither end is whitespace |
| Text.TrimmedEmpty | Frontend/src/pages/Learner/TestInterface.jsx:16-17 | trimming both ends leaves nothing exactly when the text is all whitespace; otherwise the result starts with a non-space |
| Text.ContainsEmpty | Frontend/src/pages/Learner/DiscoverSessions.jsx:86 | `includes("")` holds for every string |
| Text.BeforeFirstDot | Frontend/src/pages/Learner/DiscoverSessions.jsx:42 | `split(".")[0]`: a dot-free prefix that ends at the first '.' and is the whole string when there is no '.' |
| Text.DecimalString | Backend/controllers/sessionController.js:152 | the decimal rendering of the timestamp: non-empty and digits only, one digit exactly below ten |
| Text.ParseDecimalString | Backend/controllers/sessionController.js:152 | reading the rendered digits back yields the number |
| Text.DecimalStringInjective | Backend/controllers/sessionController.js:152 | different timestamps render differently |
| Records.NewSession | Backend/models/Session.js:4-43 | a saved session: title and description trimmed; status Upcoming; no learners and no link |
| Records.NewQuestion | Backend/models/TestQuestion.js:4-8 | a saved question: the subject lower-cased, with the same length; question, options and correct answer kept as given |
| Records.Project | Backend/routes/userRoutes.js:68 | a user projected onto a field set: each field present exactly when selected; the hash is never carried |
| Records.WithAge | Backend/routes/learnerRoutes.js:28-31 | sets one user's age; the key set and every other user are unchanged |
| SessionLifecycle.CreateSession | Backend/controllers/sessionController.js:7-27 | 400 "Invalid tutor" with the store unchanged for an unknown tutor; otherwise 201 and exactly one new session is added: the saved form of the request, holding the given tutor, date and time, the trimmed title, the trimmed description (absent when none was sent), status Upcoming, no learners and no link |
| SessionLifecycle.RegisterLearner | Backend/controllers/sessionController.js:63-82 | with the learner looked up by its `user_id` (see Findings): 404 for a missing session, then for a missing learner, with no change; otherwise the learner is on the list, the old list is a prefix, it grew by at most one, and nothing else changed |
| SessionLifecycle.UnregisterLearner | Backend/controllers/sessionController.js:85-105 | 404 when the session or the learner is missing; otherwise no occurrence of the learner remains; the others keep their counts and order; an absent learner is a no-op |
| SessionLifecycle.RegisterIdempotent | Backend/controllers/sessionController.js:73-76 | a second registration of the same learner returns the same answer and changes nothing |
| SessionLifecycle.RegisterUnregisterRoundTrip | Backend/controllers/sessionController.js:63-105 | registering a learner who was not on the list and then unregistering them restores the store |
| SessionLifecycle.InsertPos | Backend/controllers/sessionController.js:38 | the place of a date in a date-sorted list: after every entry dated no later and before every entry dated later |
| SessionLifecycle.InsertAt | Backend/controllers/sessionController.js:38 | placing an entry at a position keeps the entries before and after it and adds exactly that entry |
| SessionLifecycle.InsertKeepsListing | Backend/controllers/sessionController.js:38 | inserting at that place keeps the list sorted by date and free of repeated ids |
| SessionLifecycle.Find | Backend/controllers/sessionController.js:33-38 | `find(filter).sort({ date: 1 })`: exactly the sessions the filter selects, each once, ascending by date |
| SessionLifecycle.GetAllSessions | Backend/controllers/sessionController.js:47-60 | 200 with every session, ascending by date |
| SessionLifecycle.GetTutorSessions | Backend/controllers/sessionController.js:30-44 | 200 with exactly the tutor's sessions, ascending by date |
| SessionLifecycle.GetLearnerSessions | Backend/controllers/sessionController.js:108-126 | 404 "Learner not found" without a learner profile; otherwise exactly the sessions listing the learner, ascending by date |
| SessionLifecycle.DeleteSession | Backend/controllers/sessionController.js:129-141 | 404 when absent; otherwise exactly that session is removed and every other one is unchanged |
| SessionLifecycle.MeetingLink | Backend/controllers/sessionController.js:152 | the link is the Jitsi host, the session id and a '-', followed by the decimal rendering of the clock reading |
| SessionLifecycle.MeetingLinkFresh | Backend/controllers/sessionController.js:152 | two starts of one session at different times issue different links |
| SessionLifecycle.StartMeeting | Backend/controllers/sessionController.js:144-165 | 404 when absent; otherwise, from any status, the answer is the link built from the id and the clock reading, the session is Ongoing and holds that link, and nothing else changes |
| SessionLifecycle.JoinMeeting | Backend/controllers/sessionController.js:168-186 | never changes the store; 404 when absent; 400 "Meeting not started yet by tutor" while no link is set; otherwise the stored link |
| SessionLifecycle.EndMeeting | Backend/controllers/sessionController.js:189-203 | 404 when absent; otherwise the session is Completed from any status, the message quotes its title, and nothing else changes |
| SessionLifecycle.StartThenJoin | Backend/controllers/sessionController.js:152-181 | joining right after a start returns exactly the link that start issued |
| SessionLifecycle.JoinBeforeStart | Backend/controllers/sessionController.js:175-177 | a freshly created session cannot be joined |
| SessionLifecycle.Lifecycle | Backend/controllers/sessionController.js:155-196 | create, start and end take a session through Upcoming, Ongoing and Completed, and the link survives the end |
| SessionLifecycle.RegisterKeepsLearnerSets | Backend/controllers/sessionController.js:73-76 | registering keeps each session's learner list free of repeats |
| SessionLifecycle.UnregisterKeepsLearnerSets | Backend/controllers/sessionController.js:96-98 | unregistering keeps each session's learner list free of repeats |
| SessionLifecycle.HandlersKeepLearnerSets | Backend/controllers/sessionController.js:73-98 | every handler keeps each session's learner list free of repeats |
| SessionLifecycle.RegisterLearnerAsWrittenNotFound | Backend/controllers/sessionController.js:67-71 | as written, the lookup on `user` finds no stored learner, so registering for an existing session always answers 404 "Learner not found" and changes no session |
| SessionLifecycle.UnregisterLearnerAsWrittenNotFound | Backend/controllers/sessionController.js:89-94 | as written, every unregistration answers 404 "Session or learner not found" and changes no session |
| SessionLifecycle.GetLearnerSessionsAsWritten | Backend/controllers/sessionController.js:110-113 | as written, every listing of a learner's sessions answers 404 "Learner not found" |
| SessionLifecycle.RegisterByUserIdSucceeds | Backend/models/Learner.js:5 | with the lookup on `user_id`, a user who has a stored learner document is registered, and that document's id joins the session's list |
| RegistrationLedger.FindPair | Backend/controllers/registrationController.js:8 | `findOne({ learnerId, sessionId })`: the first matching record, or none exactly when no record matches |
| RegistrationLedger.Register | Backend/controllers/registrationController.js:4-17 | 409 with the ledger unchanged when the pair is recorded; otherwise 200 and exactly one record with the four given fields is appended |
| RegistrationLedger.Unregister | Backend/controllers/registrationController.js:20-31 | 404 with the ledger unchanged when the pair is absent; otherwise exactly the first matching record is deleted and the rest keep their order |
| RegistrationLedger.RegisterKeepsPairsUnique | Backend/controllers/registrationController.js:8-13 | register keeps at most one record per learner/session pair |
| RegistrationLedger.UnregisterClearsPair | Backend/controllers/registrationController.js:24-28 | with pairs unique, unregister keeps them unique and no record of the pair survives |
| RegistrationLedger.RegisterUnregisterRoundTrip | Backend/controllers/registrationController.js:4-31 | registering a new pair and then unregistering it restores the ledger |
| RegistrationLedger.RegisterTwiceConflicts | Backend/controllers/registrationController.js:8-9 | a second registration of a pair answers 409 and changes nothing |
| LearnerRoutes.NormaliseGender | Backend/routes/learnerRoutes.js:17-19 | "Male" and "Female" are kept; every other value, including a missing one, becomes Other |
| LearnerRoutes.Upsert | Backend/routes/learnerRoutes.js:8-58 | 400 without a user id and 404 for an unknown user, with no change. An existing learner gets gender, interest and goal overwritten, even with missing values, and answers 200. A new learner copies the user's gmail, takes `age \|\| user.age` and answers 201. A truthy age lands on both the learner and the user. Only that user's learner and user change |
| LearnerRoutes.UpsertSyncsAge | Backend/routes/learnerRoutes.js:28-31 | an upsert with an age leaves learner and user with the same age |
| LearnerRoutes.UpsertTwiceKeepsOneProfile | Backend/routes/learnerRoutes.js:21-35 | two upserts for one user leave one learner for that user, answering 200 the second time and carrying the second request's fields |
| LearnerRoutes.UpdateAge | Backend/routes/learnerRoutes.js:61-85 | 400 without an age, then 404 without a learner, then 404 without a user; otherwise both records take the age and nothing else changes |
| LearnerRoutes.DeleteAccount | Backend/routes/learnerRoutes.js:88-104 | afterwards neither the learner nor the user exists; 404 exactly when the user was missing, after the learner has already gone |
| LearnerRoutes.GetByUser | Backend/routes/learnerRoutes.js:107-122 | 404 "Learner not found" exactly when the user has no learner; otherwise the learner with the user's name, profile, role, age and gmail |
| LearnerRoutes.UpsertThenGet | Backend/routes/learnerRoutes.js:8-122 | the learner a successful upsert stores is the one the lookup by user returns, with the requested gender, interest and goal, the requested age when truthy, and the updated user joined |
| LearnerRoutes.DeleteThenGetNotFound | Backend/routes/learnerRoutes.js:88-122 | after an account deletion, the lookup by user answers 404 "Learner not found" |
| TutorRoutes.Upsert | Backend/routes/tutorRoutes.js:10-54 | 400 and 404 "User not found!" with no change. An existing tutor keeps each text field the request leaves falsy, replaces the others and answers 200. A new tutor takes `age \|\| user.age` and answers 201. A truthy age lands on both the tutor and the user |
| TutorRoutes.EmptyUpdateKeepsTutor | Backend/routes/tutorRoutes.js:21-31 | an update with no truthy field changes nothing |
| TutorRoutes.UpdateAge | Backend/routes/tutorRoutes.js:59-83 | 400 without an age, then 404 without a tutor, then 404 without a user; otherwise both records take the age |
| TutorRoutes.DeleteAccount | Backend/routes/tutorRoutes.js:88-104 | afterwards neither the tutor nor the user exists; 404 exactly when the user was missing |
| TutorRoutes.DeleteAccountIdempotent | Backend/routes/tutorRoutes.js:93-96 | deleting twice leaves the store that deleting once leaves |
| TutorRoutes.GetByUser | Backend/routes/tutorRoutes.js:122-135 | 404 "Tutor not found" exactly when the user has no tutor; otherwise the tutor with the user's name, gmail, role and age |
| TutorRoutes.UpsertThenGet | Backend/routes/tutorRoutes.js:10-135 | the tutor a successful upsert stores is the one the lookup by user returns, with a truthy requested domain and age, and the updated user joined |
| TutorRoutes.DeleteThenGetNotFound | Backend/routes/tutorRoutes.js:88-135 | after an account deletion, the lookup by user answers 404 "Tutor not found" |
| LearnerController.CreateLearner | Backend/controllers/learnerController.js:5-24 | 400 for a missing user or a role other than "learner"; 409 when a profile exists; both leave the store unchanged. Otherwise 201 and exactly one profile with the given age and interest is added |
| LearnerController.CreateTwiceConflicts | Backend/controllers/learnerController.js:14-15 | a second create for the same user answers 409 and changes nothing, so no user gets two profiles |
| LearnerController.UpdateLearner | Backend/controllers/learnerController.js:27-43 | 404 without a profile; otherwise age and interest are replaced only by truthy values, and no other profile changes |
| LearnerController.GetLearnerByUserId | Backend/controllers/learnerController.js:46-56 | 404 exactly when there is no profile; otherwise the profile with its user joined without the hash |
| LearnerController.CreateThenGet | Backend/controllers/learnerController.js:5-56 | a created profile is what the lookup by user then returns, with the user joined without the hash |
| LearnerController.UpdateThenGet | Backend/controllers/learnerController.js:27-56 | the lookup after an update returns the updated profile: `age \|\| old age` and `interest \|\| old interest` |
| LearnerController.CreateLearnerAsWrittenNeverSucceeds | Backend/controllers/learnerController.js:14-18 | as written, no request creates a learner: the conflict check finds nothing, and a learner user always gets the validation error with the collection unchanged |
| TutorController.CreateOrUpdate | Backend/controllers/tutorController.js:5-34 | 400 for a missing user or a non-tutor role, with no change. Otherwise all four fields are overwritten with the given values, even missing ones. The answer is 200 when a profile existed and 201 when one is created. There is at most one profile per user |
| TutorController.CreateOrUpdateIdempotent | Backend/controllers/tutorController.js:17-24 | repeating a request changes nothing more and answers 200 |
| TutorController.GetTutorByUserId | Backend/controllers/tutorController.js:37-45 | 404 exactly when there is no profile; otherwise the profile with the user's name and age, and no gmail |
| TutorController.DeleteTutor | Backend/controllers/tutorController.js:48-60 | 404 with the user intact when there is no profile; otherwise both the profile and the user are removed |
| TutorController.CreateOrUpdateThenGet | Backend/controllers/tutorController.js:5-45 | whatever create-or-update stores, the lookup by user then returns, with name and age joined |
| TutorController.DeleteThenGetNotFound | Backend/controllers/tutorController.js:37-60 | after a successful delete the lookup by user answers 404, and a second delete is refused |
| TutorController.CreateOrUpdateAsWrittenNeverSucceeds | Backend/controllers/tutorController.js:15-29 | as written, the update branch is never taken and no tutor is created: a tutor user always gets the validation error with the collection unchanged |
| OwnerLookup.Build | Backend/models/Learner.js:3-13 | a new document keeps the declared `user_id` it is given and never carries the undeclared `user` |
| OwnerLookup.FindOne | Backend/controllers/sessionController.js:70 | `findOne(filter)`: none exactly when no document passes; otherwise a stored document that passes |
| OwnerLookup.ByUserFindsNothing | Backend/controllers/sessionController.js:70 | over documents saved through the schema, `findOne({ user: u })` finds nothing for every `u` |
| OwnerLookup.ByUserIdFindsOwner | Backend/routes/learnerRoutes.js:22 | `findOne({ user_id: u })` finds a document of `u` whenever one is stored |
| OwnerLookup.BuiltWithUserIsInvalid | Backend/models/Tutor.js:5 | a document built with `user` and no `user_id` fails the required check |
| OwnerLookup.Index | Backend/controllers/sessionController.js:70-71 | the lookup's result as the handlers read it: an entry for the user exactly when a document was found, holding that document's id |
| Accounts.OwnerOf | Backend/routes/userRoutes.js:42 | `findOne({ gmail })` under the unique index: the single owner of the gmail, or none exactly when no user has it |
| Accounts.AddKeepsGmailsUnique | Backend/models/User.js:9-13 | adding a user under a fresh id with an unused gmail keeps gmails unique |
| Accounts.Save | Backend/models/User.js:3-33 | a save passes the schema's required and enum checks and adds exactly the new user, or fails with the store unchanged |
| UserRoutes.NewUser | Backend/routes/userRoutes.js:19-27 | the stored password is the hash of the given one; profile defaults to ""; the other fields are as given |
| UserRoutes.Register | Backend/routes/userRoutes.js:8-34 | 400 "User already exists" with no change for a taken gmail; otherwise the user is added under the hash of the password; gmails stay unique |
| UserRoutes.Login | Backend/routes/userRoutes.js:37-63 | succeeds exactly when the gmail's owner's hash verifies the password, returning that user's id, name, gmail, profile, age and role. For a gmail and a password both sent as strings, every failure is the same 400 "Invalid credentials" |
| UserRoutes.RegisterThenLogin | Backend/routes/userRoutes.js:8-63 | after a valid registration, a login with the same gmail and password succeeds and returns the new user without its hash |
| UserRoutes.GetAll | Backend/routes/userRoutes.js:66-73 | every user, each with all fields except the hash |
| UserRoutes.GetOne | Backend/routes/userRoutes.js:76-84 | 404 exactly when absent; otherwise that user's entry in the list |
| UserRoutes.Apply | Backend/routes/userRoutes.js:92-96 | supplied fields replace stored ones; a truthy password is stored as its hash; an empty one is stored as given |
| UserRoutes.Update | Backend/routes/userRoutes.js:87-101 | an unknown id answers `null` and changes nothing; a gmail clash is refused by the unique index; otherwise the patched user replaces the stored one and gmails stay unique |
| UserRoutes.UpdateKeepsGmailsUnique | Backend/models/User.js:9-13 | replacing a user keeps gmails unique when the gmail is unchanged or used by no other user |
| UserRoutes.UpdatePasswordThenLogin | Backend/routes/userRoutes.js:92-96 | after a password change the new password logs in and a password that does not verify against the new hash is refused |
| UserRoutes.Delete | Backend/routes/userRoutes.js:104-111 | always 200; afterwards the user is absent and every other user is unchanged |
| UserRoutes.DeleteThenLookup | Backend/routes/userRoutes.js:76-111 | after deletion the user can be neither fetched nor logged in |
| UserController.CreateWithAge | Backend/controllers/userController.js:5-25 | 400 when name, gmail, password or role is falsy; 400 for a taken gmail; errors change nothing; a success stores the hash of the password |
| UserController.CreateUser | Backend/controllers/userController.js:5-25 | as written: the two 400 answers, and otherwise a failed save, because no age is passed |
| UserController.CreateUserNeverSucceeds | Backend/controllers/userController.js:18-19 | no request to the handler as written ever stores a user |
| UserController.CreateWithAgeSucceeds | Backend/controllers/userController.js:16-21 | with an age passed, a complete request for a new gmail is stored under a hash that verifies the password |
| UserController.LoginUser | Backend/controllers/userController.js:28-41 | succeeds exactly when the gmail's owner's hash verifies the password, returning the stored record. For a gmail and a password both sent as strings, every failure is the same 401 "Invalid email or password" |
| UserController.CreateThenLogin | Backend/controllers/userController.js:5-41 | a created user logs in with the same gmail and password and gets the stored record back |
| QuizBank.Matching | Backend/controllers/testController.js:9 | the questions whose stored subject equals the lower-cased request subject |
| QuizBank.GetTestBySubject | Backend/controllers/testController.js:4-21 | 404 "No test found for this subject" exactly when nothing matches. Otherwise min(15, matches) distinct questions, each stored under its id and on the lower-cased subject |
| QuizBank.AddQuestion | Backend/controllers/testController.js:24-40 | 201; exactly one question is added, with the subject lower-cased and the rest as given (no bound check on the answer index) |
| QuizBank.AddThenMatched | Backend/models/TestQuestion.js:4-8 | an added question is matched by a request for its subject in any casing and by its stored subject; earlier matches stay |
| TestInterface.ReplyOf | Frontend/src/pages/Learner/TestInterface.jsx:21-29 | axios resolves the 200 array with the questions in order and rejects an error status |
| TestInterface.SearchKey | Frontend/src/pages/Learner/TestInterface.jsx:16 | the key has no upper case and is empty exactly when the typed subject is all whitespace |
| TestInterface.HandleSearch | Frontend/src/pages/Learner/TestInterface.jsx:15-35 | an empty key requests nothing and changes nothing. A non-empty array loads the test and clears the answers. An empty array or non-array data empties the test. A rejection changes nothing |
| TestInterface.NoTestKeepsOldTest | Frontend/src/pages/Learner/TestInterface.jsx:21-31 | the not-found reply, which the endpoint sends exactly when nothing matches, leaves every page untouched, whatever test it showed |
| TestInterface.NoTestKeepsOldTestExample | Frontend/src/pages/Learner/TestInterface.jsx:21-31 | a concrete page whose loaded test survives a search for an unknown subject |
| TestInterface.HandleSearchFixed | Frontend/src/pages/Learner/TestInterface.jsx:22-28 | reads the not-found status as the empty result and otherwise agrees with the handler |
| TestInterface.NoTestClearsTest | Frontend/src/pages/Learner/TestInterface.jsx:25-27 | with the fix the not-found reply empties the test of any page whose subject is not blank |
| TestInterface.SearchFindsAddedQuestion | Frontend/src/pages/Learner/TestInterface.jsx:16-21 | when the key holds no '/', '?', '#' or '%', so that it reaches the `/:subject` route intact, the page's key reaches a question added under the typed subject in any casing and with surrounding blanks |
| TestInterface.HandleAnswer | Frontend/src/pages/Learner/TestInterface.jsx:38-40 | records one choice, overwriting an earlier one; every other answer is kept |
| TestInterface.CorrectIndices | Frontend/src/pages/Learner/TestInterface.jsx:46 | the indices whose answer equals the question's correct answer |
| TestInterface.CalculateScore | Frontend/src/pages/Learner/TestInterface.jsx:43-49 | the number of correctly answered questions, at most the number of questions |
| TestInterface.EmptySheetScoresZero | Frontend/src/pages/Learner/TestInterface.jsx:24 | no answers score zero |
| TestInterface.PerfectSheetScoresAll | Frontend/src/pages/Learner/TestInterface.jsx:43-49 | all answers correct score the test's length |
| TestInterface.AnswerMovesScore | Frontend/src/pages/Learner/TestInterface.jsx:38-49 | a correct choice adds exactly that question to the correct set; a wrong one removes exactly it |
| TestInterface.NewTestScoresZero | Frontend/src/pages/Learner/TestInterface.jsx:22-24 | a freshly loaded test scores zero |
| DiscoverSessions.Filtered | Frontend/src/pages/Learner/DiscoverSessions.jsx:85-88 | exactly the cards whose topic or tutor name contains the query ignoring case, in order |
| DiscoverSessions.InterestSessions | Frontend/src/pages/Learner/DiscoverSessions.jsx:90-92 | exactly the filtered cards whose topic contains the interest, in order; none when the interest is empty |
| DiscoverSessions.OtherSessions | Frontend/src/pages/Learner/DiscoverSessions.jsx:94-96 | exactly the filtered cards not among the interest ones, in order |
| DiscoverSessions.FilterKeepsAll | Frontend/src/pages/Learner/DiscoverSessions.jsx:85-88 | a filter every element passes is the identity |
| DiscoverSessions.FilterAgree | Frontend/src/pages/Learner/DiscoverSessions.jsx:94-96 | filters with predicates agreeing on the elements coincide |
| DiscoverSessions.FilterSplits | Frontend/src/pages/Learner/DiscoverSessions.jsx:90-96 | a predicate and its negation split the elements with their counts |
| DiscoverSessions.EmptyQueryKeepsAll | Frontend/src/pages/Learner/DiscoverSessions.jsx:85-88 | an empty query keeps every card in order |
| DiscoverSessions.OtherIsComplement | Frontend/src/pages/Learner/DiscoverSessions.jsx:94-96 | the other list is the filtered list with the interest test negated |
| DiscoverSessions.Partition | Frontend/src/pages/Learner/DiscoverSessions.jsx:90-96 | interest and other lists are disjoint, together hold each filtered card as often as it occurs, and keep the filtered order |
| DiscoverSessions.InterestOf | Frontend/src/pages/Learner/DiscoverSessions.jsx:27 | the stored interest is the lower-cased profile interest, or "" when it is missing |
| DiscoverSessions.TrimmedTime | Frontend/src/pages/Learner/DiscoverSessions.jsx:100 | a dot-free prefix of the session time that ends at its first '.', the whole time without a '.' |
| DiscoverSessions.Payload | Frontend/src/pages/Learner/DiscoverSessions.jsx:41-49 | the sent record carries the learner, the card's id and date and the trimmed time |
| DiscoverSessions.AfterRegister | Frontend/src/pages/Learner/DiscoverSessions.jsx:51-58 | a successful register appends exactly the id after the old list; a failed one changes nothing |
| DiscoverSessions.AfterUnregister | Frontend/src/pages/Learner/DiscoverSessions.jsx:71-82 | a successful unregister removes every occurrence and keeps every other id with its count and in order; a failed one changes nothing |
| DiscoverSessions.CardButton | Frontend/src/pages/Learner/DiscoverSessions.jsx:138-152 | the card offers Unregister exactly when its id is registered |
| DiscoverSessions.ButtonFollowsCalls | Frontend/src/pages/Learner/DiscoverSessions.jsx:54-152 | a successful register turns the button to Unregister and a successful unregister turns it back |
| DiscoverSessions.FoundIff | Backend/controllers/registrationController.js:8 | a pair is found exactly when some record matches it |
| DiscoverSessions.RegisterClickKeepsMirror | Frontend/src/pages/Learner/DiscoverSessions.jsx:41-58 | with the endpoint answering as registerSession, a Register click keeps the page's ids equal to the ledger's sessions for the learner |
| DiscoverSessions.UnregisterKeepsOthers | Backend/controllers/registrationController.js:24-28 | deleting one pair's record leaves every other session of the learner findable as before |
| DiscoverSessions.UnregisterClickKeepsMirror | Frontend/src/pages/Learner/DiscoverSessions.jsx:61-82 | with unique pairs and the endpoint answering as unregisterSession, an Unregister click keeps the page's ids equal to the ledger's sessions for the learner |
| MySessions.ToCard | Frontend/src/pages/Learner/MySessions.jsx:25-30 | id and date copied; topic falls back to "Session #" + id when falsy and is never empty; the time is a dot-free prefix ending at the first '.', the whole time without one |
| MySessions.ToCards | Frontend/src/pages/Learner/MySessions.jsx:25-30 | one card per row, same length and order, each card exactly the card of its row |
| MySessions.ToCardsAppend | Frontend/src/pages/Learner/MySessions.jsx:25 | mapping a concatenation maps each part |
| MySessions.RoomName | Frontend/src/pages/Learner/MySessions.jsx:40 | the room is "tutor-session-" followed by the id |
| MySessions.JoinUrl | Frontend/src/pages/Learner/MySessions.jsx:41 | the Jitsi host followed by the room name |
| MySessions.RoomNameInjective | Frontend/src/pages/Learner/MySessions.jsx:40 | different sessions open different rooms |
| MySessions.JoinMissesMeetingLink | Frontend/src/pages/Learner/MySessions.jsx:39-41 | for an id not starting with 't' (an ObjectId is hexadecimal), the opened room is never the link startMeeting issued |

## Left out

- Express routing, middleware, `Backend/server.js` and the wiring files `sessionRoutes.js`, `registrationRoutes.js` and `testRoutes.js`: the handlers are modelled as called with already parsed parameters (Backend/server.js itself mounts only the user routes). URL parsing and percent-decoding of path segments are not modelled. `endMeeting` is modelled although no route exposes it, and so are learnerController.js, tutorController.js and userController.js, which no route file mounts.
- The catch-all 500 answers (and the registration controller's 400 on an exception): driver failures are outside the model. So are CastErrors for malformed ObjectIds: ids are opaque strings.
- Schema validation on saves of Session, Registration, Learner, Tutor and TestQuestion documents: those saves are taken to succeed. Only the User schema's required fields and role enum are checked (`Accounts.Save`), because they decide whether userController.js can ever create a user.
- TutorController.CreateOrUpdate: a request missing one of the four fields would fail the required checks of models/Tutor.js and answer 500; the model stores it.
- TutorRoutes.Upsert: a new tutor missing domain, professional or work experience would fail the same checks; the model stores it.
- LearnerController.CreateLearner: the corrected handler keys profiles by owner and stores `{ age, interest }` as the controller intends. As written, the document cannot be saved (see Findings); in addition, `age` and `interest` are not paths of models/Learner.js, which declares `Age` and `areaOfInterest`.
- SessionLifecycle.RegisterLearner, SessionLifecycle.UnregisterLearner and SessionLifecycle.GetLearnerSessions: these read `learnerOfUser`, the lookup on `user_id`, rather than the `user` filter the source writes (see Findings). With strictQuery on, that filter is stripped to `{}` and the first learner of the collection is used; that behaviour is not modelled. The as-written halves assume strictQuery off. Backend/server.js does not set the option, and the Mongoose version is not part of this model.
- LearnerController.UpdateLearner, LearnerController.GetLearnerByUserId, TutorController.GetTutorByUserId and TutorController.DeleteTutor: as written, these use the same `user` filter and always answer 404 (`OwnerLookup.ByUserFindsNothing`). The model states the corrected, keyed-by-owner behaviour only.
- LearnerController.CreateLearnerAsWrittenNeverSucceeds, TutorController.CreateOrUpdateAsWrittenNeverSucceeds: the exact 500 these state assumes strictQuery off, as for the session handlers. With strictQuery on, the `user` filter becomes `{}`: when any document exists, createLearner answers 409 and createOrUpdateTutor rewrites whichever tutor comes first. Neither case is modelled.
- TestInterface.SearchFindsAddedQuestion: the page builds the URL from the key without encoding it. A key with '/' (the placeholder's own "UI/UX") matches no route, and the page keeps its old test. A key with '#' or '?' is cut there ("c#" asks for "c"), and '%' starts an escape. The lemma is stated for keys free of those four characters only.
- The `createdAt` and `updatedAt` timestamps that every schema adds (`timestamps: true`): records carry neither, so the user lists and the stored documents omit them.
- UserRoutes.GetAll: `User.find()` returns an array in the store's order. The model returns a map from id to user, which states the contents but not the order.
- TutorController.GetTutorByUserId: the populate asks for `email`, which User has no field for; the model joins name and age only.
- Populate joins in the session listings (tutor name, learner details): the listings return the stored sessions.
- The success messages some handlers send next to the record ("Registered successfully", "Profile updated successfully" and similar): bodies carry the record only, except where the message is the whole body.
- UserRoutes.Update: the full E11000 message text is the driver's; the model keeps its head. Fields sent as `null` are not modelled.
- UserRoutes.Login, UserController.LoginUser: requests without a gmail or password are not modelled. For a stored gmail and no password, bcryptjs rejects `compare(undefined, hash)` with "Illegal arguments", and the catch answers 500 rather than the 400 or 401 of a wrong password.
- UserRoutes.Register: requests without a gmail or password are not modelled; what `findOne` does with an undefined filter value and what bcrypt does with an undefined password are outside the model.
- `GET /` on learnerRoutes.js and tutorRoutes.js (list every profile with its user): not part of the modelled operations.
- ObjectId generation: a caller-supplied fresh id. The `$sample` distribution: a nondeterministic choice of distinct matches.
- bcrypt: an uninterpreted hash/verify pair; its random salt is not modelled.
- `Date.now()`: the `now` parameter. The session `date` is an integer timestamp; casting a request value to a Date is not modelled.
- The lost-update race on `session.learners` between concurrent requests: each request is one atomic transition.
- Text.Lower: lower-cases ASCII letters only; JavaScript's `toLowerCase` also folds non-ASCII letters.
- The `trim` setter on `meetingLink`: the issued link has no surrounding whitespace.
- Frontend state not listed above (loading flags, alerts, `localStorage`, `window.open`, the initial `Promise.all` fetch of DiscoverSessions) and every other page and component: rendering and I/O.

## Findings

| source | as written | input that shows it | evidently intended | confidence | as-written member | corrected member |
|---|---|---|---|---|---|---|
| Backend/controllers/userController.js:7-19 | the new user is built from name, gmail, password, profile and role only, while models/User.js:22-25 makes `age` required, so every save fails validation | any complete request for a new gmail, e.g. name "a", gmail "a@x", password "p", role "learner" | the handler stores the user and answers 201 | high that validation rejects it; not executed | UserController.CreateUser, UserController.CreateUserNeverSucceeds | UserController.CreateWithAge, UserController.CreateWithAgeSucceeds |
| Frontend/src/pages/Learner/TestInterface.jsx:21-31 | the backend answers 404 when no question matches (testController.js:13-15); axios rejects it, so the catch keeps the previously loaded test and the "No test found" branch is never taken | a page showing a test, the subject "Rust" typed, and a bank with no "rust" questions | the old test is cleared and "No test found for this subject." is shown | medium; not executed | TestInterface.HandleSearch, TestInterface.NoTestKeepsOldTestExample | TestInterface.HandleSearchFixed, TestInterface.NoTestClearsTest |
| Backend/controllers/sessionController.js:70-71 | registerLearner, unregisterLearner (line 90) and getLearnerSessions (line 112) find the learner with `Learner.findOne({ user: learnerId })`. models/Learner.js:5 names the owner `user_id`, and learnerRoutes.js:22 and the saves keep only that path, so with strictQuery off no stored learner matches | any stored learner, e.g. one saved by the `POST /` handler of learnerRoutes.js for user "u1", then registerLearner with an existing session and learnerId "u1": 404 "Learner not found" | the learner owned by the user is found through `user_id` and registered | medium, since it depends on strictQuery being off; not executed | SessionLifecycle.RegisterLearnerAsWritten, SessionLifecycle.RegisterLearnerAsWrittenNotFound, SessionLifecycle.UnregisterLearnerAsWrittenNotFound, SessionLifecycle.GetLearnerSessionsAsWritten | SessionLifecycle.RegisterLearner, SessionLifecycle.RegisterByUserIdSucceeds, OwnerLookup.ByUserIdFindsOwner |
| Backend/controllers/learnerController.js:14-18 | createLearner builds `new Learner({ user, age, interest })`. models/Learner.js:5-6 require `user_id` and `gmail`, and strict mode drops `user`, so every save fails validation. The same holds for createOrUpdateTutor (tutorController.js:15-29) against models/Tutor.js:5 | a user "u2" with role "learner" and no profile, then createLearner with user_id "u2": 500 with the validation error | the profile is created and answers 201 | high that validation rejects it; not executed | LearnerController.CreateLearnerAsWritten, LearnerController.CreateLearnerAsWrittenNeverSucceeds, TutorController.CreateOrUpdateAsWritten, TutorController.CreateOrUpdateAsWrittenNeverSucceeds | LearnerController.CreateLearner, LearnerController.CreateThenGet, TutorController.CreateOrUpdate, TutorController.CreateOrUpdateThenGet |
