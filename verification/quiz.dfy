/** Backend/controllers/testController.js: drawing a test of up to fifteen
    questions on a subject, matched against the lower-cased request subject,
    and adding a question to the bank. */
module QuizBank {
  import opened Common
  import opened Text
  import opened Records

  /** The TestQuestion collection, keyed by ObjectId. */
  type Bank = map<Id, Question>

  /** The size of the `$sample` stage. */
  const SampleSize := 15

  /** The ids of the stored questions a request for `subject` matches. */
  function Matching(bank: Bank, subject: string): (m: set<Id>)
    ensures forall k :: k in m <==> k in bank && bank[k].subject == Lower(subject)
  {
    set k | k in bank.Keys && bank[k].subject == Lower(subject)
  }

  /** getTestBySubject. The sample is drawn in an order and from a subset
      the model leaves open: any choice of distinct matching questions of
      the right size is a possible answer. */
  method GetTestBySubject(bank: Bank, subject: string) returns (r: Response<seq<(Id, Question)>>)
    ensures Matching(bank, subject) == {} <==> r == Err(404, "No test found for this subject")
    ensures r.Ok? ==> r.status == 200
    ensures r.Ok? ==> |r.body| == if |Matching(bank, subject)| < SampleSize then |Matching(bank, subject)| else SampleSize
    ensures r.Ok? ==> forall i :: 0 <= i < |r.body| ==>
      r.body[i].0 in bank && r.body[i].1 == bank[r.body[i].0] && r.body[i].1.subject == Lower(subject)
    ensures r.Ok? ==> forall i, j :: 0 <= i < j < |r.body| ==> r.body[i].0 != r.body[j].0
  {
    var matching := Matching(bank, subject);
    if matching == {} {
      return Err(404, "No test found for this subject");
    }
    var pool := matching;
    var drawn: seq<(Id, Question)> := [];
    while |drawn| < SampleSize && pool != {}
      invariant pool <= matching
      invariant |drawn| + |pool| == |matching|
      invariant |drawn| <= SampleSize
      invariant forall i :: 0 <= i < |drawn| ==>
        drawn[i].0 in matching && drawn[i].0 !in pool && drawn[i].1 == bank[drawn[i].0]
      invariant forall i, j :: 0 <= i < j < |drawn| ==> drawn[i].0 != drawn[j].0
      decreases pool
    {
      var k :| k in pool;
      drawn := drawn + [(k, bank[k])];
      pool := pool - {k};
    }
    return Ok(200, drawn);
  }

  /** addQuestion: the question is stored under a fresh id, with the subject
      lower-cased by the schema and the rest as given. */
  function AddQuestion(bank: Bank, newId: Id, subject: string, question: string,
                       options: seq<string>, correctAnswer: int): (r: Step<string, Bank>)
    requires newId !in bank
    ensures r.response == Ok(201, "Question added successfully")
    ensures r.state.Keys == bank.Keys + {newId}
    ensures forall k :: k in bank ==> r.state[k] == bank[k]
    ensures var q := r.state[newId];
            q.subject == Lower(subject) && q.question == question
            && q.options == options && q.correctAnswer == correctAnswer
  {
    Step(Ok(201, "Question added successfully"), bank[newId := NewQuestion(subject, question, options, correctAnswer)])
  }

  /** A question added under some subject is matched by a later request for
      that subject in any casing, and by a request for its stored subject. */
  lemma AddThenMatched(bank: Bank, newId: Id, subject: string, question: string,
                       options: seq<string>, correctAnswer: int, request: string)
    requires newId !in bank
    requires Lower(request) == Lower(subject)
    ensures var after := AddQuestion(bank, newId, subject, question, options, correctAnswer).state;
            && newId in Matching(after, request)
            && newId in Matching(after, after[newId].subject)
            && Matching(bank, request) <= Matching(after, request)
  {
    LowerIdempotent(subject);
  }
}
