/** Frontend/src/pages/Learner/TestInterface.jsx: the search that normalises
    the typed subject and loads a test, the answer sheet, and the score. The
    HTTP reply is a parameter; `ReplyOf` says what the test endpoint's
    responses look like to the page once axios has handled them. */
module TestInterface {
  import opened Common
  import opened Text
  import opened Records
  import opened QuizBank

  /** The page state: the typed subject, the loaded test and the answers,
      keyed by question index. */
  datatype Page = Page(subject: string, test: seq<Question>, answers: map<int, int>)

  /** The page as first rendered. */
  const Initial := Page("", [], map[])

  /** What the awaited `axios.get` yields: data that is an array, data that
      is not, or a rejection (a non-2xx status, or none for a network error). */
  datatype Reply = ArrayData(items: seq<Question>) | OtherData | Rejected(status: Option<int>)

  /** The test endpoint's responses as the page receives them: axios
      resolves the 200 array and rejects every error status. */
  function ReplyOf(r: Response<seq<(Id, Question)>>): (p: Reply)
    ensures r.Ok? ==> p.ArrayData? && |p.items| == |r.body|
    ensures r.Ok? ==> forall i :: 0 <= i < |r.body| ==> p.items[i] == r.body[i].1
    ensures r.Err? ==> p == Rejected(Some(r.status))
  {
    match r
    case Ok(_, body) => ArrayData(seq(|body|, i requires 0 <= i < |body| => body[i].1))
    case Err(s, _) => Rejected(Some(s))
  }

  /** The request key: the subject trimmed, then lower-cased. */
  function SearchKey(subject: string): (k: string)
    ensures NoUpper(k)
    ensures k == [] <==> Blank(subject)
  {
    Lower(Trim(subject))
  }

  /** handleSearch as written: the key requested, if any, and the page after
      the reply. */
  function HandleSearch(page: Page, reply: Reply): (r: (Option<string>, Page))
    ensures r.0.None? <==> Blank(page.subject)
    ensures r.0.Some? ==> r.0.value == SearchKey(page.subject)
    ensures r.0.None? ==> r.1 == page
    ensures r.1.subject == page.subject
    ensures r.0.Some? && reply.ArrayData? && reply.items != [] ==>
      r.1.test == reply.items && r.1.answers == map[]
    ensures r.0.Some? && (reply == ArrayData([]) || reply.OtherData?) ==>
      r.1 == page.(test := [])
    ensures reply.Rejected? ==> r.1 == page
  {
    var key := SearchKey(page.subject);
    if key == [] then (None, page)
    else match reply
      case ArrayData(items) =>
        if items != [] then (Some(key), page.(test := items, answers := map[]))
        else (Some(key), page.(test := []))
      case OtherData => (Some(key), page.(test := []))
      case Rejected(_) => (Some(key), page)
  }

  /** The backend answers 404 when it has no test for the key; axios rejects
      that, so the page keeps whatever test it showed before instead of
      taking its "no test" branch. */
  lemma NoTestKeepsOldTest(page: Page)
    ensures HandleSearch(page, ReplyOf(Err(404, "No test found for this subject"))).1 == page
  {
  }

  /** A concrete instance: a loaded test survives a search the bank cannot
      answer. */
  lemma NoTestKeepsOldTestExample()
    ensures var q := Question("java", "?", ["a", "b"], 0);
            var page := Page("Rust", [q], map[0 := 1]);
            && Matching(map[], SearchKey(page.subject)) == {}
            && HandleSearch(page, ReplyOf(Err(404, "No test found for this subject"))).1.test == [q]
  {
    var page := Page("Rust", [Question("java", "?", ["a", "b"], 0)], map[0 := 1]);
    var m := Matching(map[], SearchKey(page.subject));
    assert forall k :: k !in m;
    var reply := ReplyOf(Err(404, "No test found for this subject"));
    assert reply == Rejected(Some(404));
    assert HandleSearch(page, reply).1 == page;
  }

  /** handleSearch with the not-found status read as the empty result it
      stands for; every other reply is handled as before. */
  function HandleSearchFixed(page: Page, reply: Reply): (r: (Option<string>, Page))
    ensures reply != Rejected(Some(404)) ==> r == HandleSearch(page, reply)
    ensures reply == Rejected(Some(404)) ==> r == HandleSearch(page, ArrayData([]))
  {
    if reply == Rejected(Some(404)) then HandleSearch(page, ArrayData([]))
    else HandleSearch(page, reply)
  }

  /** With the fix a search the bank cannot answer clears the test. */
  lemma NoTestClearsTest(page: Page)
    requires !Blank(page.subject)
    ensures HandleSearchFixed(page, ReplyOf(Err(404, "No test found for this subject"))).1 == page.(test := [])
  {
  }

  /** The key survives unencoded as the single `/:subject` path segment:
      it holds no '/', which would leave the route, no '?' or '#', which
      would end the path, and no '%', which would be decoded. */
  predicate PathSafe(k: string) {
    forall i :: 0 <= i < |k| ==> k[i] != '/' && k[i] != '?' && k[i] != '#' && k[i] != '%'
  }

  /** The key the page sends reaches the questions stored under the subject
      the learner typed, whatever its casing and surrounding blanks, as long
      as the key reaches the route intact. */
  lemma SearchFindsAddedQuestion(bank: Bank, newId: Id, subject: string, question: string,
                                 options: seq<string>, correctAnswer: int, typed: string)
    requires newId !in bank && PathSafe(SearchKey(typed))
    requires Lower(Trim(typed)) == Lower(subject)
    ensures newId in Matching(AddQuestion(bank, newId, subject, question, options, correctAnswer).state, SearchKey(typed))
  {
    LowerIdempotent(Trim(typed));
  }

  /** handleAnswer: records one choice and leaves the others. */
  function HandleAnswer(page: Page, qIndex: int, aIndex: int): (p: Page)
    ensures p.subject == page.subject && p.test == page.test
    ensures p.answers.Keys == page.answers.Keys + {qIndex}
    ensures p.answers[qIndex] == aIndex
    ensures forall i :: i in page.answers && i != qIndex ==> p.answers[i] == page.answers[i]
  {
    page.(answers := page.answers[qIndex := aIndex])
  }

  /** The indices whose recorded answer is the question's correct one. */
  function CorrectIndices(test: seq<Question>, answers: map<int, int>, n: int): (s: set<int>)
    ensures forall i :: i in s <==> 0 <= i < n && i < |test| && i in answers && answers[i] == test[i].correctAnswer
  {
    set i | 0 <= i < n && i < |test| && i in answers && answers[i] == test[i].correctAnswer
  }

  /** calculateScore. */
  method CalculateScore(page: Page) returns (score: nat)
    ensures score == |CorrectIndices(page.test, page.answers, |page.test|)|
    ensures score <= |page.test|
  {
    score := 0;
    var i := 0;
    while i < |page.test|
      invariant 0 <= i <= |page.test|
      invariant score == |CorrectIndices(page.test, page.answers, i)|
      invariant score <= i
    {
      var before := CorrectIndices(page.test, page.answers, i);
      var after := CorrectIndices(page.test, page.answers, i + 1);
      if i in page.answers && page.answers[i] == page.test[i].correctAnswer {
        assert after == before + {i};
        score := score + 1;
      } else {
        assert after == before;
      }
      i := i + 1;
    }
  }

  /** Nothing answered scores nothing. */
  lemma EmptySheetScoresZero(test: seq<Question>)
    ensures |CorrectIndices(test, map[], |test|)| == 0
  {
    assert CorrectIndices(test, map[], |test|) == {};
  }

  /** Every question answered correctly scores the length of the test;
      stated for each prefix of the test so that it can be proved one
      question at a time. */
  lemma {:induction false} PerfectSheetScoresAll(test: seq<Question>, answers: map<int, int>, n: nat)
    requires n <= |test|
    requires forall i :: 0 <= i < |test| ==> i in answers && answers[i] == test[i].correctAnswer
    ensures |CorrectIndices(test, answers, n)| == n
  {
    if n > 0 {
      PerfectSheetScoresAll(test, answers, n - 1);
      assert CorrectIndices(test, answers, n) == CorrectIndices(test, answers, n - 1) + {n - 1};
    }
  }

  /** Choosing the correct option of a question not yet answered correctly
      adds exactly that question to the score; a wrong choice on a question
      answered correctly takes exactly it away. */
  lemma AnswerMovesScore(page: Page, qIndex: int, aIndex: int)
    requires 0 <= qIndex < |page.test|
    ensures var before := CorrectIndices(page.test, page.answers, |page.test|);
            var after := CorrectIndices(page.test, HandleAnswer(page, qIndex, aIndex).answers, |page.test|);
            && (aIndex == page.test[qIndex].correctAnswer ==> after == before + {qIndex})
            && (aIndex != page.test[qIndex].correctAnswer ==> after == before - {qIndex})
  {
  }

  /** A successful search starts a fresh sheet: the new test scores zero. */
  lemma NewTestScoresZero(page: Page, items: seq<Question>)
    requires !Blank(page.subject) && items != []
    ensures var p := HandleSearch(page, ArrayData(items)).1;
            |CorrectIndices(p.test, p.answers, |p.test|)| == 0
  {
    var p := HandleSearch(page, ArrayData(items)).1;
    EmptySheetScoresZero(p.test);
  }
}
