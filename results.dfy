/** The results page of one test: which student's results are shown, the class average,
    who passed, and which question each answer belongs to. All of it is computed from the
    loaded results by pure expressions. */
module Results {
  import opened Wrappers
  import opened Seqs
  import opened AuthContext

  datatype ResultAnswer = ResultAnswer(questionId: string, correct: bool, points: int)

  datatype StudentResult = StudentResult(
    studentId: string,
    studentName: string,
    studentEmail: string,
    score: int,
    timeTaken: int,
    violations: int,
    answers: seq<ResultAnswer>)

  datatype ResultQuestion = ResultQuestion(id: string, text: string, points: int)

  datatype TestResults = TestResults(
    title: string,
    passingScore: int,
    studentResults: seq<StudentResult>,
    questions: seq<ResultQuestion>)

  // ---------------------------------------------------------------- selection

  /** The student selected when the page loads: a non-empty `student` query parameter wins;
      otherwise a signed-in student sees the first result filed under their email; otherwise
      nobody is selected. This is the effect's first run, from the initial empty selection; a
      later run with no match leaves whatever was selected before in place. */
  function InitialSelection(studentParam: Option<string>, currentUser: Option<User>,
                            studentResults: seq<StudentResult>): (r: Option<string>)
    ensures studentParam.Some? && studentParam.value != [] ==> r == studentParam
    ensures !(studentParam.Some? && studentParam.value != []) ==>
      (r.Some? <==> currentUser.Some? && currentUser.value.role == Student
                    && exists i :: 0 <= i < |studentResults| && studentResults[i].studentEmail == currentUser.value.email)
    ensures !(studentParam.Some? && studentParam.value != []) && r.Some? ==>
      exists i :: 0 <= i < |studentResults| && studentResults[i].studentId == r.value
        && studentResults[i].studentEmail == currentUser.value.email
        && forall j :: 0 <= j < i ==> studentResults[j].studentEmail != currentUser.value.email
  {
    if studentParam.Some? && studentParam.value != [] then studentParam
    else if currentUser.Some? && currentUser.value.role == Student then
      match Find(studentResults, (sr: StudentResult) => sr.studentEmail == currentUser.value.email)
      case Some(sr) => Some(sr.studentId)
      case None => None
    else None
  }

  /** The results shown: nothing without a (non-empty) selection or before loading, otherwise
      the first result with the selected student id, if any. */
  function SelectedStudentResults(testResults: Option<TestResults>, selected: Option<string>): (r: Option<StudentResult>)
    ensures r.Some? <==> (
      selected.Some? && selected.value != [] && testResults.Some?
      && exists i :: 0 <= i < |testResults.value.studentResults|
                     && testResults.value.studentResults[i].studentId == selected.value)
    ensures r.Some? ==> (
      exists i :: 0 <= i < |testResults.value.studentResults|
        && testResults.value.studentResults[i] == r.value && r.value.studentId == selected.value
        && forall j :: 0 <= j < i ==> testResults.value.studentResults[j].studentId != selected.value)
  {
    if selected.Some? && selected.value != [] && testResults.Some? then
      Find(testResults.value.studentResults, (sr: StudentResult) => sr.studentId == selected.value)
    else None
  }

  /** The question an answer is shown with: the first one carrying the answer's question id. */
  function QuestionFor(questions: seq<ResultQuestion>, answer: ResultAnswer): (r: Option<ResultQuestion>)
    ensures r.Some? <==> exists i :: 0 <= i < |questions| && questions[i].id == answer.questionId
    ensures r.Some? ==> (
      exists i :: 0 <= i < |questions| && questions[i] == r.value
        && r.value.id == answer.questionId
        && forall j :: 0 <= j < i ==> questions[j].id != answer.questionId)
  {
    Find(questions, (q: ResultQuestion) => q.id == answer.questionId)
  }

  // ---------------------------------------------------------------- average

  function SumScores(rs: seq<StudentResult>): int
  {
    if rs == [] then 0 else rs[0].score + SumScores(rs[1..])
  }

  /** `Math.round(sum / n)` for a positive count: the nearest integer to the mean, halves
      rounded up. */
  function RoundedMean(sum: int, n: nat): (r: int)
    requires n > 0
    ensures 2 * n * r - n <= 2 * sum < 2 * n * r + n
  {
    var q := (2 * sum + n) / (2 * n);
    assert 2 * n * q <= 2 * sum + n < 2 * n * q + 2 * n by {
      var m := 2 * sum + n;
      assert m == (m / (2 * n)) * (2 * n) + m % (2 * n);
    }
    q
  }

  /** There is only one integer that close to the mean, so `RoundedMean` is the rounding. */
  lemma {:induction false} RoundedMeanUnique(sum: int, n: nat, r: int)
    requires n > 0
    requires 2 * n * r - n <= 2 * sum < 2 * n * r + n
    ensures r == RoundedMean(sum, n)
  {
    var q := RoundedMean(sum, n);
    assert 2 * n * (r - q) < 2 * n && 2 * n * (q - r) < 2 * n;
    if r > q {
      MulAtLeast(2 * n, r - q);
    } else if q > r {
      MulAtLeast(2 * n, q - r);
    }
  }

  lemma MulAtLeast(a: nat, b: int)
    requires b >= 1
    ensures a * b >= a
  {
    assert a * b == a + a * (b - 1);
  }

  /** `NaN` is what `Math.round(0 / 0)` gives when results are loaded but empty. */
  datatype Average = Rounded(value: int) | NaN

  /** The class average: 0 before anything is loaded. */
  function CalculateAverage(testResults: Option<TestResults>): (a: Average)
  {
    if testResults.None? then Rounded(0)
    else if |testResults.value.studentResults| == 0 then NaN
    else Rounded(RoundedMean(SumScores(testResults.value.studentResults), |testResults.value.studentResults|))
  }

  lemma {:induction false} SumBounds(rs: seq<StudentResult>, lo: int, hi: int)
    requires forall i :: 0 <= i < |rs| ==> lo <= rs[i].score <= hi
    ensures |rs| * lo <= SumScores(rs) <= |rs| * hi
  {
    if rs != [] {
      SumBounds(rs[1..], lo, hi);
      assert |rs| * lo == lo + (|rs| - 1) * lo;
      assert |rs| * hi == hi + (|rs| - 1) * hi;
    }
  }

  lemma MulMonotone(a: nat, b: int)
    ensures b >= 1 ==> a * b >= a
  {
    if b >= 1 {
      MulAtLeast(a, b);
    }
  }

  /** The rounded mean is no more than an upper bound of the values. */
  lemma RoundedMeanAtMost(sum: int, n: nat, hi: int)
    requires n > 0 && sum <= n * hi
    ensures RoundedMean(sum, n) <= hi
  {
    var r := RoundedMean(sum, n);
    MulMonotone(2 * n, r - hi);
    assert 2 * n * (r - hi) == 2 * n * r - 2 * (n * hi);
  }

  /** The rounded mean is no less than a lower bound of the values. */
  lemma RoundedMeanAtLeast(sum: int, n: nat, lo: int)
    requires n > 0 && n * lo <= sum
    ensures lo <= RoundedMean(sum, n)
  {
    var r := RoundedMean(sum, n);
    MulMonotone(2 * n, lo - r);
    assert 2 * n * (lo - r) == 2 * (n * lo) - 2 * n * r;
  }

  /** The average lies within the range of the scores (0 to 100 for percentages). */
  lemma AverageWithinScores(testResults: TestResults, lo: int, hi: int)
    requires |testResults.studentResults| > 0
    requires forall i :: 0 <= i < |testResults.studentResults| ==> lo <= testResults.studentResults[i].score <= hi
    ensures var a := CalculateAverage(Some(testResults));
      a.Rounded? && lo <= a.value <= hi
  {
    var rs := testResults.studentResults;
    SumBounds(rs, lo, hi);
    RoundedMeanAtMost(SumScores(rs), |rs|, hi);
    RoundedMeanAtLeast(SumScores(rs), |rs|, lo);
  }

  // ---------------------------------------------------------------- pass / fail

  /** A score at the passing threshold passes. */
  predicate Passes(sr: StudentResult, passingScore: int)
  {
    sr.score >= passingScore
  }

  function Passed(passingScore: int): StudentResult -> bool
  {
    (sr: StudentResult) => sr.score >= passingScore
  }

  function Failed(passingScore: int): StudentResult -> bool
  {
    (sr: StudentResult) => sr.score < passingScore
  }

  /** The "Passed" and "Failed" tiles: who counts in each, and that together they count everyone. */
  lemma PassFailCounts(testResults: TestResults)
    ensures var passed := Filter(testResults.studentResults, Passed(testResults.passingScore));
            var failed := Filter(testResults.studentResults, Failed(testResults.passingScore));
      |passed| + |failed| == |testResults.studentResults|
      && (forall sr :: sr in passed <==> sr in testResults.studentResults && Passes(sr, testResults.passingScore))
      && (forall sr :: sr in failed <==> sr in testResults.studentResults && !Passes(sr, testResults.passingScore))
  {
    var rs, p := testResults.studentResults, testResults.passingScore;
    FilterPartition(rs, Passed(p), Failed(p));
    forall sr | sr in rs ensures sr in Filter(rs, Passed(p)) <==> Passes(sr, p) {
      var i :| 0 <= i < |rs| && rs[i] == sr;
    }
    forall sr | sr in rs ensures sr in Filter(rs, Failed(p)) <==> !Passes(sr, p) {
      var i :| 0 <= i < |rs| && rs[i] == sr;
    }
  }
}
