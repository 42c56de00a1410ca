/** The dashboard: which lists are loaded for the signed-in user's role, and which tests the
    selected tab shows. */
module Dashboard {
  import opened Wrappers
  import opened Seqs
  import opened AuthContext

  datatype TestSummary = TestSummary(id: string, title: string, course: string, status: string)

  datatype Submission = Submission(id: string, testId: string, studentName: string, score: int)

  datatype Lists = Lists(tests: seq<TestSummary>, submissions: seq<Submission>)

  /** The loading effect: a student gets the tests, an instructor or administrator gets the
      tests and the submissions, and without a user the lists keep what they held. */
  function LoadForUser(lists: Lists, currentUser: Option<User>,
                       allTests: seq<TestSummary>, allSubmissions: seq<Submission>): (r: Lists)
    ensures currentUser.None? ==> r == lists
    ensures currentUser.Some? ==> r.tests == allTests
    ensures currentUser.Some? && currentUser.value.role == Student ==> r.submissions == lists.submissions
    ensures currentUser.Some? && currentUser.value.role != Student ==> r.submissions == allSubmissions
  {
    match currentUser
    case None => lists
    case Some(u) =>
      if u.role == Student then lists.(tests := allTests)
      else Lists(allTests, allSubmissions)
  }

  /** The tab filter callback. */
  predicate OnTab(activeTab: string, t: TestSummary)
  {
    if activeTab == "upcoming" then t.status == "upcoming"
    else if activeTab == "completed" then t.status == "completed"
    else true
  }

  function TabFilter(activeTab: string): TestSummary -> bool
  {
    t => OnTab(activeTab, t)
  }

  function FilteredTests(tests: seq<TestSummary>, activeTab: string): (r: seq<TestSummary>)
    ensures forall t :: t in r <==> (
      t in tests
      && (activeTab == "upcoming" ==> t.status == "upcoming")
      && (activeTab == "completed" ==> t.status == "completed"))
    ensures forall t :: multiset(r)[t] == if OnTab(activeTab, t) then multiset(tests)[t] else 0
    ensures IsSubsequence(r, tests)
  {
    FilterIsSubsequence(tests, TabFilter(activeTab));
    FilterCount(tests, TabFilter(activeTab));
    Filter(tests, TabFilter(activeTab))
  }

  /** Any tab other than the two named ones shows every test, in order. */
  lemma OtherTabShowsAll(tests: seq<TestSummary>, activeTab: string)
    requires activeTab != "upcoming" && activeTab != "completed"
    ensures FilteredTests(tests, activeTab) == tests
  {
    FilterAll(tests, TabFilter(activeTab));
  }

  /** The two named tabs never share a test. */
  lemma TabsDisjoint(tests: seq<TestSummary>, t: TestSummary)
    ensures !(t in FilteredTests(tests, "upcoming") && t in FilteredTests(tests, "completed"))
  {
  }
}
