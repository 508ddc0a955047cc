/**
 * What Rhino.Fsck works on and reports: serialized records as read from disk, and the results of
 * its consistency tests, per test and per item.
 */
module FsckResults {
  import opened Outcomes
  import opened SyncItems
  import opened Scans

  /** A record file as loaded: the record and the file's full physical path. */
  datatype DiskItem = DiskItem(item: SyncItem, fullPath: string)

  /** One test's verdict on one item; Message is null (None) for the two-argument constructor. */
  datatype TestResult = TestResult(testName: string, passed: bool, message: Option<string>)

  /** new TestResult(test, true). */
  function Pass(testName: string): TestResult
  {
    TestResult(testName, true, None)
  }

  /** new TestResult(test, false, message). */
  function Fail(testName: string, message: string): TestResult
  {
    TestResult(testName, false, Some(message))
  }

  /** TestResultCollection.ContainsFailures: some result did not pass. */
  predicate ContainsFailures(results: seq<TestResult>)
  {
    exists i | 0 <= i < |results| :: !results[i].passed
  }

  function Failed(r: TestResult): bool
  {
    !r.passed
  }

  /** TestResultCollection.FailedTests: the failed results, in their original order. */
  function FailedTests(results: seq<TestResult>): seq<TestResult>
  {
    Filter(results, Failed)
  }

  /**
   * FailedTests holds exactly the results that did not pass, is non-empty exactly when the
   * collection contains failures, and taking it twice is taking it once.
   */
  lemma FailedTestsShape(results: seq<TestResult>)
    ensures forall r :: r in FailedTests(results) <==> r in results && !r.passed
    ensures |FailedTests(results)| > 0 <==> ContainsFailures(results)
    ensures FailedTests(FailedTests(results)) == FailedTests(results)
  {
    FilterIdempotent(results, Failed);
    if ContainsFailures(results) {
      var i :| 0 <= i < |results| && !results[i].passed;
      assert results[i] in FailedTests(results);
    }
    if |FailedTests(results)| > 0 {
      assert FailedTests(results)[0] in results;
    }
  }

  /** Failures of a collection built from two parts are those of the first part, then those of the second. */
  lemma FailedTestsAppend(a: seq<TestResult>, b: seq<TestResult>)
    ensures FailedTests(a + b) == FailedTests(a) + FailedTests(b)
    ensures ContainsFailures(a + b) <==> ContainsFailures(a) || ContainsFailures(b)
  {
    FilterAppend(a, b, Failed);
    FailedTestsShape(a);
    FailedTestsShape(b);
    FailedTestsShape(a + b);
  }

  /** The results for one item: the item and its collection, stored as given. */
  datatype ItemTestResult = ItemTestResult(item: DiskItem, results: seq<TestResult>)

  /** ItemTestResult.ContainsFailures: some test of the item failed. */
  function ItemContainsFailures(r: ItemTestResult): (b: bool)
    ensures b <==> |FailedTests(r.results)| > 0
  {
    FailedTestsShape(r.results);
    ContainsFailures(r.results)
  }
}
