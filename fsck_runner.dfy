/**
 * TestRunner: every test on every loaded file, each test given all the files as context, one
 * ItemTestResult per file handed to a callback in file order.
 */
module FsckRunner {
  import opened Outcomes
  import opened FsckResults
  import opened FsckTests

  /** ToList over a lazily evaluated sequence: the values in order, or the first throw. */
  function Collect<T>(outcomes: seq<Result<T>>): Result<seq<T>>
    decreases |outcomes|
  {
    if outcomes == [] then Ok([])
    else match Collect(outcomes[..|outcomes| - 1])
      case Throws(f) => Throws(f)
      case Ok(front) =>
        match outcomes[|outcomes| - 1]
        case Throws(f) => Throws(f)
        case Ok(v) => Ok(front + [v])
  }

  /** Collecting succeeds exactly when every outcome is a value, and then keeps them all, in order. */
  lemma {:induction false} CollectShape<T>(outcomes: seq<Result<T>>)
    ensures Collect(outcomes).Ok? <==> forall j | 0 <= j < |outcomes| :: outcomes[j].Ok?
    ensures Collect(outcomes).Ok? ==>
      |Collect(outcomes).value| == |outcomes| &&
      forall j | 0 <= j < |outcomes| :: Collect(outcomes).value[j] == outcomes[j].value
    decreases |outcomes|
  {
    if outcomes != [] {
      var front := outcomes[..|outcomes| - 1];
      CollectShape(front);
      assert forall j | 0 <= j < |front| :: front[j] == outcomes[j];
    }
  }

  /** Once an outcome threw, collecting stops there. */
  lemma {:induction false} CollectKeepsThrow<T>(outcomes: seq<Result<T>>, n: nat)
    requires n <= |outcomes| && Collect(outcomes[..n]).Throws?
    ensures Collect(outcomes) == Collect(outcomes[..n])
    decreases |outcomes|
  {
    if n < |outcomes| {
      var front := outcomes[..|outcomes| - 1];
      assert front[..n] == outcomes[..n];
      CollectKeepsThrow(front, n);
    } else {
      assert outcomes[..n] == outcomes;
    }
  }

  /** Each test's Execute on the item, given all the items. */
  function Executions(host: Host, tests: seq<Test>, contextItem: DiskItem, allItems: seq<DiskItem>): (r: seq<Result<TestResult>>)
    ensures |r| == |tests|
  {
    seq(|tests|, j requires 0 <= j < |tests| => Execute(host, tests[j], contextItem, allItems))
  }

  /** tests.Select(x => x.Execute(item, items)).ToList(). */
  function TestsOn(host: Host, tests: seq<Test>, contextItem: DiskItem, allItems: seq<DiskItem>): Result<seq<TestResult>>
  {
    Collect(Executions(host, tests, contextItem, allItems))
  }

  /** One result per test, in test order, each the test's own verdict under its name; a throw is a test's throw. */
  lemma TestsOnShape(host: Host, tests: seq<Test>, contextItem: DiskItem, allItems: seq<DiskItem>)
    ensures TestsOn(host, tests, contextItem, allItems).Ok? <==>
      forall j | 0 <= j < |tests| :: Execute(host, tests[j], contextItem, allItems).Ok?
    ensures TestsOn(host, tests, contextItem, allItems).Ok? ==>
      var results := TestsOn(host, tests, contextItem, allItems).value;
      |results| == |tests| &&
      forall j | 0 <= j < |tests| ::
        Execute(host, tests[j], contextItem, allItems) == Ok(results[j]) && results[j].testName == Name(tests[j])
  {
    var outcomes := Executions(host, tests, contextItem, allItems);
    CollectShape(outcomes);
    forall j | 0 <= j < |tests| && outcomes[j].Ok?
      ensures outcomes[j].value.testName == Name(tests[j])
    {
      ExecuteNamesItsTest(host, tests[j], contextItem, allItems);
    }
  }

  /** The outcome of every item's tests, in item order. */
  function ItemOutcomes(host: Host, items: seq<DiskItem>, tests: seq<Test>, allItems: seq<DiskItem>)
    : (r: seq<Result<seq<TestResult>>>)
    ensures |r| == |items|
  {
    seq(|items|, i requires 0 <= i < |items| => TestsOn(host, tests, items[i], allItems))
  }

  /**
   * The foreach over the items, given each item's outcome: the results handed to the callback
   * before the items ran out or a test threw, and the throw, if any.
   */
  function Deliver(items: seq<DiskItem>, outcomes: seq<Result<seq<TestResult>>>): (seq<ItemTestResult>, Option<Failure>)
    requires |outcomes| == |items|
    decreases |items|
  {
    if items == [] then ([], None)
    else
      var (front, failure) := Deliver(items[..|items| - 1], outcomes[..|items| - 1]);
      if failure.Some? then (front, failure)
      else match outcomes[|items| - 1]
        case Throws(f) => (front, Some(f))
        case Ok(results) => (front + [ItemTestResult(items[|items| - 1], results)], None)
  }

  /** ExecuteTests over the items, each item's tests given all the items. */
  function RunItems(host: Host, items: seq<DiskItem>, tests: seq<Test>): (seq<ItemTestResult>, Option<Failure>)
  {
    Deliver(items, ItemOutcomes(host, items, tests, items))
  }

  /**
   * Without a throw there is exactly one ItemTestResult per item, in item order, holding the
   * item and its results; with one, the results given so far are those of a prefix of the items.
   */
  lemma {:induction false} DeliverShape(items: seq<DiskItem>, outcomes: seq<Result<seq<TestResult>>>)
    requires |outcomes| == |items|
    ensures Deliver(items, outcomes).1.None? <==> forall i | 0 <= i < |items| :: outcomes[i].Ok?
    ensures var (results, _) := Deliver(items, outcomes);
      |results| <= |items| &&
      forall i | 0 <= i < |results| :: results[i].item == items[i] && outcomes[i] == Ok(results[i].results)
    ensures Deliver(items, outcomes).1.None? ==> |Deliver(items, outcomes).0| == |items|
    decreases |items|
  {
    if items != [] {
      var n := |items| - 1;
      DeliverShape(items[..n], outcomes[..n]);
      assert forall i | 0 <= i < n :: items[..n][i] == items[i] && outcomes[..n][i] == outcomes[i];
    }
  }

  /** Once an item's tests threw, the run stops there. */
  lemma {:induction false} DeliverKeepsThrow(items: seq<DiskItem>, outcomes: seq<Result<seq<TestResult>>>, n: nat)
    requires |outcomes| == |items| && n <= |items| && Deliver(items[..n], outcomes[..n]).1.Some?
    ensures Deliver(items, outcomes) == Deliver(items[..n], outcomes[..n])
    decreases |items|
  {
    if n < |items| {
      var m := |items| - 1;
      assert items[..m][..n] == items[..n] && outcomes[..m][..n] == outcomes[..n];
      DeliverKeepsThrow(items[..m], outcomes[..m], n);
    } else {
      assert items[..n] == items && outcomes[..n] == outcomes;
    }
  }

  /**
   * A run completes exactly when no item's tests throw, and then has one ItemTestResult per
   * item, in item order, holding the item and its tests' results in test order.
   */
  lemma RunItemsShape(host: Host, items: seq<DiskItem>, tests: seq<Test>)
    ensures RunItems(host, items, tests).1.None? <==> forall i | 0 <= i < |items| :: TestsOn(host, tests, items[i], items).Ok?
    ensures RunItems(host, items, tests).1.None? ==>
      var results := RunItems(host, items, tests).0;
      |results| == |items| &&
      forall i | 0 <= i < |items| :: results[i].item == items[i] && TestsOn(host, tests, items[i], items) == Ok(results[i].results)
  {
    var outcomes := ItemOutcomes(host, items, tests, items);
    DeliverShape(items, outcomes);
    assert forall i | 0 <= i < |items| :: outcomes[i] == TestsOn(host, tests, items[i], items);
  }

  /**
   * A report for an item of a complete run: the item is reported when one of its tests failed,
   * and the failed tests listed are exactly its tests that did not pass.
   */
  lemma ReportedItems(host: Host, items: seq<DiskItem>, tests: seq<Test>, i: nat)
    requires RunItems(host, items, tests).1.None? && i < |items|
    ensures |RunItems(host, items, tests).0| == |items|
    ensures var r := RunItems(host, items, tests).0[i];
      r.item == items[i] &&
      (ItemContainsFailures(r) <==>
        exists j | 0 <= j < |tests| :: Execute(host, tests[j], items[i], items).Ok? && !Execute(host, tests[j], items[i], items).value.passed) &&
      forall t :: t in FailedTests(r.results) <==> t in r.results && !t.passed
  {
    DeliverShape(items, ItemOutcomes(host, items, tests, items));
    var r := RunItems(host, items, tests).0[i];
    TestsOnShape(host, tests, items[i], items);
    FailedTestsShape(r.results);
  }

  /** One more item whose tests completed extends a run that has not thrown by that item's result. */
  lemma DeliverStep(items: seq<DiskItem>, outcomes: seq<Result<seq<TestResult>>>, i: nat)
    requires |outcomes| == |items| && i < |items| && Deliver(items[..i], outcomes[..i]).1.None? && outcomes[i].Ok?
    ensures Deliver(items[..i + 1], outcomes[..i + 1]) ==
      (Deliver(items[..i], outcomes[..i]).0 + [ItemTestResult(items[i], outcomes[i].value)], None)
  {
    assert items[..i + 1][..i] == items[..i] && outcomes[..i + 1][..i] == outcomes[..i];
  }

  /** An item whose tests threw ends a run that had not thrown before it, with that throw. */
  lemma DeliverThrowStep(items: seq<DiskItem>, outcomes: seq<Result<seq<TestResult>>>, i: nat)
    requires |outcomes| == |items| && i < |items| && Deliver(items[..i], outcomes[..i]).1.None? && outcomes[i].Throws?
    ensures Deliver(items[..i + 1], outcomes[..i + 1]) == (Deliver(items[..i], outcomes[..i]).0, Some(outcomes[i].failure))
  {
    assert items[..i + 1][..i] == items[..i] && outcomes[..i + 1][..i] == outcomes[..i];
  }

  /** The callback of the second overload; the first overload's callback is results.Add. */
  class ResultLog {
    var entries: seq<ItemTestResult>

    constructor()
      ensures entries == []
    {
      entries := [];
    }

    method Add(result: ItemTestResult)
      modifies this
      ensures entries == old(entries) + [result]
    {
      entries := entries + [result];
    }
  }

  /** One item's tests, in test order (the Select). */
  method RunTests(host: Host, tests: seq<Test>, contextItem: DiskItem, allItems: seq<DiskItem>) returns (r: Result<seq<TestResult>>)
    ensures r == TestsOn(host, tests, contextItem, allItems)
  {
    ghost var outcomes := Executions(host, tests, contextItem, allItems);
    var results: seq<TestResult> := [];
    for j := 0 to |tests|
      invariant Collect(outcomes[..j]) == Ok(results)
    {
      assert outcomes[..j + 1][..j] == outcomes[..j];
      var result := ExecuteTest(host, tests[j], contextItem, allItems);
      assert outcomes[j] == result;
      if result.Throws? {
        CollectKeepsThrow(outcomes, j + 1);
        return Throws(result.failure);
      }
      results := results + [result.value];
    }
    assert outcomes[..|tests|] == outcomes;
    return Ok(results);
  }

  /** ExecuteTests(items, tests, resultCallback): the callback is called once per item, in item order, until a test throws. */
  method ExecuteTestsWith(host: Host, items: seq<DiskItem>, tests: seq<Test>, resultCallback: ResultLog) returns (failure: Option<Failure>)
    modifies resultCallback
    ensures resultCallback.entries == old(resultCallback.entries) + RunItems(host, items, tests).0
    ensures failure == RunItems(host, items, tests).1
  {
    ghost var outcomes := ItemOutcomes(host, items, tests, items);
    ghost var start := resultCallback.entries;
    ghost var sent: seq<ItemTestResult> := [];
    for i := 0 to |items|
      invariant Deliver(items[..i], outcomes[..i]) == (sent, None)
      invariant resultCallback.entries == start + sent
    {
      var results := RunTests(host, tests, items[i], items);
      assert outcomes[i] == results;
      if results.Throws? {
        DeliverThrowStep(items, outcomes, i);
        DeliverKeepsThrow(items, outcomes, i + 1);
        return Some(results.failure);
      }
      DeliverStep(items, outcomes, i);
      resultCallback.Add(ItemTestResult(items[i], results.value));
      sent := sent + [ItemTestResult(items[i], results.value)];
    }
    assert items[..|items|] == items && outcomes[..|items|] == outcomes;
    return None;
  }

  /** ExecuteTests(items, tests): the results the callback collected, one per item in item order; a test's throw propagates. */
  method ExecuteTests(host: Host, items: seq<DiskItem>, tests: seq<Test>) returns (r: Result<seq<ItemTestResult>>)
    ensures r == (match RunItems(host, items, tests).1
                  case None => Ok(RunItems(host, items, tests).0)
                  case Some(f) => Throws(f))
  {
    var results := new ResultLog();
    var failure := ExecuteTestsWith(host, items, tests, results);
    assert results.entries == [] + RunItems(host, items, tests).0 == RunItems(host, items, tests).0;
    if failure.Some? {
      return Throws(failure.value);
    }
    return Ok(results.entries);
  }
}
