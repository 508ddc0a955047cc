/**
 * The consistency tests of Rhino.Fsck. Each test looks at one record file in the context of all
 * loaded files and answers a TestResult under its own name. The Sitecore and file-system calls
 * the tests make are inputs (Host).
 */
module FsckTests {
  import opened Outcomes
  import opened Text
  import opened Ids
  import opened SyncItems
  import opened Disk
  import opened FsckResults
  import Scans

  /**
   * The outside calls: PathUtils.MakeItemPath(fullPath, root), new ItemReference(database,
   * path).ToString(), Path.GetDirectoryName and File.Exists.
   */
  datatype Host = Host(
    makeItemPath: (string, string) -> string,
    itemReference: (string, string) -> string,
    directoryName: string -> string,
    fileExists: string -> bool)

  /** The tests (the ITest implementations); a path test carries its root and optional database name. */
  datatype Test =
    | PathTest(rootPath: string, databaseName: Option<string>)
    | ParentIdTest
    | DuplicateIdTest
    | InvalidMetadataTest
    | NoVersionsTest

  /** Each test's Name. */
  function Name(test: Test): string
  {
    match test
    case PathTest(_, _) => "Item Path Verification"
    case ParentIdTest => "Parent ID Verification"
    case DuplicateIdTest => "Duplicate ID Check"
    case InvalidMetadataTest => "Missing Item Metadata"
    case NoVersionsTest => "Warning: No Versions Exist"
  }

  // ---------------------------------------------------------------- PathTest

  /** Drop a trailing "_<short ID>" that disambiguates same-named siblings on disk. */
  function StripShortIdSuffix(mappedPath: string): string
  {
    var split := Split(mappedPath, '_');
    if IsShortId(split[|split| - 1]) then Join('_', split[..|split| - 1]) else mappedPath
  }

  /**
   * The suffix goes exactly when what follows the last '_' is a short ID, and then only it and
   * that '_' go; with no '_' at all, a path that is itself a short ID becomes empty.
   */
  lemma StripShortIdSuffixShape(mappedPath: string)
    ensures match LastIndexOf(mappedPath, '_')
      case None => StripShortIdSuffix(mappedPath) == (if IsShortId(mappedPath) then "" else mappedPath)
      case Some(k) =>
        StripShortIdSuffix(mappedPath) == (if IsShortId(mappedPath[k + 1..]) then mappedPath[..k] else mappedPath)
  {
    SplitLast(mappedPath, '_');
  }

  /** Drop a leading "/<database>", ignoring case. */
  function StripDatabasePrefix(mappedPath: string, databaseName: string): string
  {
    var dbPrefix := "/" + databaseName;
    if StartsWithIgnoreCase(mappedPath, dbPrefix) then mappedPath[|dbPrefix|..] else mappedPath
  }

  /** "/" + path.TrimStart('/'). */
  function LeadingSlash(path: string): string
  {
    "/" + TrimStart(path, '/')
  }

  /** Exactly one slash leads, and normalising again changes nothing. */
  lemma LeadingSlashShape(path: string)
    ensures |LeadingSlash(path)| >= 1 && LeadingSlash(path)[0] == '/'
    ensures |LeadingSlash(path)| == 1 || LeadingSlash(path)[1] != '/'
    ensures LeadingSlash(LeadingSlash(path)) == LeadingSlash(path)
  {
    TrimStartIdempotent(path, '/');
    var t := TrimStart(path, '/');
    assert LeadingSlash(path)[1..] == t;
    if |t| > 0 {
      assert TrimStart(LeadingSlash(path), '/') == TrimStart(t, '/');
    }
  }

  /** The physical path turned into the item path it should hold, with the database in front when one is named. */
  function MappedPath(host: Host, rootPath: string, databaseName: Option<string>, fullPath: string): string
  {
    var stripped := StripShortIdSuffix(host.makeItemPath(fullPath, rootPath));
    match databaseName
    case None => LeadingSlash(stripped)
    case Some(d) => "/" + d + LeadingSlash(StripDatabasePrefix(stripped, d))
  }

  /** What the record says: its item reference, with one leading slash. */
  function ReferencePath(host: Host, item: SyncItem): string
  {
    LeadingSlash(host.itemReference(item.databaseName, item.itemPath))
  }

  /** PathTest.Execute: the two paths must agree, ignoring case. */
  function PathTestResult(host: Host, rootPath: string, databaseName: Option<string>, contextItem: DiskItem): TestResult
  {
    var mapped := MappedPath(host, rootPath, databaseName, contextItem.fullPath);
    var reference := ReferencePath(host, contextItem.item);
    if EqualsIgnoreCase(mapped, reference) then Pass(Name(PathTest(rootPath, databaseName)))
    else Fail(Name(PathTest(rootPath, databaseName)), "Physical: " + mapped + " != Serialized: " + reference)
  }

  /** The path test passes exactly when the two normalised paths agree ignoring case; a failure names both. */
  lemma PathTestVerdict(host: Host, rootPath: string, databaseName: Option<string>, contextItem: DiskItem)
    ensures var r := PathTestResult(host, rootPath, databaseName, contextItem);
      var mapped := MappedPath(host, rootPath, databaseName, contextItem.fullPath);
      var reference := ReferencePath(host, contextItem.item);
      (r.passed <==> EqualsIgnoreCase(mapped, reference)) &&
      (!r.passed ==> r.message.Some? && Contains(r.message.value, mapped) && Contains(r.message.value, reference))
  {
    var mapped := MappedPath(host, rootPath, databaseName, contextItem.fullPath);
    var reference := ReferencePath(host, contextItem.item);
    MessageNamesBoth("Physical: ", mapped, " != Serialized: ", reference);
  }

  /** A message built around two texts contains each. */
  lemma MessageNamesBoth(a: string, first: string, b: string, second: string)
    ensures Contains(a + first + b + second, first) && Contains(a + first + b + second, second)
  {
    var m := a + first + b + second;
    assert m[|a|..][..|first|] == first;
    assert m[|m| - |second|..][..|second|] == second;
  }

  /**
   * With a database name the physical side starts with "/<database>/"; without one it is the
   * stripped path with one leading slash.
   */
  lemma MappedPathShape(host: Host, rootPath: string, databaseName: Option<string>, fullPath: string)
    ensures databaseName.Some? ==> StartsWith(MappedPath(host, rootPath, databaseName, fullPath), "/" + databaseName.value + "/")
    ensures databaseName.None? ==>
      MappedPath(host, rootPath, databaseName, fullPath) == LeadingSlash(StripShortIdSuffix(host.makeItemPath(fullPath, rootPath)))
  {
    if databaseName.Some? {
      var d := databaseName.value;
      var stripped := StripShortIdSuffix(host.makeItemPath(fullPath, rootPath));
      assert MappedPath(host, rootPath, databaseName, fullPath) == "/" + d + LeadingSlash(StripDatabasePrefix(stripped, d));
      PrefixedPathShape(d, LeadingSlash(StripDatabasePrefix(stripped, d)));
    }
  }

  /** "/" + d followed by a path with a leading slash starts with "/" + d + "/". */
  lemma PrefixedPathShape(d: string, path: string)
    requires |path| >= 1 && path[0] == '/'
    ensures StartsWith("/" + d + path, "/" + d + "/")
  {
    var m := "/" + d + path;
    var prefix := "/" + d + "/";
    assert m[..|prefix|] == prefix;
  }

  /** PathTest.Execute, reassigning the mapped path step by step as the source does. */
  method ExecutePathTest(host: Host, rootPath: string, databaseName: Option<string>, contextItem: DiskItem)
    returns (r: TestResult)
    ensures r == PathTestResult(host, rootPath, databaseName, contextItem)
  {
    var mappedPath := host.makeItemPath(contextItem.fullPath, rootPath);
    var split := Split(mappedPath, '_');
    if IsShortId(split[|split| - 1]) {
      mappedPath := Join('_', split[..|split| - 1]);
    }
    ghost var stripped := mappedPath;
    assert stripped == StripShortIdSuffix(host.makeItemPath(contextItem.fullPath, rootPath));
    if databaseName.Some? {
      var dbPrefix := "/" + databaseName.value;
      if StartsWithIgnoreCase(mappedPath, dbPrefix) {
        mappedPath := mappedPath[|dbPrefix|..];
      }
    }
    assert databaseName.Some? ==> mappedPath == StripDatabasePrefix(stripped, databaseName.value);
    assert databaseName.None? ==> mappedPath == stripped;
    mappedPath := "/" + TrimStart(mappedPath, '/');
    if databaseName.Some? {
      mappedPath := "/" + databaseName.value + mappedPath;
    }
    assert mappedPath == MappedPath(host, rootPath, databaseName, contextItem.fullPath);
    var syncItemReferencePath := host.itemReference(contextItem.item.databaseName, contextItem.item.itemPath);
    syncItemReferencePath := "/" + TrimStart(syncItemReferencePath, '/');
    assert syncItemReferencePath == ReferencePath(host, contextItem.item);
    var passed := EqualsIgnoreCase(mappedPath, syncItemReferencePath);
    if passed {
      return Pass(Name(PathTest(rootPath, databaseName)));
    }
    return Fail(Name(PathTest(rootPath, databaseName)), "Physical: " + mappedPath + " != Serialized: " + syncItemReferencePath);
  }

  // ---------------------------------------------------------------- ParentIdTest

  /** allItems.First(x => x.FullPath == path), by position; None where First would throw. */
  function FirstAtPath(allItems: seq<DiskItem>, path: string): (r: Option<nat>)
    ensures r.Some? ==> r.value < |allItems| && allItems[r.value].fullPath == path
    ensures r.Some? ==> forall j | 0 <= j < r.value :: allItems[j].fullPath != path
    ensures r.None? ==> forall j | 0 <= j < |allItems| :: allItems[j].fullPath != path
    decreases |allItems|
  {
    if |allItems| == 0 then None
    else if allItems[0].fullPath == path then Some(0)
    else match FirstAtPath(allItems[1..], path)
      case None => None
      case Some(k) => Some(k + 1)
  }

  /** The record file of the folder holding the item: the folder's path plus the record extension. */
  function ParentFile(host: Host, contextItem: DiskItem): string
  {
    host.directoryName(contextItem.fullPath) + Extension
  }

  /** ParentIdTest.Execute; InvalidOperation when the parent file exists but was not loaded. */
  function ParentIdTestResult(host: Host, contextItem: DiskItem, allItems: seq<DiskItem>): Result<TestResult>
  {
    var parent := ParentFile(host, contextItem);
    if !host.fileExists(parent) then Ok(Pass(Name(ParentIdTest)))
    else match FirstAtPath(allItems, parent)
      case None => Throws(InvalidOperation)
      case Some(k) =>
        var parentItem := allItems[k];
        if parentItem.item.id == contextItem.item.parentId then Ok(Pass(Name(ParentIdTest)))
        else Ok(Fail(Name(ParentIdTest), "Parent ID: " + contextItem.item.parentId + " did not match actual serialized parent ID "
                                          + parentItem.item.id))
  }

  /**
   * Without a parent file the test passes; with one it throws unless some loaded file is at
   * that path, and then passes exactly when the first such file's record has the item's parent ID;
   * a failure's message names both IDs.
   */
  lemma ParentIdTestVerdict(host: Host, contextItem: DiskItem, allItems: seq<DiskItem>)
    ensures var r := ParentIdTestResult(host, contextItem, allItems);
      var parent := ParentFile(host, contextItem);
      (!host.fileExists(parent) ==> r == Ok(Pass(Name(ParentIdTest)))) &&
      (r.Throws? <==> host.fileExists(parent) && forall x | x in allItems :: x.fullPath != parent) &&
      (r.Ok? && host.fileExists(parent) ==>
          exists k | 0 <= k < |allItems| ::
            allItems[k].fullPath == parent && (forall j | 0 <= j < k :: allItems[j].fullPath != parent) &&
            (r.value.passed <==> allItems[k].item.id == contextItem.item.parentId) &&
            (!r.value.passed ==> Contains(r.value.message.value, contextItem.item.parentId) &&
                                 Contains(r.value.message.value, allItems[k].item.id)))
  {
    var parent := ParentFile(host, contextItem);
    match FirstAtPath(allItems, parent)
    case None =>
    case Some(k) =>
      assert allItems[k] in allItems;
      MessageNamesBoth("Parent ID: ", contextItem.item.parentId, " did not match actual serialized parent ID ", allItems[k].item.id);
  }

  // ---------------------------------------------------------------- DuplicateIdTest

  /** Another file with a record of the same database and ID (ordinal), at a different path. */
  predicate DuplicateOf(x: DiskItem, contextItem: DiskItem)
  {
    x.item.databaseName == contextItem.item.databaseName && x.item.id == contextItem.item.id && x.fullPath != contextItem.fullPath
  }

  function Paths(files: seq<DiskItem>): (r: seq<string>)
    ensures |r| == |files| && forall i | 0 <= i < |files| :: r[i] == files[i].fullPath
  {
    seq(|files|, i requires 0 <= i < |files| => files[i].fullPath)
  }

  /** The duplicates of the item, in the order of allItems. */
  function Duplicates(contextItem: DiskItem, allItems: seq<DiskItem>): seq<DiskItem>
  {
    Scans.Filter(allItems, (x: DiskItem) => DuplicateOf(x, contextItem))
  }

  /** DuplicateIdTest.Execute. */
  function DuplicateIdTestResult(contextItem: DiskItem, allItems: seq<DiskItem>): TestResult
  {
    var duplicates := Duplicates(contextItem, allItems);
    if |duplicates| == 0 then Pass(Name(DuplicateIdTest))
    else Fail(Name(DuplicateIdTest), contextItem.item.id + " was present in other files: " + Join(',', Paths(duplicates)))
  }

  /**
   * The test passes exactly when no loaded file is a duplicate of the item; the item itself, a
   * file at the same path and a record of another database never are; and being a duplicate of
   * one another is symmetric.
   */
  lemma DuplicateIdTestVerdict(contextItem: DiskItem, allItems: seq<DiskItem>)
    ensures DuplicateIdTestResult(contextItem, allItems).passed <==> forall x | x in allItems :: !DuplicateOf(x, contextItem)
    ensures forall x | x in allItems && (x.fullPath == contextItem.fullPath || x.item.databaseName != contextItem.item.databaseName) ::
      x !in Duplicates(contextItem, allItems)
    ensures forall x, y | x in allItems && y in allItems :: DuplicateOf(x, y) <==> DuplicateOf(y, x)
  {
    var duplicates := Duplicates(contextItem, allItems);
    if |duplicates| > 0 {
      assert duplicates[0] in duplicates;
    }
  }

  /** Two files of one database holding the same ID each fail the test, and each one's message names the other's path. */
  lemma DuplicatesFailBoth(a: DiskItem, b: DiskItem, allItems: seq<DiskItem>)
    requires a in allItems && b in allItems && DuplicateOf(a, b)
    ensures !DuplicateIdTestResult(a, allItems).passed && !DuplicateIdTestResult(b, allItems).passed
    ensures b.fullPath in Paths(Duplicates(a, allItems)) && a.fullPath in Paths(Duplicates(b, allItems))
  {
    assert a in Duplicates(b, allItems);
    assert b in Duplicates(a, allItems);
    var da := Duplicates(a, allItems);
    var db := Duplicates(b, allItems);
    var i :| 0 <= i < |da| && da[i] == b;
    assert Paths(da)[i] == b.fullPath;
    var j :| 0 <= j < |db| && db[j] == a;
    assert Paths(db)[j] == a.fullPath;
  }

  // ---------------------------------------------------------------- InvalidMetadataTest

  /** InvalidMetadataTest runs twelve checks. */
  const MetadataCheckCount: nat := 12

  /**
   * The k-th check of InvalidMetadataTest: its failure message when it fails. The checks that
   * compare a parsed ID are only reached once that ID has parsed, so they look at parseable text only.
   */
  function MetadataCheck(item: SyncItem, k: nat): Option<string>
  {
    if k == 0 then (if !IsId(item.id) then Some(item.id + " is not a valid item ID.") else None)
    else if k == 1 then (if IsId(item.id) && item.id == NullId then Some("Item ID was the null ID.") else None)
    else if k == 2 then (if !IsId(item.parentId) then Some(item.parentId + " is not a valid parent ID.") else None)
    else if k == 3 then
      (if IsId(item.parentId) && item.parentId == NullId && item.id != RootId then Some("Parent ID was the null ID.") else None)
    else if k == 4 then (if !IsId(item.templateId) then Some(item.templateId + " is not a valid template ID.") else None)
    else if k == 5 then (if IsId(item.templateId) && item.templateId == NullId then Some("Template ID was the null ID.") else None)
    else if k == 6 then (if !IsId(item.masterId) then Some(item.masterId + " is not a valid master ID.") else None)
    else if k == 7 then (if IsBlank(item.templateName) then Some("Template name was null or empty.") else None)
    else if k == 8 then (if IsBlank(item.itemPath) then Some("Path was null or empty.") else None)
    else if k == 9 then (if IsBlank(item.databaseName) then Some("Database was null or empty.") else None)
    else if k == 10 then (if IsBlank(item.name) then Some("Item name was null or empty.") else None)
    else if k == 11 then
      (if |item.sharedFields| == 0 && (|item.versions| == 0 || |item.versions[0].fields| == 0)
       then Some("Item had no shared fields and no versioned fields. While this can be valid, it is highly unusual.")
       else None)
    else None
  }

  /** Every check's outcome, in the order the checks are written. */
  function Checks(item: SyncItem): (cs: seq<Option<string>>)
    ensures |cs| == MetadataCheckCount
  {
    seq(MetadataCheckCount, k requires 0 <= k < MetadataCheckCount => MetadataCheck(item, k))
  }

  /** The guarded returns from the k-th outcome on: the first failure's message, if any. */
  function FirstFailure(cs: seq<Option<string>>, k: nat): Option<string>
    decreases |cs| - k
  {
    if k >= |cs| then None
    else if cs[k].Some? then cs[k]
    else FirstFailure(cs, k + 1)
  }

  /** Every failure's message from the k-th outcome on, in order. */
  function Failures(cs: seq<Option<string>>, k: nat): seq<string>
    decreases |cs| - k
  {
    if k >= |cs| then []
    else (if cs[k].Some? then [cs[k].value] else []) + Failures(cs, k + 1)
  }

  /** The first failure is the head of the failure list, and there is none exactly when every outcome passes. */
  lemma {:induction false} FirstFailureIsFirst(cs: seq<Option<string>>, k: nat)
    ensures FirstFailure(cs, k).None? <==> Failures(cs, k) == []
    ensures FirstFailure(cs, k).Some? ==> FirstFailure(cs, k).value == Failures(cs, k)[0]
    ensures Failures(cs, k) == [] <==> forall j | k <= j < |cs| :: cs[j].None?
    decreases |cs| - k
  {
    if k < |cs| {
      FirstFailureIsFirst(cs, k + 1);
    }
  }

  /** InvalidMetadataTest.Execute: the first failing check decides. */
  function InvalidMetadataTestResult(contextItem: DiskItem): TestResult
  {
    match FirstFailure(Checks(contextItem.item), 0)
    case None => Pass(Name(InvalidMetadataTest))
    case Some(message) => Fail(Name(InvalidMetadataTest), message)
  }

  /**
   * The test passes exactly when every check passes; a failure reports the message of the
   * first failing check, in the order the checks are written.
   */
  lemma MetadataFirstProblemDecides(contextItem: DiskItem)
    ensures var r := InvalidMetadataTestResult(contextItem);
      (r.passed <==> forall k | 0 <= k < MetadataCheckCount :: MetadataCheck(contextItem.item, k).None?) &&
      (!r.passed ==> Failures(Checks(contextItem.item), 0) != [] && r.message == Some(Failures(Checks(contextItem.item), 0)[0]))
  {
    var cs := Checks(contextItem.item);
    FirstFailureIsFirst(cs, 0);
    assert forall k | 0 <= k < MetadataCheckCount :: cs[k] == MetadataCheck(contextItem.item, k);
  }

  /** Items whose checks agree get the same verdict. */
  lemma SameChecksSameVerdict(a: DiskItem, b: DiskItem)
    requires forall j | 0 <= j < MetadataCheckCount :: MetadataCheck(a.item, j) == MetadataCheck(b.item, j)
    ensures InvalidMetadataTestResult(a) == InvalidMetadataTestResult(b)
  {
    assert Checks(a.item) == Checks(b.item) by {
      assert forall j | 0 <= j < MetadataCheckCount :: Checks(a.item)[j] == Checks(b.item)[j];
    }
  }

  /** The checks read the IDs, the names, whether the master ID parses and whether there are fields, and nothing else. */
  lemma SameDataSameCheck(a: SyncItem, b: SyncItem, k: nat)
    requires a.id == b.id && a.parentId == b.parentId && a.templateId == b.templateId
    requires a.templateName == b.templateName && a.itemPath == b.itemPath && a.databaseName == b.databaseName && a.name == b.name
    requires IsId(a.masterId) == IsId(b.masterId) && (!IsId(a.masterId) ==> a.masterId == b.masterId)
    requires a.sharedFields == b.sharedFields
    requires (|a.versions| == 0 || |a.versions[0].fields| == 0) == (|b.versions| == 0 || |b.versions[0].fields| == 0)
    ensures MetadataCheck(a, k) == MetadataCheck(b, k)
  {
  }

  /** A null parent ID is accepted only on the root item. */
  lemma NullParentOnlyOnRoot(contextItem: DiskItem)
    requires IsId(contextItem.item.id) && contextItem.item.id != NullId && contextItem.item.parentId == NullId
    ensures InvalidMetadataTestResult(contextItem).passed ==> contextItem.item.id == RootId
  {
    MetadataFirstProblemDecides(contextItem);
    if InvalidMetadataTestResult(contextItem).passed {
      assert MetadataCheck(contextItem.item, 3).None?;
    }
  }

  /** A master ID that parses passes whatever it is, the null ID included. */
  lemma AnyParsedMasterId(contextItem: DiskItem, masterId: Id)
    requires IsId(contextItem.item.masterId)
    ensures InvalidMetadataTestResult(contextItem.(item := contextItem.item.(masterId := masterId))) ==
      InvalidMetadataTestResult(contextItem)
  {
    var item := contextItem.item;
    var other := item.(masterId := masterId);
    forall j | 0 <= j < MetadataCheckCount
      ensures MetadataCheck(other, j) == MetadataCheck(item, j)
    {
      SameDataSameCheck(other, item, j);
    }
    SameChecksSameVerdict(contextItem.(item := other), contextItem);
  }

  /** Only the first version's fields are looked at: later versions never change the verdict. */
  lemma OnlyFirstVersionCounts(contextItem: DiskItem, otherVersions: seq<SyncVersion>)
    requires |contextItem.item.versions| > 0
    ensures InvalidMetadataTestResult(contextItem.(item := contextItem.item.(versions := contextItem.item.versions[..1] + otherVersions)))
      == InvalidMetadataTestResult(contextItem)
  {
    var item := contextItem.item;
    var more := item.(versions := item.versions[..1] + otherVersions);
    assert more.versions[0] == item.versions[0];
    forall j | 0 <= j < MetadataCheckCount
      ensures MetadataCheck(more, j) == MetadataCheck(item, j)
    {
      SameDataSameCheck(more, item, j);
    }
    SameChecksSameVerdict(contextItem.(item := more), contextItem);
  }

  // ---------------------------------------------------------------- NoVersionsTest

  /** The fixed message of a record without versions. */
  const NoVersionsWarning: string := "This item had no versions in any language. This can be valid, but is highly unusual."

  /** NoVersionsTest.Execute. */
  function NoVersionsTestResult(contextItem: DiskItem): (r: TestResult)
    ensures r.testName == Name(NoVersionsTest)
    ensures r.passed <==> |contextItem.item.versions| > 0
    ensures r.message == if r.passed then None else Some(NoVersionsWarning)
  {
    if |contextItem.item.versions| > 0 then Pass(Name(NoVersionsTest))
    else Fail(Name(NoVersionsTest), NoVersionsWarning)
  }

  // ---------------------------------------------------------------- ITest.Execute

  /** ITest.Execute, dispatched on the test. */
  function Execute(host: Host, test: Test, contextItem: DiskItem, allItems: seq<DiskItem>): Result<TestResult>
  {
    match test
    case PathTest(rootPath, databaseName) => Ok(PathTestResult(host, rootPath, databaseName, contextItem))
    case ParentIdTest => ParentIdTestResult(host, contextItem, allItems)
    case DuplicateIdTest => Ok(DuplicateIdTestResult(contextItem, allItems))
    case InvalidMetadataTest => Ok(InvalidMetadataTestResult(contextItem))
    case NoVersionsTest => Ok(NoVersionsTestResult(contextItem))
  }

  /** The parent test's result, when it has one, carries the test's name, and a message exactly when it failed. */
  lemma ParentIdTestNamed(host: Host, contextItem: DiskItem, allItems: seq<DiskItem>)
    ensures var r := ParentIdTestResult(host, contextItem, allItems);
      r.Ok? ==> r.value.testName == Name(ParentIdTest) && (r.value.passed <==> r.value.message.None?)
  {
    var parent := ParentFile(host, contextItem);
    if host.fileExists(parent) {
      match FirstAtPath(allItems, parent)
      case None =>
      case Some(k) =>
        var parentItem := allItems[k];
        if parentItem.item.id != contextItem.item.parentId {
          var message := "Parent ID: " + contextItem.item.parentId + " did not match actual serialized parent ID " + parentItem.item.id;
          assert ParentIdTestResult(host, contextItem, allItems) == Ok(Fail(Name(ParentIdTest), message));
        }
    }
  }

  /** Every result carries its test's name and a message exactly when it failed; only the parent test can throw. */
  lemma ExecuteNamesItsTest(host: Host, test: Test, contextItem: DiskItem, allItems: seq<DiskItem>)
    ensures Execute(host, test, contextItem, allItems).Ok? ==>
      Execute(host, test, contextItem, allItems).value.testName == Name(test) &&
      (Execute(host, test, contextItem, allItems).value.passed <==> Execute(host, test, contextItem, allItems).value.message.None?)
    ensures Execute(host, test, contextItem, allItems).Throws? ==> test.ParentIdTest?
  {
    match test
    case PathTest(rootPath, databaseName) =>
      var r := PathTestResult(host, rootPath, databaseName, contextItem);
      assert r.testName == Name(test) && (r.passed <==> r.message.None?);
    case ParentIdTest =>
      ParentIdTestNamed(host, contextItem, allItems);
    case DuplicateIdTest =>
      var r := DuplicateIdTestResult(contextItem, allItems);
      assert r.testName == Name(test) && (r.passed <==> r.message.None?);
    case InvalidMetadataTest =>
      var r := InvalidMetadataTestResult(contextItem);
      assert r.testName == Name(test) && (r.passed <==> r.message.None?);
    case NoVersionsTest =>
  }

  /** The path, metadata and no-versions tests look at the item alone, not at the other files. */
  lemma ExecuteIgnoresOtherFiles(host: Host, test: Test, contextItem: DiskItem, allItems: seq<DiskItem>, otherItems: seq<DiskItem>)
    requires test.PathTest? || test.InvalidMetadataTest? || test.NoVersionsTest?
    ensures Execute(host, test, contextItem, allItems) == Execute(host, test, contextItem, otherItems)
  {
  }

  /** ITest.Execute as a method: the path test runs its step-by-step body. */
  method ExecuteTest(host: Host, test: Test, contextItem: DiskItem, allItems: seq<DiskItem>) returns (r: Result<TestResult>)
    ensures r == Execute(host, test, contextItem, allItems)
  {
    match test
    case PathTest(rootPath, databaseName) =>
      var result := ExecutePathTest(host, rootPath, databaseName, contextItem);
      r := Ok(result);
    case ParentIdTest =>
      r := ParentIdTestResult(host, contextItem, allItems);
    case DuplicateIdTest =>
      r := Ok(DuplicateIdTestResult(contextItem, allItems));
    case InvalidMetadataTest =>
      r := Ok(InvalidMetadataTestResult(contextItem));
    case NoVersionsTest =>
      r := Ok(NoVersionsTestResult(contextItem));
  }
}
