/**
 * The record-level rules the data providers share: how an item definition names its item,
 * how ResolvePath normalises a path, the ID and field lists the providers build, version
 * numbering for AddVersion, version removal, and the record CreateItem writes.
 */
module ProviderRules {
  import opened Outcomes
  import opened Text
  import opened Ids
  import opened SyncItems
  import opened Scans
  import opened ItemPaths

  /** Sitecore's ItemDefinition; `EmptyDefinition` stands for the `ItemDefinition.Empty` sentinel. */
  datatype ItemDefinition = EmptyDefinition | Definition(id: Id, name: string, templateId: Id, branchId: Id)

  /** The ID of a definition; the sentinel carries the null ID. */
  function DefinitionId(d: ItemDefinition): Id
  {
    if d.EmptyDefinition? then NullId else d.id
  }

  // ---------------------------------------------------------------- ResolvePath

  /** The path ResolvePath looks up: trailing '/' trimmed, and what is left of "/" read as "/sitecore". */
  function NormalisePath(itemPath: string): (p: string)
    ensures p != [] && p[|p| - 1] != '/'
  {
    var trimmed := TrimEnd(itemPath, '/');
    if trimmed == "" then "/sitecore" else trimmed
  }

  /** Normalising a normalised path changes nothing. */
  lemma NormalisePathIdempotent(itemPath: string)
    ensures NormalisePath(NormalisePath(itemPath)) == NormalisePath(itemPath)
  {
  }

  /** A trailing '/' never changes the path looked up. */
  lemma NormaliseIgnoresTrailingSlash(itemPath: string)
    ensures NormalisePath(itemPath + "/") == NormalisePath(itemPath)
  {
    assert (itemPath + "/")[..|itemPath|] == itemPath;
  }

  /**
   * SerializationDataProvider.ResolvePath: an empty path is refused; text that parses as an ID
   * is returned as that ID without a lookup; otherwise the record at the normalised path gives
   * its ID, and None (null) when there is no such record.
   */
  function ResolvedPath(items: seq<SyncItem>, itemPath: string): Result<Option<Id>>
  {
    if itemPath == "" then Throws(ArgumentEmpty)
    else if IsId(itemPath) then Ok(Some(itemPath))
    else match FindByPath(items, NormalisePath(itemPath))
      case None => Ok(None)
      case Some(record) =>
        match GetSitecoreId(record)
        case Throws(f) => Throws(f)
        case Ok(id) => Ok(Some(id))
  }

  /** RhinoSerializationDataProvider.ResolvePath: the same rule, with ID.Null where the other answers null. */
  function RhinoResolvedPath(items: seq<SyncItem>, itemPath: string): Result<Id>
  {
    match ResolvedPath(items, itemPath)
    case Throws(f) => Throws(f)
    case Ok(None) => Ok(NullId)
    case Ok(Some(id)) => Ok(id)
  }

  /**
   * For a path that is not ID text, ResolvePath answers the ID of a record at the normalised
   * path, and answers None exactly when no record is at that path.
   */
  lemma ResolvePathFindsRecord(items: seq<SyncItem>, itemPath: string)
    requires itemPath != "" && !IsId(itemPath)
    ensures ResolvedPath(items, itemPath) == Ok(None) <==>
      forall r | r in items :: !AtPath(r, NormalisePath(itemPath))
    ensures ResolvedPath(items, itemPath).Ok? && ResolvedPath(items, itemPath).value.Some? ==>
      exists r | r in items :: AtPath(r, NormalisePath(itemPath)) && r.id == ResolvedPath(items, itemPath).value.value
  {
    var p := NormalisePath(itemPath);
    match IndexOfPath(items, p)
    case None =>
    case Some(k) =>
      assert items[k] in items;
  }

  /** Trailing slashes do not change what a path resolves to. */
  lemma ResolvePathIgnoresTrailingSlash(items: seq<SyncItem>, itemPath: string)
    requires itemPath != "" && !IsId(itemPath)
    ensures ResolvedPath(items, itemPath + "/") == ResolvedPath(items, itemPath)
  {
    var s := itemPath + "/";
    assert s[|s| - 1] == '/';
    NormaliseIgnoresTrailingSlash(itemPath);
  }

  /** The root path "/" resolves as "/sitecore" does. */
  lemma ResolveRootIsSitecore(items: seq<SyncItem>)
    ensures ResolvedPath(items, "/") == ResolvedPath(items, "/sitecore")
  {
    assert TrimEnd("/", '/') == TrimEnd("", '/');
    assert TrimEnd("/sitecore", '/') == "/sitecore";
    assert NormalisePath("/") == "/sitecore" == NormalisePath("/sitecore");
    assert !IsId("/") && !IsId("/sitecore");
  }

  /** The literal of an ID is its own answer: ResolvePath never looks it up. */
  lemma ResolveIdText(items: seq<SyncItem>, id: Id)
    ensures ResolvedPath(items, id) == Ok(Some(id))
    ensures RhinoResolvedPath(items, id) == Ok(id)
  {
  }

  // ---------------------------------------------------------------- ID and field lists

  /** The IDs of `records` in order, as GetChildIDs collects them; the first unparseable one throws. */
  function IdsOf(records: seq<SyncItem>): (r: Result<seq<Id>>)
    ensures r.Ok? <==> forall i | 0 <= i < |records| :: IsId(records[i].id)
    ensures r.Ok? ==> |r.value| == |records| && forall i | 0 <= i < |records| :: r.value[i] == records[i].id
    ensures r.Throws? ==> r.failure == ArgumentOutOfRange
    decreases |records|
  {
    if |records| == 0 then Ok([])
    else match IdsOf(records[..|records| - 1])
      case Throws(f) => Throws(f)
      case Ok(front) =>
        match GetSitecoreId(records[|records| - 1])
        case Throws(f) => Throws(f)
        case Ok(id) => Ok(front + [id])
  }
  /** The IDs parse exactly when every record's does, and then are exactly the records' IDs. */
  lemma IdsOfMembers(records: seq<SyncItem>)
    ensures IdsOf(records).Ok? <==> forall c | c in records :: IsId(c.id)
    ensures IdsOf(records).Ok? ==> forall id :: id in IdsOf(records).value <==> exists c | c in records :: c.id == id
  {
    var r := IdsOf(records);
    if forall c | c in records :: IsId(c.id) {
      assert forall i | 0 <= i < |records| :: IsId(records[i].id) by {
        forall i | 0 <= i < |records| ensures IsId(records[i].id) {
          assert records[i] in records;
        }
      }
    }
    if r.Ok? {
      forall id ensures id in r.value <==> exists c | c in records :: c.id == id {
        if id in r.value {
          var i :| 0 <= i < |r.value| && r.value[i] == id;
          assert records[i] in records;
        }
        if exists c | c in records :: c.id == id {
          var c :| c in records && c.id == id;
          var i :| 0 <= i < |records| && records[i] == c;
          assert r.value[i] == id;
        }
      }
    }
  }


  /** The foreach of GetChildIDs: add each record's parsed ID to the list. */
  method CollectIds(records: seq<SyncItem>) returns (r: Result<seq<Id>>)
    ensures r == IdsOf(records)
  {
    var ids: seq<Id> := [];
    for i := 0 to |records|
      invariant IdsOf(records[..i]) == Ok(ids)
    {
      assert records[..i + 1][..i] == records[..i];
      var id := GetSitecoreId(records[i]);
      if id.Throws? {
        assert !IsId(records[..i + 1][i].id);
        return Throws(id.failure);
      }
      ids := ids + [id.value];
    }
    assert records[..|records|] == records;
    return Ok(ids);
  }

  /** A FieldList entry: a field ID and its value. */
  datatype FieldValue = FieldValue(fieldId: Id, value: string)

  /** The entries of `fields` in order, each parsed by SyncFieldExtensions.GetSitecoreId; the first unparseable ID throws. */
  function FieldsOf(fields: seq<SyncField>): (r: Result<seq<FieldValue>>)
    ensures r.Ok? <==> forall i | 0 <= i < |fields| :: IsId(fields[i].fieldId)
    ensures r.Ok? ==> |r.value| == |fields|
    ensures r.Ok? ==> forall i | 0 <= i < |fields| :: r.value[i] == FieldValue(fields[i].fieldId, fields[i].fieldValue)
    ensures r.Throws? ==> r.failure == ArgumentOutOfRange
    decreases |fields|
  {
    if |fields| == 0 then Ok([])
    else match FieldsOf(fields[..|fields| - 1])
      case Throws(f) => Throws(f)
      case Ok(front) =>
        var last := fields[|fields| - 1];
        if IsId(last.fieldId) then Ok(front + [FieldValue(last.fieldId, last.fieldValue)]) else Throws(ArgumentOutOfRange)
  }

  /** GetItemFields of a found record: the shared fields, then those of the version asked for when it exists. */
  function ItemFields(item: SyncItem, uri: VersionUri): Result<seq<FieldValue>>
  {
    match FieldsOf(item.sharedFields)
    case Throws(f) => Throws(f)
    case Ok(shared) =>
      match GetVersion(item, uri)
      case None => Ok(shared)
      case Some(v) =>
        match FieldsOf(v.fields)
        case Throws(f) => Throws(f)
        case Ok(versioned) => Ok(shared + versioned)
  }

  /**
   * The field list starts with every shared field in order; after them come exactly the fields
   * of the version GetVersion finds, and nothing when it finds none.
   */
  lemma ItemFieldsOrder(item: SyncItem, uri: VersionUri)
    ensures ItemFields(item, uri).Ok? ==>
      var fs := ItemFields(item, uri).value;
      var n := |item.sharedFields|;
      |fs| >= n &&
      (forall i | 0 <= i < n :: fs[i] == FieldValue(item.sharedFields[i].fieldId, item.sharedFields[i].fieldValue)) &&
      (GetVersion(item, uri).None? ==> |fs| == n) &&
      (GetVersion(item, uri).Some? ==>
        var v := GetVersion(item, uri).value;
        |fs| == n + |v.fields| &&
        forall j | 0 <= j < |v.fields| :: fs[n + j] == FieldValue(v.fields[j].fieldId, v.fields[j].fieldValue))
  {
  }

  /** Add the entries of `fields` to `list`, as a foreach with FieldList.Add does. */
  method AddFields(list: seq<FieldValue>, fields: seq<SyncField>) returns (r: Result<seq<FieldValue>>)
    ensures FieldsOf(fields).Throws? ==> r == Throws(FieldsOf(fields).failure)
    ensures FieldsOf(fields).Ok? ==> r == Ok(list + FieldsOf(fields).value)
  {
    var out := list;
    for i := 0 to |fields|
      invariant FieldsOf(fields[..i]).Ok? && out == list + FieldsOf(fields[..i]).value
    {
      assert fields[..i + 1][..i] == fields[..i];
      var field := fields[i];
      if !IsId(field.fieldId) {
        assert !IsId(fields[..i + 1][i].fieldId);
        return Throws(ArgumentOutOfRange);
      }
      out := out + [FieldValue(field.fieldId, field.fieldValue)];
    }
    assert fields[..|fields|] == fields;
    return Ok(out);
  }

  /** The two loops of GetItemFields for a found record. */
  method CollectFields(item: SyncItem, uri: VersionUri) returns (r: Result<seq<FieldValue>>)
    ensures r == ItemFields(item, uri)
  {
    r := AddFields([], item.sharedFields);
    assert r.Ok? ==> r.value == FieldsOf(item.sharedFields).value;
    if r.Throws? {
      return;
    }
    var version := GetVersion(item, uri);
    if version.None? {
      return;
    }
    r := AddFields(r.value, version.value.fields);
  }

  /** The foreach of GetItemVersions: one (language, version) pair per version, in order. */
  method CollectVersionKeys(item: SyncItem) returns (r: seq<(string, string)>)
    ensures |r| == |item.versions|
    ensures forall i | 0 <= i < |r| :: r[i] == (item.versions[i].language, item.versions[i].version)
  {
    r := [];
    for i := 0 to |item.versions|
      invariant |r| == i
      invariant forall j | 0 <= j < i :: r[j] == (item.versions[j].language, item.versions[j].version)
    {
      r := r + [(item.versions[i].language, item.versions[i].version)];
    }
  }

  // ---------------------------------------------------------------- GetParentID, GetItemDefinition

  /** GetParentID of a lookup: None for a missing record or the null parent ID; an unparseable parent ID throws. */
  function ParentIdOf(found: Option<SyncItem>): (r: Result<Option<Id>>)
    ensures found.None? ==> r == Ok(None)
    ensures found.Some? ==> (r.Throws? <==> !IsId(found.value.parentId))
    ensures r.Ok? && r.value.Some? ==> found.Some? && r.value.value == found.value.parentId && r.value.value != NullId
  {
    match found
    case None => Ok(None)
    case Some(item) =>
      match GetSitecoreParentId(item)
      case Throws(f) => Throws(f)
      case Ok(parentId) => if parentId == NullId then Ok(None) else Ok(Some(parentId))
  }

  /** GetParentID and GetChildIDs agree: a record whose parent GetParentID names is among that parent's children. */
  lemma ParentListsChild(items: seq<SyncItem>, id: Id)
    ensures var p := ParentIdOf(FindById(items, id));
      p.Ok? && p.value.Some? ==> FindById(items, id).value in ChildrenOf(items, p.value.value)
  {
    match IndexOfId(items, id)
    case None =>
    case Some(k) =>
      assert items[k] in items;
  }

  /**
   * GetItemDefinition of a found record: name, template ID and branch ID must be non-empty
   * (AssertionFailed), and the two IDs must parse (ID.Parse, Format).
   */
  function DefinitionOf(itemId: Id, item: SyncItem): (r: Result<ItemDefinition>)
    ensures r.Ok? <==> item.name != "" && IsId(item.templateId) && IsId(item.branchId)
    ensures r.Ok? ==> r.value == Definition(itemId, item.name, item.templateId, item.branchId)
    ensures r.Throws? ==> r.failure == (if item.name == "" || item.templateId == "" || item.branchId == "" then AssertionFailed else Format)
  {
    if item.name == "" || item.templateId == "" || item.branchId == "" then Throws(AssertionFailed)
    else if !IsId(item.templateId) || !IsId(item.branchId) then Throws(Format)
    else Ok(Definition(itemId, item.name, item.templateId, item.branchId))
  }

  // ---------------------------------------------------------------- CreateItem

  /**
   * The record CreateItem writes under a parent whose path is `parentPath`: the given ID, name,
   * template and parent, the child path, the null master ID, no branch, fields or versions.
   */
  function NewItem(itemId: Id, itemName: string, templateId: Id, templateName: string, parentId: Id,
                   databaseName: string, parentPath: string): SyncItem
  {
    SyncItem(itemId, parentId, templateId, templateName, itemName, ChildPath(parentPath, itemName),
             databaseName, NullId, "", [], [])
  }

  /** The created record parses back to the IDs it was made from, and its path to the parent's path and its name. */
  lemma NewItemLiesUnderParent(itemId: Id, itemName: string, templateId: Id, templateName: string, parentId: Id,
                               databaseName: string, parentPath: string)
    requires '/' !in itemName
    ensures var r := NewItem(itemId, itemName, templateId, templateName, parentId, databaseName, parentPath);
      GetSitecoreId(r) == Ok(itemId) && GetSitecoreParentId(r) == Ok(parentId) &&
      ParentPath(r.itemPath) == Some(parentPath) && LastSegment(r.itemPath) == itemName &&
      r.masterId == NullId && r.versions == [] && r.sharedFields == []
  {
    ChildPathParts(parentPath, itemName);
  }

  // ---------------------------------------------------------------- AddVersion

  /**
   * Enumerable.Max(x => int.Parse(x.Version)): InvalidOperationException for no versions, and
   * FormatException at the first version text that is not a number.
   */
  function MaxVersion(vs: seq<SyncVersion>): (r: Result<int>)
    ensures r == Throws(InvalidOperation) <==> vs == []
    ensures r.Ok? <==> vs != [] && forall i | 0 <= i < |vs| :: ParseInt(vs[i].version).Some?
    ensures r.Ok? ==> forall i | 0 <= i < |vs| :: ParseInt(vs[i].version).value <= r.value
    ensures r.Ok? ==> exists i | 0 <= i < |vs| :: ParseInt(vs[i].version) == Some(r.value)
    ensures r.Throws? ==> r.failure == InvalidOperation || r.failure == Format
    decreases |vs|
  {
    if |vs| == 0 then Throws(InvalidOperation)
    else match ParseInt(vs[0].version)
      case None => Throws(Format)
      case Some(n) =>
        if |vs| == 1 then Ok(n)
        else match MaxVersion(vs[1..])
          case Throws(f) => Throws(f)
          case Ok(m) => Ok(if n >= m then n else m)
  }

  function Max(a: int, b: int): int
  {
    if a >= b then a else b
  }

  /** The versions AddVersion's Where keeps, as written: language equal to the requested one, ordinal and case-sensitive. */
  function SameLanguageAsWritten(vs: seq<SyncVersion>, language: string): seq<SyncVersion>
  {
    Filter(vs, (v: SyncVersion) => v.language == language)
  }

  /** The versions of `language` compared ignoring case, as GetVersion compares languages. */
  function SameLanguage(vs: seq<SyncVersion>, language: string): seq<SyncVersion>
  {
    Filter(vs, (v: SyncVersion) => EqualsIgnoreCase(v.language, language))
  }

  /** AddVersion's new number as written: the larger of base + 1 and the case-sensitive same-language maximum + 1. */
  function NextVersionNumberAsWritten(vs: seq<SyncVersion>, base: VersionUri): Result<int>
  {
    match MaxVersion(SameLanguageAsWritten(vs, base.language))
    case Throws(f) => Throws(f)
    case Ok(m) => Ok(Max(base.number + 1, m + 1))
  }

  /** AddVersion's new number with the language compared as GetVersion compares it. */
  function NextVersionNumber(vs: seq<SyncVersion>, base: VersionUri): Result<int>
  {
    match MaxVersion(SameLanguage(vs, base.language))
    case Throws(f) => Throws(f)
    case Ok(m) => Ok(Max(base.number + 1, m + 1))
  }

  /**
   * As written, the base version can be found (its language matches ignoring case) while the
   * case-sensitive Where keeps nothing, and Max then throws InvalidOperationException.
   */
  lemma NextVersionNumberAsWrittenFindsNothing()
    ensures var item := SyncItem("", "", "", "", "", "", "", "", "", [], [SyncVersion("EN", "1", "", [])]);
      var base := VersionUri("en", 1);
      GetVersion(item, base).Some? && NextVersionNumberAsWritten(item.versions, base) == Throws(InvalidOperation)
  {
    var v := SyncVersion("EN", "1", "", []);
    assert Fold("EN") == Fold("en") by {
      assert Fold("EN") == [Lower('E')] + Fold("N");
      assert Fold("N") == [Lower('N')] + Fold("");
      assert Fold("en") == [Lower('e')] + Fold("n");
      assert Fold("n") == [Lower('n')] + Fold("");
    }
    assert DecimalString(1) == "1";
    assert Answers(v, VersionUri("en", 1));
    assert !(v.language == "en");
    assert SameLanguageAsWritten([v], "en") == [];
  }

  /**
   * As written, the number can also be one a version of the language already has: with "EN"
   * version 2 and "en" version 1 stored and base en#1, the case-sensitive Where sees only
   * version 1, the new number is 2, and GetVersion already answers en#2 with the "EN" version.
   */
  lemma NextVersionNumberAsWrittenDuplicates()
    ensures var item := SyncItem("", "", "", "", "", "", "", "", "", [], [SyncVersion("EN", "2", "", []), SyncVersion("en", "1", "", [])]);
      var base := VersionUri("en", 1);
      GetVersion(item, base) == Some(item.versions[1]) && NextVersionNumberAsWritten(item.versions, base) == Ok(2)
      && GetVersion(item, VersionUri("en", 2)) == Some(item.versions[0])
  {
    var upper := SyncVersion("EN", "2", "", []);
    var lower := SyncVersion("en", "1", "", []);
    assert Fold("EN") == Fold("en") by {
      assert Fold("EN") == [Lower('E')] + Fold("N");
      assert Fold("N") == [Lower('N')] + Fold("");
      assert Fold("en") == [Lower('e')] + Fold("n");
      assert Fold("n") == [Lower('n')] + Fold("");
    }
    assert DecimalString(1) == "1" && DecimalString(2) == "2";
    assert !Answers(upper, VersionUri("en", 1));
    assert Answers(lower, VersionUri("en", 1));
    assert Answers(upper, VersionUri("en", 2));
    var vs := [upper, lower];
    assert upper.language != "en" by { assert upper.language[0] != "en"[0]; }
    assert vs[1..] == [lower] && vs[1..][1..] == [];
    assert SameLanguageAsWritten(vs, "en") == SameLanguageAsWritten([lower], "en");
    assert SameLanguageAsWritten([lower], "en") == [lower];
    assert ParseInt("1") == Some(1);
  }

  /**
   * With the language compared ignoring case, the base version is always among the versions
   * the maximum is taken over, so Max never meets an empty list; and the new number is above
   * the base number and above every version number of the language.
   */
  lemma NextVersionNumberIsFresh(item: SyncItem, base: VersionUri)
    requires GetVersion(item, base).Some?
    ensures NextVersionNumber(item.versions, base) != Throws(InvalidOperation)
    ensures NextVersionNumber(item.versions, base).Ok? ==>
      var n := NextVersionNumber(item.versions, base).value;
      n > base.number &&
      forall v | v in item.versions && EqualsIgnoreCase(v.language, base.language) ::
        ParseInt(v.version).Some? && ParseInt(v.version).value < n
  {
    var k := VersionIndex(item.versions, base).value;
    var same := SameLanguage(item.versions, base.language);
    assert item.versions[k] in same;
    match MaxVersion(same)
    case Throws(f) =>
    case Ok(m) =>
      forall v | v in item.versions && EqualsIgnoreCase(v.language, base.language)
        ensures ParseInt(v.version).Some? && ParseInt(v.version).value <= m
      {
        assert v in same;
        var j :| 0 <= j < |same| && same[j] == v;
      }
  }

  /**
   * AddVersion on a found record: for a positive base number the base version must exist, and a
   * clone of it renumbered past every version of its language is appended; otherwise version
   * "1" with a fresh revision and no fields is appended. The second value is the new number.
   */
  function AddedVersion(item: SyncItem, base: VersionUri, newRevision: string): Result<(SyncItem, int)>
  {
    if base.number > 0 then
      match GetVersion(item, base)
      case None => Throws(AssertionFailed)
      case Some(baseVersion) =>
        match NextVersionNumber(item.versions, base)
        case Throws(f) => Throws(f)
        case Ok(n) => Ok((item.(versions := item.versions + [baseVersion.(version := DecimalString(n))]), n))
    else
      Ok((item.(versions := item.versions + [SyncVersion(base.language, "1", newRevision, [])]), 1))
  }

  /**
   * The added version is appended and nothing else of the record changes; for a positive base
   * number, the new number addresses exactly the added version, a clone of the base version.
   */
  lemma AddedVersionIsFound(item: SyncItem, base: VersionUri, newRevision: string)
    ensures AddedVersion(item, base, newRevision).Ok? ==>
      var (item', n) := AddedVersion(item, base, newRevision).value;
      |item'.versions| == |item.versions| + 1 && item'.versions[..|item.versions|] == item.versions &&
      item'.(versions := item.versions) == item &&
      (base.number > 0 ==>
        GetVersion(item', VersionUri(base.language, n)) == Some(item'.versions[|item.versions|]) &&
        item'.versions[|item.versions|].(version := GetVersion(item, base).value.version) == GetVersion(item, base).value)
  {
    if AddedVersion(item, base, newRevision).Ok? {
      var (item', n) := AddedVersion(item, base, newRevision).value;
      assert item'.versions[..|item.versions|] == item.versions;
      if base.number > 0 {
        NextVersionNumberIsFresh(item, base);
        var bv := GetVersion(item, base).value;
        var k := VersionIndex(item.versions, base).value;
        var uri := VersionUri(base.language, n);
        var added := item'.versions[|item.versions|];
        ParseDecimalString(n);
        assert Answers(added, uri);
        forall j | 0 <= j < |item.versions|
          ensures !Answers(item'.versions[j], uri)
        {
          var v := item.versions[j];
          assert item'.versions[j] == v;
          assert v in item.versions;
          assert Answers(v, uri) ==> ParseInt(v.version) == Some(n);
        }
      }
    }
  }

  // ---------------------------------------------------------------- RemoveVersion, RemoveVersions

  /** RemoveVersion on a found record: the version GetVersion finds is taken out; AssertionFailed when there is none. */
  function RemovedVersion(item: SyncItem, uri: VersionUri): Result<SyncItem>
  {
    match VersionIndex(item.versions, uri)
    case None => Throws(AssertionFailed)
    case Some(k) => Ok(item.(versions := item.versions[..k] + item.versions[k + 1..]))
  }

  /** Exactly the found version goes: one fewer version, the rest in order, the rest of the record unchanged. */
  lemma RemovedVersionShape(item: SyncItem, uri: VersionUri)
    ensures RemovedVersion(item, uri).Ok? <==> GetVersion(item, uri).Some?
    ensures RemovedVersion(item, uri).Ok? ==>
      var item' := RemovedVersion(item, uri).value;
      |item'.versions| == |item.versions| - 1 &&
      multiset(item'.versions) + multiset{GetVersion(item, uri).value} == multiset(item.versions) &&
      item'.(versions := item.versions) == item
    ensures RemovedVersion(item, uri).Ok? ==>
      var k := VersionIndex(item.versions, uri).value;
      RemovedVersion(item, uri).value.versions == item.versions[..k] + item.versions[k + 1..]
  {
    match VersionIndex(item.versions, uri)
    case None =>
    case Some(k) =>
      CutMultiset(item.versions, k);
  }

  /** What RemoveVersions evidently intends: every version in `language`, ignoring case, taken out; the others kept in order. */
  function WithoutLanguage(vs: seq<SyncVersion>, language: string): seq<SyncVersion>
  {
    Filter(vs, (v: SyncVersion) => !EqualsIgnoreCase(v.language, language))
  }

  /** After removal no version address in that language finds anything, and every version of another language is kept. */
  lemma WithoutLanguageHidesLanguage(item: SyncItem, language: string, uri: VersionUri)
    requires EqualsIgnoreCase(uri.language, language)
    ensures GetVersion(item.(versions := WithoutLanguage(item.versions, language)), uri).None?
    ensures forall v | v in item.versions :: v in WithoutLanguage(item.versions, language) <==> !EqualsIgnoreCase(v.language, language)
  {
    var item' := item.(versions := WithoutLanguage(item.versions, language));
    GetVersionComplete(item', uri);
  }

  /** The corrected RemoveVersions loop: from the last index down to 0, remove each version in `language`. */
  method RemoveLanguageVersions(versions: seq<SyncVersion>, language: string) returns (vs: seq<SyncVersion>)
    ensures vs == WithoutLanguage(versions, language)
  {
    vs := versions;
    var i := |versions|;
    assert versions[i..] == [];
    while i > 0
      invariant 0 <= i <= |versions|
      invariant vs == versions[..i] + WithoutLanguage(versions[i..], language)
    {
      i := i - 1;
      var tail := versions[i..];
      assert tail[0] == versions[i] && tail[1..] == versions[i + 1..];
      assert versions[..i + 1] == versions[..i] + [versions[i]];
      assert vs[i] == versions[i];
      if EqualsIgnoreCase(vs[i].language, language) {
        vs := vs[..i] + vs[i + 1..];
      }
    }
    assert versions[..0] == [];
  }

  /**
   * The state of the RemoveVersions loop as written at index `i`: what the rest of the loop
   * produces. Versions[i] with i at or past Count throws ArgumentOutOfRangeException.
   */
  function RemoveVersionsFrom(vs: seq<SyncVersion>, language: string, i: int): Result<seq<SyncVersion>>
    decreases i
  {
    if i <= 0 then Ok(vs)
    else if i >= |vs| then Throws(ArgumentOutOfRange)
    else RemoveVersionsFrom(if EqualsIgnoreCase(vs[i].language, language) then vs[..i] + vs[i + 1..] else vs, language, i - 1)
  }

  /**
   * The RemoveVersions loop as written: `i` starts at Count and stops before 0. The first read,
   * Versions[Count], is out of range, so any version at all makes it throw, and no versions
   * leaves the list as it was.
   */
  method RemoveVersionsAsWritten(versions: seq<SyncVersion>, language: string) returns (r: Result<seq<SyncVersion>>)
    ensures versions != [] ==> r == Throws(ArgumentOutOfRange)
    ensures versions == [] ==> r == Ok(versions)
  {
    var vs := versions;
    var i: int := |vs|;
    while i > 0
      invariant RemoveVersionsFrom(vs, language, i) == RemoveVersionsFrom(versions, language, |versions|)
      decreases i
    {
      if i >= |vs| {
        return Throws(ArgumentOutOfRange);
      }
      if EqualsIgnoreCase(vs[i].language, language) {
        vs := vs[..i] + vs[i + 1..];
      }
      i := i - 1;
    }
    return Ok(vs);
  }

  /** Even started at Count - 1, the loop stops before index 0: a single version in the language survives. */
  lemma RemoveVersionsNeverReadsFirst(v: SyncVersion)
    ensures RemoveVersionsFrom([v], v.language, |[v]| - 1) == Ok([v])
    ensures WithoutLanguage([v], v.language) == []
  {
  }
}
