/**
 * FilteredSerializationDataProvider: a SerializationDataProvider that answers only for the items
 * its filter includes, so that it can sit ahead of the SQL provider and override it on the parts
 * of the tree a serialization preset names. The base provider is a field here; every operation
 * first asks the filter (ShouldExecuteProvider) and then delegates.
 */
module FilteredProvider {
  import opened Outcomes
  import opened Text
  import opened Ids
  import opened SyncItems
  import opened Scans
  import opened ItemPaths
  import opened Descendants
  import opened Disk
  import opened Database
  import opened ProviderRules
  import opened ProviderOutcomes
  import opened Filtering
  import opened SerializationProvider

  // ---------------------------------------------------------------- ShouldExecuteProvider

  /** ShouldExecuteProvider(ID): false for an item this store does not hold, else whether the filter includes its record. */
  function Gate(items: seq<SyncItem>, filter: SerializationPresetFilter, id: Id): Result<bool>
  {
    match FindById(items, id)
    case None => Ok(false)
    case Some(item) =>
      match PresetDecision(filter.preset, ItemOutcome(item))
      case Throws(f) => Throws(f)
      case Ok(result) => Ok(result.isIncluded)
  }

  /** The provider only ever executes for records it holds. */
  lemma GateNeedsRecord(items: seq<SyncItem>, filter: SerializationPresetFilter, def: ItemDefinition)
    ensures Gate(items, filter, DefinitionId(def)) == Ok(true) ==> Lookup(items, def).Some?
  {
  }

  /**
   * ShouldExecuteProvider(parent, childName, ...): false when the host has no such parent (its
   * full path is None), else whether the filter includes the would-be child at the parent's path
   * plus its name.
   */
  function ChildGate(filter: SerializationPresetFilter, parentFullPath: Option<string>, childName: string, childId: Id,
                     childTemplateId: Id, childTemplateName: string, databaseName: string): bool
  {
    match parentFullPath
    case None => false
    case Some(path) =>
      match PresetDecision(filter.preset, CriteriaOutcome(ChildPath(path, childName), childId, childTemplateId, childTemplateName, databaseName))
      case Ok(result) => result.isIncluded
      case Throws(_) => false
  }

  /** The ID of a definition's template; the sentinel's is the null ID. */
  function DefinitionTemplateId(d: ItemDefinition): Id
  {
    if d.EmptyDefinition? then NullId else d.templateId
  }

  // ---------------------------------------------------------------- GetChildIDs

  /** No ID occurs twice. */
  predicate Distinct(s: seq<Id>)
  {
    forall i, j | 0 <= i < j < |s| :: s[i] != s[j]
  }

  /** The loop over the base provider's child IDs: keep those ShouldExecuteProvider accepts, in order; a throw propagates. */
  function IncludedIds(items: seq<SyncItem>, filter: SerializationPresetFilter, ids: seq<Id>): Result<seq<Id>>
    decreases |ids|
  {
    if ids == [] then Ok([])
    else match IncludedIds(items, filter, ids[..|ids| - 1])
      case Throws(f) => Throws(f)
      case Ok(front) =>
        match Gate(items, filter, ids[|ids| - 1])
        case Throws(f) => Throws(f)
        case Ok(keep) => Ok(if keep then front + [ids[|ids| - 1]] else front)
  }

  /** The loop fails only when some gate throws. */
  lemma {:induction false} IncludedIdsOk(items: seq<SyncItem>, filter: SerializationPresetFilter, ids: seq<Id>)
    ensures IncludedIds(items, filter, ids).Ok? <==> forall i | 0 <= i < |ids| :: Gate(items, filter, ids[i]).Ok?
    decreases |ids|
  {
    if ids != [] {
      var front := ids[..|ids| - 1];
      IncludedIdsOk(items, filter, front);
      assert forall i | 0 <= i < |front| :: front[i] == ids[i];
    }
  }

  /** The kept IDs are exactly the accepted ones. */
  lemma {:induction false} IncludedIdsKept(items: seq<SyncItem>, filter: SerializationPresetFilter, ids: seq<Id>)
    ensures IncludedIds(items, filter, ids).Ok? ==>
      forall id :: id in IncludedIds(items, filter, ids).value <==> id in ids && Gate(items, filter, id) == Ok(true)
    decreases |ids|
  {
    if ids != [] {
      var front := ids[..|ids| - 1];
      var last := ids[|ids| - 1];
      assert ids == front + [last];
      IncludedIdsKept(items, filter, front);
    }
  }

  /** Distinct IDs stay distinct. */
  lemma {:induction false} IncludedIdsDistinct(items: seq<SyncItem>, filter: SerializationPresetFilter, ids: seq<Id>)
    ensures IncludedIds(items, filter, ids).Ok? && Distinct(ids) ==> Distinct(IncludedIds(items, filter, ids).value)
    decreases |ids|
  {
    if ids != [] {
      var front := ids[..|ids| - 1];
      var last := ids[|ids| - 1];
      assert ids == front + [last];
      IncludedIdsDistinct(items, filter, front);
      IncludedIdsKept(items, filter, front);
      if IncludedIds(items, filter, front).Ok? && Gate(items, filter, last).Ok? && Distinct(ids) {
        var kept := IncludedIds(items, filter, front).value;
        assert last !in front;
        assert last !in kept;
      }
    }
  }

  /** The kept IDs are exactly the accepted ones; distinct IDs stay distinct; the loop fails only when some gate throws. */
  lemma IncludedIdsMembers(items: seq<SyncItem>, filter: SerializationPresetFilter, ids: seq<Id>)
    ensures IncludedIds(items, filter, ids).Ok? <==> forall i | 0 <= i < |ids| :: Gate(items, filter, ids[i]).Ok?
    ensures IncludedIds(items, filter, ids).Ok? ==>
      forall id :: id in IncludedIds(items, filter, ids).value <==> id in ids && Gate(items, filter, id) == Ok(true)
    ensures IncludedIds(items, filter, ids).Ok? && Distinct(ids) ==> Distinct(IncludedIds(items, filter, ids).value)
  {
    IncludedIdsOk(items, filter, ids);
    IncludedIdsKept(items, filter, ids);
    IncludedIdsDistinct(items, filter, ids);
  }

  /** Once a gate threw, the loop's answer is that throw, however many IDs follow. */
  lemma {:induction false} IncludedIdsKeepsThrow(items: seq<SyncItem>, filter: SerializationPresetFilter, ids: seq<Id>, n: nat)
    requires n <= |ids| && IncludedIds(items, filter, ids[..n]).Throws?
    ensures IncludedIds(items, filter, ids) == IncludedIds(items, filter, ids[..n])
    decreases |ids|
  {
    if n < |ids| {
      var front := ids[..|ids| - 1];
      assert front[..n] == ids[..n];
      IncludedIdsKeepsThrow(items, filter, front, n);
    } else {
      assert ids[..n] == ids;
    }
  }

  /** The foreach over one other provider's IDs: add each ID the list does not contain yet. */
  function MergeUnique(acc: seq<Id>, more: seq<Id>): seq<Id>
    decreases |more|
  {
    if more == [] then acc
    else
      var merged := MergeUnique(acc, more[..|more| - 1]);
      if more[|more| - 1] in merged then merged else merged + [more[|more| - 1]]
  }

  /** Merging keeps the list in front, adds exactly the new IDs, and keeps a list without duplicates so. */
  lemma {:induction false} MergeUniqueShape(acc: seq<Id>, more: seq<Id>)
    ensures |MergeUnique(acc, more)| >= |acc| && MergeUnique(acc, more)[..|acc|] == acc
    ensures forall id :: id in MergeUnique(acc, more) <==> id in acc || id in more
    ensures Distinct(acc) ==> Distinct(MergeUnique(acc, more))
    decreases |more|
  {
    if more != [] {
      var front := more[..|more| - 1];
      MergeUniqueShape(acc, front);
      assert more == front + [more[|more| - 1]];
      var merged := MergeUnique(acc, front);
      assert (merged + [more[|more| - 1]])[..|acc|] == merged[..|acc|];
    }
  }

  /** The loop over the providers after this one: merge each list they answer, skipping the null ones. */
  function MergeOthers(acc: seq<Id>, others: seq<Option<seq<Id>>>): seq<Id>
    decreases |others|
  {
    if others == [] then acc
    else
      var merged := MergeOthers(acc, others[..|others| - 1]);
      match others[|others| - 1]
      case None => merged
      case Some(ids) => MergeUnique(merged, ids)
  }

  /** Merging all lists keeps the own list in front, adds exactly the other providers' IDs, and never duplicates one. */
  lemma {:induction false} MergeOthersShape(acc: seq<Id>, others: seq<Option<seq<Id>>>)
    ensures |MergeOthers(acc, others)| >= |acc| && MergeOthers(acc, others)[..|acc|] == acc
    ensures forall id :: id in MergeOthers(acc, others) <==>
      id in acc || exists k | 0 <= k < |others| :: others[k].Some? && id in others[k].value
    ensures Distinct(acc) ==> Distinct(MergeOthers(acc, others))
    decreases |others|
  {
    if others != [] {
      var front := others[..|others| - 1];
      MergeOthersShape(acc, front);
      assert forall k | 0 <= k < |front| :: front[k] == others[k];
      var merged := MergeOthers(acc, front);
      match others[|others| - 1]
      case None =>
      case Some(ids) =>
        MergeUniqueShape(merged, ids);
        assert MergeUnique(merged, ids)[..|acc|] == merged[..|merged|][..|acc|];
    }
  }

  /**
   * GetChildIDs: None (null) when the filter does not take the item; else the base provider's
   * child IDs (a null list from it would throw) filtered one by one, then merged with what the
   * providers after this one answer.
   */
  function FilteredChildIds(items: seq<SyncItem>, filter: SerializationPresetFilter, def: ItemDefinition,
                            others: seq<Option<seq<Id>>>): Result<Option<seq<Id>>>
  {
    match Gate(items, filter, DefinitionId(def))
    case Throws(f) => Throws(f)
    case Ok(false) => Ok(None)
    case Ok(true) =>
      match SerializationChildIds(items, def)
      case Throws(f) => Throws(f)
      case Ok(None) => Throws(NullReference)
      case Ok(Some(childIds)) =>
        match IncludedIds(items, filter, childIds)
        case Throws(f) => Throws(f)
        case Ok(own) => Ok(Some(MergeOthers(own, others)))
  }

  /** With unique record IDs, the IDs of a record's children are distinct. */
  lemma {:induction false} FilterKeepsUniqueIds(s: seq<SyncItem>, keep: SyncItem -> bool)
    requires UniqueIds(s)
    ensures UniqueIds(Filter(s, keep))
    decreases |s|
  {
    if |s| > 0 {
      var rest := Filter(s[1..], keep);
      FilterKeepsUniqueIds(s[1..], keep);
      if keep(s[0]) {
        var f := [s[0]] + rest;
        assert Filter(s, keep) == f;
        forall j | 0 < j < |f|
          ensures f[0].id != f[j].id
        {
          assert f[j] == rest[j - 1];
          assert rest[j - 1] in s[1..];
          var k :| 0 <= k < |s[1..]| && s[1..][k] == f[j];
          assert s[k + 1] == f[j];
        }
      }
    }
  }

  /**
   * The list GetChildIDs answers for an included item: exactly its children in this store that
   * the filter takes, and the IDs the later providers answer; no ID twice when record IDs are unique.
   */
  lemma FilteredChildIdsShape(items: seq<SyncItem>, filter: SerializationPresetFilter, def: ItemDefinition,
                              others: seq<Option<seq<Id>>>)
    ensures Gate(items, filter, DefinitionId(def)) == Ok(false) ==> FilteredChildIds(items, filter, def, others) == Ok(None)
    ensures FilteredChildIds(items, filter, def, others).Ok? && FilteredChildIds(items, filter, def, others).value.Some? ==>
      def.Definition? &&
      forall id :: id in FilteredChildIds(items, filter, def, others).value.value <==>
        ((exists c | c in items :: c.parentId == def.id && c.id == id) && Gate(items, filter, id) == Ok(true)) ||
        (exists k | 0 <= k < |others| :: others[k].Some? && id in others[k].value)
    ensures (UniqueIds(items) && FilteredChildIds(items, filter, def, others).Ok? &&
             FilteredChildIds(items, filter, def, others).value.Some?) ==>
      Distinct(FilteredChildIds(items, filter, def, others).value.value)
  {
    if Gate(items, filter, DefinitionId(def)) == Ok(true) && def.Definition? && IdsOf(ChildrenOf(items, def.id)).Ok? {
      var cs := ChildrenOf(items, def.id);
      var childIds := IdsOf(cs).value;
      RhinoProvider.RhinoChildIdsAreChildren(items, def);
      assert RhinoProvider.RhinoChildIds(items, def) == Ok(childIds);
      IncludedIdsMembers(items, filter, childIds);
      if IncludedIds(items, filter, childIds).Ok? {
        var own := IncludedIds(items, filter, childIds).value;
        MergeOthersShape(own, others);
        if UniqueIds(items) {
          FilterKeepsUniqueIds(items, (r: SyncItem) => r.parentId == def.id);
          assert Distinct(childIds);
        }
      }
    }
  }

  /** HasChildren: false when the filter does not take the item, else whether the filtered, merged list is non-empty. */
  function FilteredHasChildren(items: seq<SyncItem>, filter: SerializationPresetFilter, def: ItemDefinition,
                               others: seq<Option<seq<Id>>>): Result<bool>
  {
    match Gate(items, filter, DefinitionId(def))
    case Throws(f) => Throws(f)
    case Ok(false) => Ok(false)
    case Ok(true) =>
      match FilteredChildIds(items, filter, def, others)
      case Throws(f) => Throws(f)
      case Ok(ids) => Ok(ids.Some? && |ids.value| > 0)
  }

  // ---------------------------------------------------------------- ResolvePath

  /**
   * ResolvePath: the record at the literal path (not trimmed, not read as an ID) must exist and
   * be taken by the filter; then the base provider resolves the path.
   */
  function FilteredResolvedPath(items: seq<SyncItem>, filter: SerializationPresetFilter, itemPath: string): Result<Option<Id>>
  {
    match FindByPath(items, itemPath)
    case None => Ok(None)
    case Some(existing) =>
      match GetSitecoreId(existing)
      case Throws(f) => Throws(f)
      case Ok(id) =>
        match Gate(items, filter, id)
        case Throws(f) => Throws(f)
        case Ok(false) => Ok(None)
        case Ok(true) => ResolvedPath(items, itemPath)
  }

  /**
   * The path is first looked up as written: without a record at exactly that path (ignoring case)
   * nothing is resolved, whatever the base provider would make of it, ID text and a trailing
   * '/' included. A resolved path has an included record at the literal path.
   */
  lemma FilteredResolveNeedsLiteralPath(items: seq<SyncItem>, filter: SerializationPresetFilter, itemPath: string)
    ensures (forall r | r in items :: !AtPath(r, itemPath)) ==> FilteredResolvedPath(items, filter, itemPath) == Ok(None)
    ensures FilteredResolvedPath(items, filter, itemPath).Ok? && FilteredResolvedPath(items, filter, itemPath).value.Some? ==>
      exists r | r in items :: AtPath(r, itemPath) && IsId(r.id) && Gate(items, filter, r.id) == Ok(true)
  {
    match IndexOfPath(items, itemPath)
    case None =>
    case Some(k) =>
      assert items[k] in items;
  }

  // ---------------------------------------------------------------- the writes

  /** CreateItem: false without the template or when the filter does not take the new child; else the base provider's answer. */
  function FilteredCreateOutcome(items: seq<SyncItem>, filter: SerializationPresetFilter, itemId: Id, itemName: string,
                                 templateId: Id, parent: ItemDefinition, parentFullPath: Option<string>,
                                 templateName: Option<string>, databaseName: string): (Result<bool>, Change)
  {
    match templateName
    case None => (Ok(false), Keep)
    case Some(t) =>
      if !ChildGate(filter, parentFullPath, itemName, itemId, templateId, t, databaseName) then (Ok(false), Keep)
      else SerializationCreateOutcome(items, itemId, itemName, templateId, parent, parentFullPath, templateName, databaseName)
  }

  /**
   * An item created through the filtered provider is one the filter takes: once saved, the
   * provider executes for it.
   */
  lemma CreatedItemIsServed(items: seq<SyncItem>, filter: SerializationPresetFilter, itemId: Id, itemName: string,
                            templateId: Id, parent: ItemDefinition, parentFullPath: Option<string>,
                            templateName: Option<string>, databaseName: string)
    ensures var (r, change) := FilteredCreateOutcome(items, filter, itemId, itemName, templateId, parent, parentFullPath,
                                                     templateName, databaseName);
      r == Ok(true) ==> change.Save? && Gate(Upsert(items, change.record), filter, itemId) == Ok(true)
  {
    var (r, change) := FilteredCreateOutcome(items, filter, itemId, itemName, templateId, parent, parentFullPath,
                                             templateName, databaseName);
    if r == Ok(true) {
      var record := change.record;
      UpsertThenFind(items, record);
      PresetRecordAndCriteriaAgree(filter, record);
      TotalOutcomesDecide(filter.preset, CriteriaOutcome(record.itemPath, record.id, record.templateId, record.templateName,
                                                        record.databaseName));
    }
  }

  /** AddVersion: -1 when the filter does not take the item; else the base provider's answer. */
  function FilteredAddVersionOutcome(items: seq<SyncItem>, filter: SerializationPresetFilter, def: ItemDefinition,
                                     base: VersionUri, newRevision: string): (Result<int>, Change)
  {
    match Gate(items, filter, DefinitionId(def))
    case Throws(f) => (Throws(f), Keep)
    case Ok(false) => (Ok(-1), Keep)
    case Ok(true) => SerializationAddVersionOutcome(items, def, base, newRevision)
  }

  /**
   * CopyItem: a non-empty name; false without the source's template or when the filter does not
   * take the copy under the destination; else the base provider's answer.
   */
  function FilteredCopyOutcome(items: seq<SyncItem>, filter: SerializationPresetFilter, source: ItemDefinition,
                               sourceRecord: Option<SyncItem>, sourceTemplateName: Option<string>, destination: ItemDefinition,
                               destinationFullPath: Option<string>, copyName: string, copyId: Id, databaseName: string)
    : (Result<bool>, Change)
  {
    if copyName == "" then (Throws(ArgumentEmpty), Keep)
    else match sourceTemplateName
      case None => (Ok(false), Keep)
      case Some(t) =>
        if !ChildGate(filter, destinationFullPath, copyName, copyId, DefinitionTemplateId(source), t, databaseName) then (Ok(false), Keep)
        else SerializationCopyOutcome(items, sourceRecord, destination, copyName, copyId)
  }

  /** A gated write whose base result is discarded: false when the filter does not take the item, else true after the base write. */
  function GatedWrite(gate: Result<bool>, base: (Result<bool>, Change)): (Result<bool>, Change)
  {
    match gate
    case Throws(f) => (Throws(f), Keep)
    case Ok(false) => (Ok(false), Keep)
    case Ok(true) =>
      match base.0
      case Throws(f) => (Throws(f), base.1)
      case Ok(_) => (Ok(true), base.1)
  }

  /**
   * The writes the filter gates change nothing for an item the filter does not take, and SaveItem
   * of an item it takes always saves, answering true.
   */
  lemma GatedWritesNeedInclusion(items: seq<SyncItem>, filter: SerializationPresetFilter, def: ItemDefinition,
                                 base: VersionUri, newRevision: string, uri: VersionUri, language: string, built: SyncItem)
    ensures Gate(items, filter, DefinitionId(def)) != Ok(true) ==>
      FilteredAddVersionOutcome(items, filter, def, base, newRevision).1 == Keep &&
      GatedWrite(Gate(items, filter, DefinitionId(def)), RemoveVersionOutcome(items, def, uri)).1 == Keep &&
      GatedWrite(Gate(items, filter, DefinitionId(def)), RemoveVersionsOutcome(items, def, language)).1 == Keep &&
      GatedWrite(Gate(items, filter, DefinitionId(def)), SerializationSaveOutcome(items, def, built)).1 == Keep
    ensures Gate(items, filter, DefinitionId(def)) == Ok(true) ==>
      GatedWrite(Gate(items, filter, DefinitionId(def)), SerializationSaveOutcome(items, def, built)) == (Ok(true), Save(built))
  {
  }

  /** The data provider: the base SerializationDataProvider and the filter. */
  class FilteredSerializationDataProvider {
    const inner: SerializationDataProvider
    const filter: SerializationPresetFilter

    ghost predicate Valid()
      reads this, inner, inner.database, inner.database.index
    {
      inner.Valid()
    }

    /** The provider over a base provider and a preset's filter. */
    constructor(base: SerializationDataProvider, presetFilter: SerializationPresetFilter)
      requires base.Valid()
      ensures inner == base && filter == presetFilter && Valid()
    {
      inner := base;
      filter := presetFilter;
    }

    /** ShouldExecuteProvider(ID). */
    method ShouldExecuteProvider(itemId: Id) returns (r: Result<bool>)
      requires Valid()
      modifies inner.database.index
      ensures Valid() && inner.database.Applied(old(inner.database.files), old(inner.database.index.items), Keep)
      ensures r == Gate(inner.database.index.items, filter, itemId)
    {
      var item := inner.database.GetItem(itemId);
      if item.None? {
        return Ok(false);
      }
      var result := Includes(filter, item.value);
      if result.Throws? {
        return Throws(result.failure);
      }
      return Ok(result.value.isIncluded);
    }

    /** ShouldExecuteProvider(parent, childName, childId, childTemplateId, childTemplateName), with the host's parent path as an input. */
    method ShouldExecuteProviderForChild(parentFullPath: Option<string>, childName: string, childId: Id, childTemplateId: Id,
                                         childTemplateName: string, databaseName: string) returns (b: bool)
      ensures b == ChildGate(filter, parentFullPath, childName, childId, childTemplateId, childTemplateName, databaseName)
    {
      if parentFullPath.None? {
        return false;
      }
      var result := IncludesCriteria(filter, parentFullPath.value + "/" + childName, childId, childTemplateId,
                                     childTemplateName, databaseName);
      return result.isIncluded;
    }

    /** The foreach of GetChildIDs over the base provider's IDs. */
    method FilterOwnChildren(childIds: seq<Id>) returns (r: Result<seq<Id>>)
      requires Valid()
      modifies inner.database.index
      ensures Valid() && inner.database.Applied(old(inner.database.files), old(inner.database.index.items), Keep)
      ensures r == IncludedIds(inner.database.index.items, filter, childIds)
    {
      var filteredChildren: seq<Id> := [];
      for i := 0 to |childIds|
        invariant Valid() && inner.database.index.items == old(inner.database.index.items)
        invariant IncludedIds(inner.database.index.items, filter, childIds[..i]) == Ok(filteredChildren)
      {
        assert childIds[..i + 1][..i] == childIds[..i];
        var execute := ShouldExecuteProvider(childIds[i]);
        if execute.Throws? {
          IncludedIdsKeepsThrow(inner.database.index.items, filter, childIds, i + 1);
          return Throws(execute.failure);
        }
        if execute.value {
          filteredChildren := filteredChildren + [childIds[i]];
        }
      }
      assert childIds[..|childIds|] == childIds;
      return Ok(filteredChildren);
    }

    /** The foreach over one other provider's IDs, with IDList.Contains. */
    static method MergeInto(acc: seq<Id>, more: seq<Id>) returns (merged: seq<Id>)
      ensures merged == MergeUnique(acc, more)
    {
      merged := acc;
      for i := 0 to |more|
        invariant merged == MergeUnique(acc, more[..i])
      {
        assert more[..i + 1][..i] == more[..i];
        if more[i] !in merged {
          merged := merged + [more[i]];
        }
      }
      assert more[..|more|] == more;
    }

    /** The loop over the providers after this one, given the lists they answer (None for null). */
    static method MergeProviders(acc: seq<Id>, others: seq<Option<seq<Id>>>) returns (merged: seq<Id>)
      ensures merged == MergeOthers(acc, others)
    {
      merged := acc;
      for i := 0 to |others|
        invariant merged == MergeOthers(acc, others[..i])
      {
        assert others[..i + 1][..i] == others[..i];
        if others[i].Some? {
          merged := MergeInto(merged, others[i].value);
        }
      }
      assert others[..|others|] == others;
    }

    /** GetChildIDs, with the lists the later providers answer as an input. */
    method GetChildIDs(def: ItemDefinition, others: seq<Option<seq<Id>>>) returns (r: Result<Option<seq<Id>>>)
      requires Valid()
      modifies inner.database.index
      ensures Valid() && inner.database.Applied(old(inner.database.files), old(inner.database.index.items), Keep)
      ensures r == FilteredChildIds(inner.database.index.items, filter, def, others)
    {
      var execute := ShouldExecuteProvider(DefinitionId(def));
      if execute.Throws? {
        return Throws(execute.failure);
      }
      if !execute.value {
        return Ok(None);
      }
      var childIds := inner.GetChildIDs(def);
      if childIds.Throws? {
        return Throws(childIds.failure);
      }
      if childIds.value.None? {
        return Throws(NullReference);
      }
      var own := FilterOwnChildren(childIds.value.value);
      if own.Throws? {
        return Throws(own.failure);
      }
      var merged := MergeProviders(own.value, others);
      return Ok(Some(merged));
    }

    /** HasChildren: through GetChildIDs, so that only included children count. */
    method HasChildren(def: ItemDefinition, others: seq<Option<seq<Id>>>) returns (r: Result<bool>)
      requires Valid()
      modifies inner.database.index
      ensures Valid() && inner.database.Applied(old(inner.database.files), old(inner.database.index.items), Keep)
      ensures r == FilteredHasChildren(inner.database.index.items, filter, def, others)
    {
      var execute := ShouldExecuteProvider(DefinitionId(def));
      if execute.Throws? {
        return Throws(execute.failure);
      }
      if !execute.value {
        return Ok(false);
      }
      var ids := GetChildIDs(def, others);
      if ids.Throws? {
        return Throws(ids.failure);
      }
      return Ok(ids.value.Some? && |ids.value.value| > 0);
    }

    /** ResolvePath. */
    method ResolvePath(itemPath: string) returns (r: Result<Option<Id>>)
      requires Valid()
      modifies inner.database.index
      ensures Valid() && inner.database.Applied(old(inner.database.files), old(inner.database.index.items), Keep)
      ensures r == FilteredResolvedPath(inner.database.index.items, filter, itemPath)
    {
      var existingPath := inner.database.GetItemByPath(itemPath);
      if existingPath.None? {
        return Ok(None);
      }
      var id := GetSitecoreId(existingPath.value);
      if id.Throws? {
        return Throws(id.failure);
      }
      var execute := ShouldExecuteProvider(id.value);
      if execute.Throws? {
        return Throws(execute.failure);
      }
      if !execute.value {
        return Ok(None);
      }
      r := inner.ResolvePath(itemPath);
    }

    /** GetParentID. */
    method GetParentID(def: ItemDefinition) returns (r: Result<Option<Id>>)
      requires Valid()
      modifies inner.database.index
      ensures Valid() && inner.database.Applied(old(inner.database.files), old(inner.database.index.items), Keep)
      ensures r == match Gate(old(inner.database.index.items), filter, DefinitionId(def))
        case Throws(f) => Throws(f)
        case Ok(false) => Ok(None)
        case Ok(true) => ParentLookup(old(inner.database.index.items), def)
    {
      var execute := ShouldExecuteProvider(DefinitionId(def));
      if execute.Throws? {
        return Throws(execute.failure);
      }
      if !execute.value {
        return Ok(None);
      }
      r := inner.GetParentID(def);
    }

    /** GetItemFields. */
    method GetItemFields(def: ItemDefinition, uri: VersionUri) returns (r: Result<Option<seq<FieldValue>>>)
      requires Valid()
      modifies inner.database.index
      ensures Valid() && inner.database.Applied(old(inner.database.files), old(inner.database.index.items), Keep)
      ensures r == match Gate(old(inner.database.index.items), filter, DefinitionId(def))
        case Throws(f) => Throws(f)
        case Ok(false) => Ok(None)
        case Ok(true) => SerializationItemFields(old(inner.database.index.items), def, uri)
    {
      var execute := ShouldExecuteProvider(DefinitionId(def));
      if execute.Throws? {
        return Throws(execute.failure);
      }
      if !execute.value {
        return Ok(None);
      }
      r := inner.GetItemFields(def, uri);
    }

    /** GetItemVersions: None (null) when the filter does not take the item; else the base provider's list. */
    method GetItemVersions(def: ItemDefinition) returns (r: Result<Option<seq<(string, string)>>>)
      requires Valid()
      modifies inner.database.index
      ensures Valid() && inner.database.Applied(old(inner.database.files), old(inner.database.index.items), Keep)
      ensures Gate(inner.database.index.items, filter, DefinitionId(def)).Throws? ==>
        r == Throws(Gate(inner.database.index.items, filter, DefinitionId(def)).failure)
      ensures Gate(inner.database.index.items, filter, DefinitionId(def)) == Ok(false) ==> r == Ok(None)
      ensures Gate(inner.database.index.items, filter, DefinitionId(def)) == Ok(true) && def.EmptyDefinition? ==> r == Ok(None)
      ensures Gate(inner.database.index.items, filter, DefinitionId(def)) == Ok(true) && def.Definition? ==>
        var item := FindById(inner.database.index.items, def.id).value;
        r.Ok? && r.value.Some? && |r.value.value| == |item.versions| &&
        forall i | 0 <= i < |item.versions| :: r.value.value[i] == (item.versions[i].language, item.versions[i].version)
    {
      var execute := ShouldExecuteProvider(DefinitionId(def));
      if execute.Throws? {
        return Throws(execute.failure);
      }
      if !execute.value {
        return Ok(None);
      }
      r := inner.GetItemVersions(def);
    }

    /** GetItemDefinition. */
    method GetItemDefinition(itemId: Id) returns (r: Result<Option<ItemDefinition>>)
      requires Valid()
      modifies inner.database.index
      ensures Valid() && inner.database.Applied(old(inner.database.files), old(inner.database.index.items), Keep)
      ensures r == match Gate(old(inner.database.index.items), filter, itemId)
        case Throws(f) => Throws(f)
        case Ok(false) => Ok(None)
        case Ok(true) => DefinitionLookup(old(inner.database.index.items), itemId)
    {
      var execute := ShouldExecuteProvider(itemId);
      if execute.Throws? {
        return Throws(execute.failure);
      }
      if !execute.value {
        return Ok(None);
      }
      r := inner.GetItemDefinition(itemId);
    }

    /** CreateItem, with the host's parent path and template name (None when absent) and the database name as inputs. */
    method CreateItem(itemId: Id, itemName: string, templateId: Id, parent: ItemDefinition, parentFullPath: Option<string>,
                      templateName: Option<string>, databaseName: string) returns (r: Result<bool>)
      requires Valid()
      modifies inner.database, inner.database.index
      ensures Valid()
      ensures r == FilteredCreateOutcome(old(inner.database.index.items), filter, itemId, itemName, templateId, parent,
                                         parentFullPath, templateName, databaseName).0
      ensures inner.database.Applied(old(inner.database.files), old(inner.database.index.items),
                                     FilteredCreateOutcome(old(inner.database.index.items), filter, itemId, itemName, templateId,
                                                           parent, parentFullPath, templateName, databaseName).1)
    {
      if templateName.None? {
        return Ok(false);
      }
      var execute := ShouldExecuteProviderForChild(parentFullPath, itemName, itemId, templateId, templateName.value, databaseName);
      if !execute {
        return Ok(false);
      }
      r := inner.CreateItem(itemId, itemName, templateId, parent, parentFullPath, templateName, databaseName);
    }

    /** AddVersion. */
    method AddVersion(def: ItemDefinition, base: VersionUri, newRevision: string) returns (r: Result<int>)
      requires Valid()
      modifies inner.database, inner.database.index
      ensures Valid()
      ensures r == FilteredAddVersionOutcome(old(inner.database.index.items), filter, def, base, newRevision).0
      ensures inner.database.Applied(old(inner.database.files), old(inner.database.index.items),
                                     FilteredAddVersionOutcome(old(inner.database.index.items), filter, def, base, newRevision).1)
    {
      var execute := ShouldExecuteProvider(DefinitionId(def));
      if execute.Throws? {
        return Throws(execute.failure);
      }
      if !execute.value {
        return Ok(-1);
      }
      r := inner.AddVersion(def, base, newRevision);
    }

    /**
     * CopyItem, with the host's view of the source (its record and its template's name) and of
     * the destination (its full path), each None when absent, and the database name as inputs.
     */
    method CopyItem(source: ItemDefinition, sourceRecord: Option<SyncItem>, sourceTemplateName: Option<string>,
                    destination: ItemDefinition, destinationFullPath: Option<string>, copyName: string, copyId: Id,
                    databaseName: string) returns (r: Result<bool>)
      requires Valid()
      modifies inner.database, inner.database.index
      ensures Valid()
      ensures r == FilteredCopyOutcome(old(inner.database.index.items), filter, source, sourceRecord, sourceTemplateName,
                                       destination, destinationFullPath, copyName, copyId, databaseName).0
      ensures inner.database.Applied(old(inner.database.files), old(inner.database.index.items),
                                     FilteredCopyOutcome(old(inner.database.index.items), filter, source, sourceRecord,
                                                         sourceTemplateName, destination, destinationFullPath, copyName,
                                                         copyId, databaseName).1)
    {
      if copyName == "" {
        return Throws(ArgumentEmpty);
      }
      if sourceTemplateName.None? {
        return Ok(false);
      }
      var execute := ShouldExecuteProviderForChild(destinationFullPath, copyName, copyId, DefinitionTemplateId(source),
                                                   sourceTemplateName.value, databaseName);
      if !execute {
        return Ok(false);
      }
      r := inner.CopyItem(sourceRecord, destination, copyName, copyId);
    }

    /** MoveItem: not filtered, since moves stay within one provider. */
    method MoveItem(def: ItemDefinition, destination: ItemDefinition) returns (r: Result<bool>)
      requires Valid()
      requires Lookup(inner.database.index.items, def).Some? && Lookup(inner.database.index.items, destination).Some? ==>
        Terminates(inner.database.index.items, DefinitionId(def))
      modifies inner.database, inner.database.index
      ensures Valid()
      ensures MoveGate(old(inner.database.index.items), def, destination).Some? ==>
        r == MoveGate(old(inner.database.index.items), def, destination).value &&
        inner.database.Applied(old(inner.database.files), old(inner.database.index.items), Keep)
      ensures MoveGate(old(inner.database.index.items), def, destination).None? ==>
        var (moved, files', items') := MoveOutcome(inner.database.folderOf, old(inner.database.index.items),
                                                   old(inner.database.files), Lookup(old(inner.database.index.items), def).value,
                                                   DefinitionId(destination));
        r == (if moved.Ok? then Ok(true) else Throws(moved.failure)) &&
        inner.database.files == files' && inner.database.index.items == items'
    {
      r := inner.MoveItem(def, destination);
    }

    /** DeleteItem: false when the filter does not take the item; else the base deletion, then true. */
    method DeleteItem(def: ItemDefinition) returns (r: Result<bool>)
      requires Valid()
      modifies inner.database, inner.database.index
      ensures Valid()
      ensures Gate(old(inner.database.index.items), filter, DefinitionId(def)) != Ok(true) ==>
        r == (if Gate(old(inner.database.index.items), filter, DefinitionId(def)).Throws?
              then Throws(Gate(old(inner.database.index.items), filter, DefinitionId(def)).failure) else Ok(false)) &&
        inner.database.Applied(old(inner.database.files), old(inner.database.index.items), Keep)
      ensures Gate(old(inner.database.index.items), filter, DefinitionId(def)) == Ok(true) ==>
        r == Ok(true) &&
        inner.database.files ==
          ApplyAll(old(inner.database.files), DeleteOps(inner.database.folderOf, Lookup(old(inner.database.index.items), def).value)) &&
        inner.database.index.items == RemoveFirstId(old(inner.database.index.items), DefinitionId(def))
    {
      var execute := ShouldExecuteProvider(DefinitionId(def));
      if execute.Throws? {
        return Throws(execute.failure);
      }
      if !execute.value {
        return Ok(false);
      }
      var _ := inner.DeleteItem(def);
      return Ok(true);
    }

    /** RemoveVersion. */
    method RemoveVersion(def: ItemDefinition, uri: VersionUri) returns (r: Result<bool>)
      requires Valid()
      modifies inner.database, inner.database.index
      ensures Valid()
      ensures r == GatedWrite(Gate(old(inner.database.index.items), filter, DefinitionId(def)),
                              RemoveVersionOutcome(old(inner.database.index.items), def, uri)).0
      ensures inner.database.Applied(old(inner.database.files), old(inner.database.index.items),
                                     GatedWrite(Gate(old(inner.database.index.items), filter, DefinitionId(def)),
                                                RemoveVersionOutcome(old(inner.database.index.items), def, uri)).1)
    {
      var execute := ShouldExecuteProvider(DefinitionId(def));
      if execute.Throws? {
        return Throws(execute.failure);
      }
      if !execute.value {
        return Ok(false);
      }
      var removed := inner.RemoveVersion(def, uri);
      if removed.Throws? {
        return Throws(removed.failure);
      }
      return Ok(true);
    }

    /** RemoveVersions. */
    method RemoveVersions(def: ItemDefinition, language: string) returns (r: Result<bool>)
      requires Valid()
      modifies inner.database, inner.database.index
      ensures Valid()
      ensures r == GatedWrite(Gate(old(inner.database.index.items), filter, DefinitionId(def)),
                              RemoveVersionsOutcome(old(inner.database.index.items), def, language)).0
      ensures inner.database.Applied(old(inner.database.files), old(inner.database.index.items),
                                     GatedWrite(Gate(old(inner.database.index.items), filter, DefinitionId(def)),
                                                RemoveVersionsOutcome(old(inner.database.index.items), def, language)).1)
    {
      var execute := ShouldExecuteProvider(DefinitionId(def));
      if execute.Throws? {
        return Throws(execute.failure);
      }
      if !execute.value {
        return Ok(false);
      }
      var removed := inner.RemoveVersions(def, language);
      if removed.Throws? {
        return Throws(removed.failure);
      }
      return Ok(true);
    }

    /** SaveItem, with the record BuildSyncItem makes of the changed item as an input. */
    method SaveItem(def: ItemDefinition, built: SyncItem) returns (r: Result<bool>)
      requires Valid()
      modifies inner.database, inner.database.index
      ensures Valid()
      ensures r == GatedWrite(Gate(old(inner.database.index.items), filter, DefinitionId(def)),
                              SerializationSaveOutcome(old(inner.database.index.items), def, built)).0
      ensures inner.database.Applied(old(inner.database.files), old(inner.database.index.items),
                                     GatedWrite(Gate(old(inner.database.index.items), filter, DefinitionId(def)),
                                                SerializationSaveOutcome(old(inner.database.index.items), def, built)).1)
    {
      var execute := ShouldExecuteProvider(DefinitionId(def));
      if execute.Throws? {
        return Throws(execute.failure);
      }
      if !execute.value {
        return Ok(false);
      }
      var saved := inner.SaveItem(def, built);
      assert saved.Ok?;
      return Ok(true);
    }
  }
}
