/**
 * What the two SerializedDatabase-backed data providers do, operation by operation, as pure
 * functions of the index list: the answer Sitecore receives and the one SaveItem (or none) the
 * operation makes. Where both providers behave alike the function is defined here once; the
 * provider classes are proved against these functions.
 */
module ProviderOutcomes {
  import opened Outcomes
  import opened Text
  import opened Ids
  import opened SyncItems
  import opened Scans
  import opened ItemPaths
  import opened ProviderRules
  import opened Database

  /** GetItem(itemDefinition.ID): the sentinel's null ID is looked up like any other ID. */
  function Lookup(items: seq<SyncItem>, def: ItemDefinition): Option<SyncItem>
  {
    FindById(items, DefinitionId(def))
  }

  /** GetItemDefinition: None (null) for a missing record, else the definition of the record found. */
  function DefinitionLookup(items: seq<SyncItem>, itemId: Id): (r: Result<Option<ItemDefinition>>)
    ensures r == Ok(None) <==> FindById(items, itemId).None?
    ensures r.Ok? && r.value.Some? ==>
      r.value.value.Definition? && r.value.value.id == itemId && r.value.value.name == FindById(items, itemId).value.name &&
      r.value.value.templateId == FindById(items, itemId).value.templateId &&
      r.value.value.branchId == FindById(items, itemId).value.branchId
  {
    match FindById(items, itemId)
    case None => Ok(None)
    case Some(item) =>
      match DefinitionOf(itemId, item)
      case Throws(f) => Throws(f)
      case Ok(d) => Ok(Some(d))
  }

  /** GetParentID: None (null) for the sentinel, a missing record or the null parent ID. */
  function ParentLookup(items: seq<SyncItem>, def: ItemDefinition): Result<Option<Id>>
  {
    if def.EmptyDefinition? then Ok(None) else ParentIdOf(FindById(items, def.id))
  }

  /** The parent GetParentID names lists the record among its children, as GetChildIDs lists them. */
  lemma ParentLookupListsChild(items: seq<SyncItem>, def: ItemDefinition)
    ensures ParentLookup(items, def).Ok? && ParentLookup(items, def).value.Some? ==>
      def.Definition? && Lookup(items, def).Some? &&
      Lookup(items, def).value in ChildrenOf(items, ParentLookup(items, def).value.value)
  {
    if def.Definition? {
      ParentListsChild(items, def.id);
    }
  }

  /** GetItemFields of a lookup: None for the sentinel or a missing record, else the record's field list. */
  function FieldsLookup(items: seq<SyncItem>, def: ItemDefinition, uri: VersionUri): Option<Result<seq<FieldValue>>>
  {
    if def.EmptyDefinition? then None
    else match FindById(items, def.id)
      case None => None
      case Some(item) => Some(ItemFields(item, uri))
  }

  /**
   * The end of CreateItem once the parent's path is known: the template must exist (its name
   * comes from the host's TemplateManager, AssertionFailed when it has none), and the new
   * record is saved.
   */
  function CreateUnder(itemId: Id, itemName: string, templateId: Id, parent: ItemDefinition, templateName: Option<string>,
                       databaseName: string, parentPath: string): (Result<bool>, Change)
  {
    match templateName
    case None => (Throws(AssertionFailed), Keep)
    case Some(t) => (Ok(true), Save(NewItem(itemId, itemName, templateId, t, DefinitionId(parent), databaseName, parentPath)))
  }

  /**
   * A record CreateItem saves is then what a lookup of its ID finds, and it is among the
   * children of the parent it was created under, at the parent's path plus its name.
   */
  lemma CreatedItemIsChild(items: seq<SyncItem>, itemId: Id, itemName: string, templateId: Id, parent: ItemDefinition,
                           templateName: Option<string>, databaseName: string, parentPath: string)
    ensures var (r, change) := CreateUnder(itemId, itemName, templateId, parent, templateName, databaseName, parentPath);
      (r == Ok(true) <==> templateName.Some?) &&
      (r.Ok? ==>
          change.Save? &&
          FindById(Upsert(items, change.record), itemId) == Some(change.record) &&
          change.record in ChildrenOf(Upsert(items, change.record), DefinitionId(parent)) &&
          change.record.itemPath == ChildPath(parentPath, itemName) && change.record.name == itemName)
  {
    if templateName.Some? {
      var record := NewItem(itemId, itemName, templateId, templateName.value, DefinitionId(parent), databaseName, parentPath);
      UpsertThenFind(items, record);
      UpsertKeepsOthers(items, record);
      ChildrenOfMembers(Upsert(items, record), DefinitionId(parent));
    }
  }

  /** AddVersion on a found record: the new number, and the record with the version added saved. */
  function AddVersionTo(item: SyncItem, base: VersionUri, newRevision: string): (Result<int>, Change)
  {
    match AddedVersion(item, base, newRevision)
    case Throws(f) => (Throws(f), Keep)
    case Ok((item', n)) => (Ok(n), Save(item'))
  }

  /**
   * After AddVersion from a positive base number, a lookup of the record finds the new version
   * under the number returned, and the fields read for it are those read for the base version.
   */
  lemma AddedVersionReadsLikeBase(items: seq<SyncItem>, item: SyncItem, base: VersionUri, newRevision: string)
    requires base.number > 0
    ensures var (r, change) := AddVersionTo(item, base, newRevision);
      (r == Throws(AssertionFailed) <==> GetVersion(item, base).None?) &&
      r != Throws(InvalidOperation) &&
      (r.Ok? ==>
          change.Save? && r.value > base.number &&
          FindById(Upsert(items, change.record), item.id) == Some(change.record) &&
          GetVersion(change.record, VersionUri(base.language, r.value)).Some? &&
          ItemFields(change.record, VersionUri(base.language, r.value)) == ItemFields(item, base))
  {
    AddedVersionIsFound(item, base, newRevision);
    if GetVersion(item, base).Some? {
      NextVersionNumberIsFresh(item, base);
    }
    var (r, change) := AddVersionTo(item, base, newRevision);
    if r.Ok? {
      UpsertThenFind(items, change.record);
    }
  }

  /** From a base number of 0 or less, AddVersion always adds version 1 in the base language, with no fields. */
  lemma AddedFirstVersion(item: SyncItem, base: VersionUri, newRevision: string)
    requires base.number <= 0
    ensures AddVersionTo(item, base, newRevision) ==
      (Ok(1), Save(item.(versions := item.versions + [SyncVersion(base.language, "1", newRevision, [])])))
  {
  }

  /** CopyItem once the source record is known: the destination must be in this database (AssertionFailed). */
  function CopyInto(items: seq<SyncItem>, source: SyncItem, destination: ItemDefinition, copyName: string, copyId: Id)
    : (Result<bool>, Change)
  {
    match Lookup(items, destination)
    case None => (Throws(AssertionFailed), Keep)
    case Some(destinationItem) => (Ok(true), Save(CopyOf(source, destinationItem, DefinitionId(destination), copyName, copyId)))
  }

  /**
   * A copy is then what a lookup of the copy's ID finds, a child of the destination at its path
   * plus the copy's name, with the source's template, fields and versions.
   */
  lemma CopyLiesUnderDestination(items: seq<SyncItem>, source: SyncItem, destination: ItemDefinition, copyName: string, copyId: Id)
    ensures var (r, change) := CopyInto(items, source, destination, copyName, copyId);
      (r.Ok? <==> Lookup(items, destination).Some?) &&
      (r.Ok? ==>
          change.Save? &&
          var c := change.record;
          FindById(Upsert(items, c), copyId) == Some(c) &&
          c in ChildrenOf(Upsert(items, c), DefinitionId(destination)) &&
          c.itemPath == ChildPath(Lookup(items, destination).value.itemPath, copyName) &&
          c.templateId == source.templateId && c.sharedFields == source.sharedFields && c.versions == source.versions)
  {
    if Lookup(items, destination).Some? {
      var c := CopyOf(source, Lookup(items, destination).value, DefinitionId(destination), copyName, copyId);
      UpsertThenFind(items, c);
      UpsertKeepsOthers(items, c);
      ChildrenOfMembers(Upsert(items, c), DefinitionId(destination));
    }
  }

  /** RemoveVersion: the record must exist and have the version (AssertionFailed); the record without it is saved. */
  function RemoveVersionOutcome(items: seq<SyncItem>, def: ItemDefinition, uri: VersionUri): (Result<bool>, Change)
  {
    match Lookup(items, def)
    case None => (Throws(AssertionFailed), Keep)
    case Some(item) =>
      match RemovedVersion(item, uri)
      case Throws(f) => (Throws(f), Keep)
      case Ok(item') => (Ok(true), Save(item'))
  }

  /**
   * RemoveVersion succeeds exactly when the record and the version exist; a lookup then finds
   * the record with exactly that version gone.
   */
  lemma RemoveVersionOutcomeShape(items: seq<SyncItem>, def: ItemDefinition, uri: VersionUri)
    ensures var (r, change) := RemoveVersionOutcome(items, def, uri);
      (r.Ok? <==> Lookup(items, def).Some? && GetVersion(Lookup(items, def).value, uri).Some?) &&
      (r.Throws? ==> r.failure == AssertionFailed && change == Keep) &&
      (r.Ok? ==>
          change.Save? &&
          var item := Lookup(items, def).value;
          FindById(Upsert(items, change.record), DefinitionId(def)) == Some(change.record) &&
          multiset(change.record.versions) + multiset{GetVersion(item, uri).value} == multiset(item.versions) &&
          change.record.(versions := item.versions) == item &&
          var k := VersionIndex(item.versions, uri).value;
          change.record.versions == item.versions[..k] + item.versions[k + 1..])
  {
    match Lookup(items, def)
    case None =>
    case Some(item) =>
      RemovedVersionShape(item, uri);
      if RemovedVersion(item, uri).Ok? {
        UpsertThenFind(items, RemovedVersion(item, uri).value);
      }
  }

  /** RemoveVersions, with the loop corrected: the record must exist (AssertionFailed); it is saved without the language's versions. */
  function RemoveVersionsOutcome(items: seq<SyncItem>, def: ItemDefinition, language: string): (Result<bool>, Change)
  {
    match Lookup(items, def)
    case None => (Throws(AssertionFailed), Keep)
    case Some(item) => (Ok(true), Save(item.(versions := WithoutLanguage(item.versions, language))))
  }

  /** After RemoveVersions, no version address in the language finds anything on the record a lookup returns. */
  lemma RemoveVersionsOutcomeHidesLanguage(items: seq<SyncItem>, def: ItemDefinition, language: string, uri: VersionUri)
    requires EqualsIgnoreCase(uri.language, language)
    ensures var (r, change) := RemoveVersionsOutcome(items, def, language);
      (r.Ok? <==> Lookup(items, def).Some?) &&
      (r.Ok? ==>
          change.Save? &&
          FindById(Upsert(items, change.record), DefinitionId(def)) == Some(change.record) &&
          GetVersion(change.record, uri).None? &&
          forall v | v in Lookup(items, def).value.versions && !EqualsIgnoreCase(v.language, language) :: v in change.record.versions)
  {
    match Lookup(items, def)
    case None =>
    case Some(item) =>
      WithoutLanguageHidesLanguage(item, language, uri);
      UpsertThenFind(items, item.(versions := WithoutLanguage(item.versions, language)));
  }
}
