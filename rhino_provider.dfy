/**
 * RhinoSerializationDataProvider: a Sitecore data provider that serves one database entirely
 * from a SerializedDatabase. Each operation is proved against the outcome function of
 * ProviderOutcomes (or one below) that says what Sitecore receives and what is saved.
 */
module RhinoProvider {
  import opened Outcomes
  import opened Text
  import opened Ids
  import opened SyncItems
  import opened Scans
  import opened ItemPaths
  import opened Descendants
  import opened Disk
  import opened Database
  import opened SyncVersions
  import opened ProviderRules
  import opened ProviderOutcomes

  /** GetChildIDs: the parsed IDs of the children in index order; the sentinel has none. */
  function RhinoChildIds(items: seq<SyncItem>, def: ItemDefinition): Result<seq<Id>>
  {
    if def.EmptyDefinition? then Ok([]) else IdsOf(ChildrenOf(items, def.id))
  }

  /**
   * GetChildIDs lists exactly the IDs of the records whose parent is the item, and fails only
   * when one of them does not parse; the list is non-empty exactly when HasChildren holds.
   */
  lemma RhinoChildIdsAreChildren(items: seq<SyncItem>, def: ItemDefinition)
    ensures def.EmptyDefinition? ==> RhinoChildIds(items, def) == Ok([])
    ensures def.Definition? ==>
      (RhinoChildIds(items, def).Ok? <==> forall c | c in items && c.parentId == def.id :: IsId(c.id))
    ensures def.Definition? && RhinoChildIds(items, def).Ok? ==>
      forall id :: id in RhinoChildIds(items, def).value <==> exists c | c in items :: c.parentId == def.id && c.id == id
    ensures def.Definition? && RhinoChildIds(items, def).Ok? ==>
      (RhinoChildIds(items, def).value != [] <==> exists c | c in items :: c.parentId == def.id)
  {
    if def.Definition? {
      ChildrenOfMembers(items, def.id);
      IdsOfMembers(ChildrenOf(items, def.id));
    }
  }

  /** GetItemFields: an empty list for the sentinel or a missing record. */
  function RhinoItemFields(items: seq<SyncItem>, def: ItemDefinition, uri: VersionUri): Result<seq<FieldValue>>
  {
    match FieldsLookup(items, def, uri)
    case None => Ok([])
    case Some(fields) => fields
  }

  /** CreateItem: the name must be non-empty, the parent must be in this store, and the template must exist. */
  function RhinoCreateOutcome(items: seq<SyncItem>, itemId: Id, itemName: string, templateId: Id, parent: ItemDefinition,
                              templateName: Option<string>, databaseName: string): (Result<bool>, Change)
  {
    if itemName == "" then (Throws(ArgumentEmpty), Keep)
    else match Lookup(items, parent)
      case None => (Throws(AssertionFailed), Keep)
      case Some(parentItem) => CreateUnder(itemId, itemName, templateId, parent, templateName, databaseName, parentItem.itemPath)
  }

  /** AddVersion: the record must be in this store (AssertionFailed). */
  function RhinoAddVersionOutcome(items: seq<SyncItem>, def: ItemDefinition, base: VersionUri, newRevision: string)
    : (Result<int>, Change)
  {
    match Lookup(items, def)
    case None => (Throws(AssertionFailed), Keep)
    case Some(item) => AddVersionTo(item, base, newRevision)
  }

  /** CopyItem: a non-empty name, and the source record in this store (AssertionFailed). */
  function RhinoCopyOutcome(items: seq<SyncItem>, source: ItemDefinition, destination: ItemDefinition, copyName: string,
                            copyId: Id): (Result<bool>, Change)
  {
    if copyName == "" then (Throws(ArgumentEmpty), Keep)
    else match Lookup(items, source)
      case None => (Throws(AssertionFailed), Keep)
      case Some(sourceItem) => CopyInto(items, sourceItem, destination, copyName, copyId)
  }

  /** SaveItem: the record must be in this store (AssertionFailed); the record built from the host's item is saved. */
  function RhinoSaveOutcome(items: seq<SyncItem>, def: ItemDefinition, built: SyncItem): (Result<bool>, Change)
  {
    match Lookup(items, def)
    case None => (Throws(AssertionFailed), Keep)
    case Some(_) => (Ok(true), Save(built))
  }

  /** Every write of this provider refuses an item this store does not hold with AssertionFailed, and changes nothing. */
  lemma RhinoWritesNeedTheRecord(items: seq<SyncItem>, def: ItemDefinition, base: VersionUri, newRevision: string,
                                 uri: VersionUri, language: string, built: SyncItem)
    requires Lookup(items, def).None?
    ensures RhinoAddVersionOutcome(items, def, base, newRevision) == (Throws(AssertionFailed), Keep)
    ensures RemoveVersionOutcome(items, def, uri) == (Throws(AssertionFailed), Keep)
    ensures RemoveVersionsOutcome(items, def, language) == (Throws(AssertionFailed), Keep)
    ensures RhinoSaveOutcome(items, def, built) == (Throws(AssertionFailed), Keep)
  {
  }

  /** The data provider over a loaded SerializedDatabase. */
  class RhinoSerializationDataProvider {
    const database: SerializedDatabase

    ghost predicate Valid()
      reads this, database, database.index
    {
      database.Valid()
    }

    /** The provider over a database already loaded (reading the connection string and the folder is not modelled). */
    constructor(db: SerializedDatabase)
      requires db.Valid()
      ensures database == db && Valid()
    {
      database := db;
    }

    /** HasChildren: does any record name the item as its parent? */
    method HasChildren(def: ItemDefinition) returns (b: bool)
      requires Valid()
      modifies database.index
      ensures Valid() && database.Applied(old(database.files), old(database.index.items), Keep)
      ensures b <==> exists r | r in database.index.items :: r.parentId == DefinitionId(def)
    {
      b := database.HasChildren(DefinitionId(def));
    }

    /** GetChildIDs. */
    method GetChildIDs(def: ItemDefinition) returns (r: Result<seq<Id>>)
      requires Valid()
      modifies database.index
      ensures Valid() && database.Applied(old(database.files), old(database.index.items), Keep)
      ensures r == RhinoChildIds(database.index.items, def)
    {
      if def.EmptyDefinition? {
        return Ok([]);
      }
      var children := database.GetChildren(def.id);
      r := CollectIds(children);
    }

    /** ResolvePath: ID text as itself, else the ID of the record at the normalised path, else the null ID. */
    method ResolvePath(itemPath: string) returns (r: Result<Id>)
      requires Valid()
      modifies database.index
      ensures Valid() && database.Applied(old(database.files), old(database.index.items), Keep)
      ensures r == RhinoResolvedPath(database.index.items, itemPath)
    {
      if itemPath == "" {
        return Throws(ArgumentEmpty);
      }
      if IsId(itemPath) {
        return Ok(itemPath);
      }
      var path := TrimEnd(itemPath, '/');
      if path == "" {
        path := "/sitecore";
      }
      var syncItem := database.GetItemByPath(path);
      if syncItem.None? {
        return Ok(NullId);
      }
      var id := GetSitecoreId(syncItem.value);
      if id.Throws? {
        return Throws(id.failure);
      }
      return Ok(id.value);
    }

    /** GetParentID. */
    method GetParentID(def: ItemDefinition) returns (r: Result<Option<Id>>)
      requires Valid()
      modifies database.index
      ensures Valid() && database.Applied(old(database.files), old(database.index.items), Keep)
      ensures r == ParentLookup(database.index.items, def)
    {
      if def.EmptyDefinition? {
        return Ok(None);
      }
      var syncItem := database.GetItem(def.id);
      if syncItem.None? {
        return Ok(None);
      }
      var parentId := GetSitecoreParentId(syncItem.value);
      if parentId.Throws? {
        return Throws(parentId.failure);
      }
      if parentId.value == NullId {
        return Ok(None);
      }
      return Ok(Some(parentId.value));
    }

    /** GetItemFields. */
    method GetItemFields(def: ItemDefinition, uri: VersionUri) returns (r: Result<seq<FieldValue>>)
      requires Valid()
      modifies database.index
      ensures Valid() && database.Applied(old(database.files), old(database.index.items), Keep)
      ensures r == RhinoItemFields(database.index.items, def, uri)
    {
      if def.EmptyDefinition? {
        return Ok([]);
      }
      var syncItem := database.GetItem(def.id);
      if syncItem.None? {
        return Ok([]);
      }
      r := CollectFields(syncItem.value, uri);
    }

    /**
     * GetItemVersions: the (language, version) text of each version in order; an empty list for
     * the sentinel, and a NullReferenceException for a missing record, which is not checked.
     */
    method GetItemVersions(def: ItemDefinition) returns (r: Result<seq<(string, string)>>)
      requires Valid()
      modifies database.index
      ensures Valid() && database.Applied(old(database.files), old(database.index.items), Keep)
      ensures def.EmptyDefinition? ==> r == Ok([])
      ensures def.Definition? && FindById(database.index.items, def.id).None? ==> r == Throws(NullReference)
      ensures def.Definition? && FindById(database.index.items, def.id).Some? ==>
        var item := FindById(database.index.items, def.id).value;
        r.Ok? && |r.value| == |item.versions| &&
        forall i | 0 <= i < |item.versions| :: r.value[i] == (item.versions[i].language, item.versions[i].version)
    {
      if def.EmptyDefinition? {
        return Ok([]);
      }
      var syncItem := database.GetItem(def.id);
      if syncItem.None? {
        return Throws(NullReference);
      }
      var keys := CollectVersionKeys(syncItem.value);
      return Ok(keys);
    }

    /** GetItemDefinition. */
    method GetItemDefinition(itemId: Id) returns (r: Result<Option<ItemDefinition>>)
      requires Valid()
      modifies database.index
      ensures Valid() && database.Applied(old(database.files), old(database.index.items), Keep)
      ensures r == DefinitionLookup(database.index.items, itemId)
    {
      var syncItem := database.GetItem(itemId);
      if syncItem.None? {
        return Ok(None);
      }
      var item := syncItem.value;
      if item.name == "" || item.templateId == "" || item.branchId == "" {
        return Throws(AssertionFailed);
      }
      if !IsId(item.templateId) || !IsId(item.branchId) {
        return Throws(Format);
      }
      return Ok(Some(Definition(itemId, item.name, item.templateId, item.branchId)));
    }

    /** CreateItem, with the template's name (None when the host has no such template) and the database name as inputs. */
    method CreateItem(itemId: Id, itemName: string, templateId: Id, parent: ItemDefinition, templateName: Option<string>,
                      databaseName: string) returns (r: Result<bool>)
      requires Valid()
      modifies database, database.index
      ensures Valid()
      ensures r == RhinoCreateOutcome(old(database.index.items), itemId, itemName, templateId, parent, templateName, databaseName).0
      ensures database.Applied(old(database.files), old(database.index.items),
                               RhinoCreateOutcome(old(database.index.items), itemId, itemName, templateId, parent, templateName, databaseName).1)
    {
      if itemName == "" {
        return Throws(ArgumentEmpty);
      }
      var parentItem := database.GetItem(DefinitionId(parent));
      if parentItem.None? {
        return Throws(AssertionFailed);
      }
      if templateName.None? {
        return Throws(AssertionFailed);
      }
      var newItemFullPath := parentItem.value.itemPath + "/" + itemName;
      var syncItem := SyncItem(itemId, DefinitionId(parent), templateId, templateName.value, itemName, newItemFullPath,
                               databaseName, NullId, "", [], []);
      database.SaveItem(syncItem);
      return Ok(true);
    }

    /** AddVersion, with the revision of a first version (ID.NewID on the host) as an input. */
    method AddVersion(def: ItemDefinition, base: VersionUri, newRevision: string) returns (r: Result<int>)
      requires Valid()
      modifies database, database.index
      ensures Valid()
      ensures r == RhinoAddVersionOutcome(old(database.index.items), def, base, newRevision).0
      ensures database.Applied(old(database.files), old(database.index.items),
                               RhinoAddVersionOutcome(old(database.index.items), def, base, newRevision).1)
    {
      var existingItem := database.GetItem(DefinitionId(def));
      if existingItem.None? {
        return Throws(AssertionFailed);
      }
      var item := existingItem.value;
      var newVersionNumber: int;
      if base.number > 0 {
        var baseSyncVersion := GetVersion(item, base);
        if baseSyncVersion.None? {
          return Throws(AssertionFailed);
        }
        var newSyncVersion := Clone(baseSyncVersion.value);
        var next := NextVersionNumber(item.versions, base);
        if next.Throws? {
          return Throws(next.failure);
        }
        newVersionNumber := next.value;
        newSyncVersion := newSyncVersion.(version := DecimalString(newVersionNumber));
        item := item.(versions := item.versions + [newSyncVersion]);
      } else {
        newVersionNumber := 1;
        item := item.(versions := item.versions + [SyncVersion(base.language, "1", newRevision, [])]);
      }
      database.SaveItem(item);
      return Ok(newVersionNumber);
    }

    /** CopyItem: the source from this store, copied under the destination. */
    method CopyItem(source: ItemDefinition, destination: ItemDefinition, copyName: string, copyId: Id) returns (r: Result<bool>)
      requires Valid()
      modifies database, database.index
      ensures Valid()
      ensures r == RhinoCopyOutcome(old(database.index.items), source, destination, copyName, copyId).0
      ensures database.Applied(old(database.files), old(database.index.items),
                               RhinoCopyOutcome(old(database.index.items), source, destination, copyName, copyId).1)
    {
      if copyName == "" {
        return Throws(ArgumentEmpty);
      }
      var existingItem := database.GetItem(DefinitionId(source));
      if existingItem.None? {
        return Throws(AssertionFailed);
      }
      var copied := database.CopyItem(existingItem.value, DefinitionId(destination), copyName, copyId);
      if copied.Throws? {
        return Throws(copied.failure);
      }
      return Ok(true);
    }

    /**
     * MoveItem: the record must be in this store (AssertionFailed); then SerializedDatabase.MoveItem.
     * Once the destination is found, expanding the descendants has to end, which a parent cycle
     * in the records would prevent; a missing destination fails the store's assertion first.
     */
    method MoveItem(def: ItemDefinition, destination: ItemDefinition) returns (r: Result<bool>)
      requires Valid()
      requires Lookup(database.index.items, def).Some? && Lookup(database.index.items, destination).Some? ==>
        Terminates(database.index.items, DefinitionId(def))
      modifies database, database.index
      ensures Valid()
      ensures Lookup(old(database.index.items), def).None? ==>
        r == Throws(AssertionFailed) && database.Applied(old(database.files), old(database.index.items), Keep)
      ensures Lookup(old(database.index.items), def).Some? ==>
        var (moved, files', items') := MoveOutcome(database.folderOf, old(database.index.items), old(database.files),
                                                   Lookup(old(database.index.items), def).value, DefinitionId(destination));
        r == (if moved.Ok? then Ok(true) else Throws(moved.failure)) && database.files == files' && database.index.items == items'
    {
      var existingItem := database.GetItem(DefinitionId(def));
      if existingItem.None? {
        return Throws(AssertionFailed);
      }
      var moved := database.MoveItem(existingItem.value, DefinitionId(destination));
      if moved.Throws? {
        return Throws(moved.failure);
      }
      return Ok(true);
    }

    /** DeleteItem: true either way; a record this store holds has its file, its children's folder and its index entry removed. */
    method DeleteItem(def: ItemDefinition) returns (b: bool)
      requires Valid()
      modifies database, database.index
      ensures Valid() && b
      ensures Lookup(old(database.index.items), def).None? ==>
        database.Applied(old(database.files), old(database.index.items), Keep)
      ensures Lookup(old(database.index.items), def).Some? ==>
        database.files == ApplyAll(old(database.files), DeleteOps(database.folderOf, Lookup(old(database.index.items), def).value)) &&
        database.index.items == RemoveFirstId(old(database.index.items), DefinitionId(def))
    {
      var existingItem := database.GetItem(DefinitionId(def));
      if existingItem.None? {
        return true;
      }
      var deleted := database.DeleteItem(existingItem.value);
      assert deleted.Ok?;
      return true;
    }

    /** RemoveVersion. */
    method RemoveVersion(def: ItemDefinition, uri: VersionUri) returns (r: Result<bool>)
      requires Valid()
      modifies database, database.index
      ensures Valid()
      ensures r == RemoveVersionOutcome(old(database.index.items), def, uri).0
      ensures database.Applied(old(database.files), old(database.index.items), RemoveVersionOutcome(old(database.index.items), def, uri).1)
    {
      var existingItem := database.GetItem(DefinitionId(def));
      if existingItem.None? {
        return Throws(AssertionFailed);
      }
      var item := existingItem.value;
      var k := VersionIndex(item.versions, uri);
      if k.None? {
        return Throws(AssertionFailed);
      }
      item := item.(versions := item.versions[..k.value] + item.versions[k.value + 1..]);
      database.SaveItem(item);
      return Ok(true);
    }

    /** RemoveVersions, with the loop over the versions corrected to run from the last index down to 0. */
    method RemoveVersions(def: ItemDefinition, language: string) returns (r: Result<bool>)
      requires Valid()
      modifies database, database.index
      ensures Valid()
      ensures r == RemoveVersionsOutcome(old(database.index.items), def, language).0
      ensures database.Applied(old(database.files), old(database.index.items),
                               RemoveVersionsOutcome(old(database.index.items), def, language).1)
    {
      var existingItem := database.GetItem(DefinitionId(def));
      if existingItem.None? {
        return Throws(AssertionFailed);
      }
      var item := existingItem.value;
      var versions := RemoveLanguageVersions(item.versions, language);
      database.SaveItem(item.(versions := versions));
      return Ok(true);
    }

    /** SaveItem, with the record ItemSynchronization.BuildSyncItem makes of the changed item as an input. */
    method SaveItem(def: ItemDefinition, built: SyncItem) returns (r: Result<bool>)
      requires Valid()
      modifies database, database.index
      ensures Valid()
      ensures r == RhinoSaveOutcome(old(database.index.items), def, built).0
      ensures database.Applied(old(database.files), old(database.index.items), RhinoSaveOutcome(old(database.index.items), def, built).1)
    {
      var existingItem := database.GetItem(DefinitionId(def));
      if existingItem.None? {
        return Throws(AssertionFailed);
      }
      database.SaveItem(built);
      return Ok(true);
    }
  }
}
