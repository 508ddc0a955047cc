/**
 * SerializationDataProvider: a data provider that serves the part of a database held in a
 * SerializedDatabase and cedes everything else to the next provider, answering null, false or
 * -1 where RhinoSerializationDataProvider asserts. Each operation is proved against its outcome
 * function.
 */
module SerializationProvider {
  import opened Outcomes
  import opened Text
  import opened Ids
  import opened SyncItems
  import opened Scans
  import opened ItemPaths
  import opened Descendants
  import opened Disk
  import opened Database
  import opened SyncVersions
  import opened ProviderRules
  import opened ProviderOutcomes
  import RhinoProvider

  /** GetChildIDs: None (null) for the sentinel, else the parsed IDs of the children in index order. */
  function SerializationChildIds(items: seq<SyncItem>, def: ItemDefinition): Result<Option<seq<Id>>>
  {
    if def.EmptyDefinition? then Ok(None)
    else match IdsOf(ChildrenOf(items, def.id))
      case Throws(f) => Throws(f)
      case Ok(ids) => Ok(Some(ids))
  }

  /** GetItemFields: None (null) for the sentinel or a missing record, else the record's field list. */
  function SerializationItemFields(items: seq<SyncItem>, def: ItemDefinition, uri: VersionUri): Result<Option<seq<FieldValue>>>
  {
    match FieldsLookup(items, def, uri)
    case None => Ok(None)
    case Some(Throws(f)) => Throws(f)
    case Some(Ok(fields)) => Ok(Some(fields))
  }

  /**
   * CreateItem: a record that already exists is not created again (false). The parent comes
   * from the host's Database, so it may live in another provider: its full path is an input,
   * None when the host has no such item (AssertionFailed).
   */
  function SerializationCreateOutcome(items: seq<SyncItem>, itemId: Id, itemName: string, templateId: Id, parent: ItemDefinition,
                                      parentFullPath: Option<string>, templateName: Option<string>, databaseName: string)
    : (Result<bool>, Change)
  {
    if itemName == "" then (Throws(ArgumentEmpty), Keep)
    else if FindById(items, itemId).Some? then (Ok(false), Keep)
    else match parentFullPath
      case None => (Throws(AssertionFailed), Keep)
      case Some(path) => CreateUnder(itemId, itemName, templateId, parent, templateName, databaseName, path)
  }

  /** AddVersion: -1 for a record this store does not hold, ceding control. */
  function SerializationAddVersionOutcome(items: seq<SyncItem>, def: ItemDefinition, base: VersionUri, newRevision: string)
    : (Result<int>, Change)
  {
    match Lookup(items, def)
    case None => (Ok(-1), Keep)
    case Some(item) => AddVersionTo(item, base, newRevision)
  }

  /**
   * CopyItem: the source comes from the host's Database, so it may live in another provider; the
   * record BuildSyncItem makes of it is an input, None when the host has no such item.
   */
  function SerializationCopyOutcome(items: seq<SyncItem>, source: Option<SyncItem>, destination: ItemDefinition, copyName: string,
                                    copyId: Id): (Result<bool>, Change)
  {
    if copyName == "" then (Throws(ArgumentEmpty), Keep)
    else match source
      case None => (Throws(AssertionFailed), Keep)
      case Some(built) => CopyInto(items, built, destination, copyName, copyId)
  }

  /**
   * MoveItem before it delegates: an InvalidOperationException when exactly one of the item and
   * the destination is in this store, false when neither is, and None when both are.
   */
  function MoveGate(items: seq<SyncItem>, def: ItemDefinition, destination: ItemDefinition): Option<Result<bool>>
  {
    var existingItem := Lookup(items, def);
    var destinationItem := Lookup(items, destination);
    if existingItem.Some? && destinationItem.None? then Some(Throws(InvalidOperation))
    else if existingItem.None? && destinationItem.Some? then Some(Throws(InvalidOperation))
    else if existingItem.None? then Some(Ok(false))
    else None
  }

  /** SaveItem: false for a record this store does not hold, ceding control. */
  function SerializationSaveOutcome(items: seq<SyncItem>, def: ItemDefinition, built: SyncItem): (Result<bool>, Change)
  {
    match Lookup(items, def)
    case None => (Ok(false), Keep)
    case Some(_) => (Ok(true), Save(built))
  }

  /** Moves never cross providers: the move throws exactly when one end is in this store and the other is not. */
  lemma MoveStaysInStore(items: seq<SyncItem>, def: ItemDefinition, destination: ItemDefinition)
    ensures MoveGate(items, def, destination) == Some(Throws(InvalidOperation)) <==>
      (Lookup(items, def).Some? != Lookup(items, destination).Some?)
    ensures MoveGate(items, def, destination) == Some(Ok(false)) <==> Lookup(items, def).None? && Lookup(items, destination).None?
    ensures MoveGate(items, def, destination).None? <==> Lookup(items, def).Some? && Lookup(items, destination).Some?
  {
  }

  /**
   * For an item this store holds, both providers read and write alike; for one it does not hold,
   * this provider cedes (-1 or false) where RhinoSerializationDataProvider asserts.
   */
  lemma ProvidersAgreeOnHeldItems(items: seq<SyncItem>, def: ItemDefinition, base: VersionUri, newRevision: string,
                                  uri: VersionUri, built: SyncItem)
    ensures def.Definition? ==>
      (SerializationChildIds(items, def).Ok? <==> RhinoProvider.RhinoChildIds(items, def).Ok?) &&
      (SerializationChildIds(items, def).Ok? ==> SerializationChildIds(items, def).value == Some(RhinoProvider.RhinoChildIds(items, def).value))
    ensures Lookup(items, def).Some? ==>
      SerializationAddVersionOutcome(items, def, base, newRevision) == RhinoProvider.RhinoAddVersionOutcome(items, def, base, newRevision) &&
      SerializationSaveOutcome(items, def, built) == RhinoProvider.RhinoSaveOutcome(items, def, built)
    ensures def.Definition? && Lookup(items, def).Some? ==>
      (SerializationItemFields(items, def, uri).Ok? <==> RhinoProvider.RhinoItemFields(items, def, uri).Ok?) &&
      (SerializationItemFields(items, def, uri).Ok? ==>
         SerializationItemFields(items, def, uri).value == Some(RhinoProvider.RhinoItemFields(items, def, uri).value))
    ensures Lookup(items, def).None? ==>
      SerializationAddVersionOutcome(items, def, base, newRevision) == (Ok(-1), Keep) &&
      RhinoProvider.RhinoAddVersionOutcome(items, def, base, newRevision) == (Throws(AssertionFailed), Keep) &&
      SerializationSaveOutcome(items, def, built) == (Ok(false), Keep) &&
      RhinoProvider.RhinoSaveOutcome(items, def, built) == (Throws(AssertionFailed), Keep)
  {
  }

  /** A record that already exists is never overwritten by CreateItem. */
  lemma CreateNeverOverwrites(items: seq<SyncItem>, itemId: Id, itemName: string, templateId: Id, parent: ItemDefinition,
                              parentFullPath: Option<string>, templateName: Option<string>, databaseName: string)
    requires itemName != "" && FindById(items, itemId).Some?
    ensures SerializationCreateOutcome(items, itemId, itemName, templateId, parent, parentFullPath, templateName, databaseName) ==
      (Ok(false), Keep)
  {
  }

  /** The data provider over a loaded SerializedDatabase. */
  class SerializationDataProvider {
    const database: SerializedDatabase

    ghost predicate Valid()
      reads this, database, database.index
    {
      database.Valid()
    }

    /** The provider over a database already loaded (reading the connection string and the folder is not modelled). */
    constructor(db: SerializedDatabase)
      requires db.Valid()
      ensures database == db && Valid()
    {
      database := db;
    }

    /** HasChildren: does any record name the item as its parent? */
    method HasChildren(def: ItemDefinition) returns (b: bool)
      requires Valid()
      modifies database.index
      ensures Valid() && database.Applied(old(database.files), old(database.index.items), Keep)
      ensures b <==> exists r | r in database.index.items :: r.parentId == DefinitionId(def)
    {
      b := database.HasChildren(DefinitionId(def));
    }

    /** GetChildIDs. */
    method GetChildIDs(def: ItemDefinition) returns (r: Result<Option<seq<Id>>>)
      requires Valid()
      modifies database.index
      ensures Valid() && database.Applied(old(database.files), old(database.index.items), Keep)
      ensures r == SerializationChildIds(database.index.items, def)
    {
      if def.EmptyDefinition? {
        return Ok(None);
      }
      var children := database.GetChildren(def.id);
      var ids := CollectIds(children);
      if ids.Throws? {
        return Throws(ids.failure);
      }
      return Ok(Some(ids.value));
    }

    /** ResolvePath: ID text as itself, else the ID of the record at the normalised path, else None (null). */
    method ResolvePath(itemPath: string) returns (r: Result<Option<Id>>)
      requires Valid()
      modifies database.index
      ensures Valid() && database.Applied(old(database.files), old(database.index.items), Keep)
      ensures r == ResolvedPath(database.index.items, itemPath)
    {
      if itemPath == "" {
        return Throws(ArgumentEmpty);
      }
      if IsId(itemPath) {
        return Ok(Some(itemPath));
      }
      var path := TrimEnd(itemPath, '/');
      if path == "" {
        path := "/sitecore";
      }
      var syncItem := database.GetItemByPath(path);
      if syncItem.None? {
        return Ok(None);
      }
      var id := GetSitecoreId(syncItem.value);
      if id.Throws? {
        return Throws(id.failure);
      }
      return Ok(Some(id.value));
    }

    /** GetParentID. */
    method GetParentID(def: ItemDefinition) returns (r: Result<Option<Id>>)
      requires Valid()
      modifies database.index
      ensures Valid() && database.Applied(old(database.files), old(database.index.items), Keep)
      ensures r == ParentLookup(database.index.items, def)
    {
      if def.EmptyDefinition? {
        return Ok(None);
      }
      var syncItem := database.GetItem(def.id);
      if syncItem.None? {
        return Ok(None);
      }
      var parentId := GetSitecoreParentId(syncItem.value);
      if parentId.Throws? {
        return Throws(parentId.failure);
      }
      if parentId.value == NullId {
        return Ok(None);
      }
      return Ok(Some(parentId.value));
    }

    /** GetItemFields. */
    method GetItemFields(def: ItemDefinition, uri: VersionUri) returns (r: Result<Option<seq<FieldValue>>>)
      requires Valid()
      modifies database.index
      ensures Valid() && database.Applied(old(database.files), old(database.index.items), Keep)
      ensures r == SerializationItemFields(database.index.items, def, uri)
    {
      if def.EmptyDefinition? {
        return Ok(None);
      }
      var syncItem := database.GetItem(def.id);
      if syncItem.None? {
        return Ok(None);
      }
      var fields := CollectFields(syncItem.value, uri);
      if fields.Throws? {
        return Throws(fields.failure);
      }
      return Ok(Some(fields.value));
    }

    /**
     * GetItemVersions: the (language, version) text of each version in order; None (null) for
     * the sentinel, and a NullReferenceException for a missing record, which is not checked.
     */
    method GetItemVersions(def: ItemDefinition) returns (r: Result<Option<seq<(string, string)>>>)
      requires Valid()
      modifies database.index
      ensures Valid() && database.Applied(old(database.files), old(database.index.items), Keep)
      ensures def.EmptyDefinition? ==> r == Ok(None)
      ensures def.Definition? && FindById(database.index.items, def.id).None? ==> r == Throws(NullReference)
      ensures def.Definition? && FindById(database.index.items, def.id).Some? ==>
        var item := FindById(database.index.items, def.id).value;
        r.Ok? && r.value.Some? && |r.value.value| == |item.versions| &&
        forall i | 0 <= i < |item.versions| :: r.value.value[i] == (item.versions[i].language, item.versions[i].version)
    {
      if def.EmptyDefinition? {
        return Ok(None);
      }
      var syncItem := database.GetItem(def.id);
      if syncItem.None? {
        return Throws(NullReference);
      }
      var keys := CollectVersionKeys(syncItem.value);
      return Ok(Some(keys));
    }

    /** GetItemDefinition. */
    method GetItemDefinition(itemId: Id) returns (r: Result<Option<ItemDefinition>>)
      requires Valid()
      modifies database.index
      ensures Valid() && database.Applied(old(database.files), old(database.index.items), Keep)
      ensures r == DefinitionLookup(database.index.items, itemId)
    {
      var syncItem := database.GetItem(itemId);
      if syncItem.None? {
        return Ok(None);
      }
      var item := syncItem.value;
      if item.name == "" || item.templateId == "" || item.branchId == "" {
        return Throws(AssertionFailed);
      }
      if !IsId(item.templateId) || !IsId(item.branchId) {
        return Throws(Format);
      }
      return Ok(Some(Definition(itemId, item.name, item.templateId, item.branchId)));
    }

    /**
     * CreateItem, with the host's view of the parent (its full path, None when the host has no
     * such item), the template's name and the database name as inputs.
     */
    method CreateItem(itemId: Id, itemName: string, templateId: Id, parent: ItemDefinition, parentFullPath: Option<string>,
                      templateName: Option<string>, databaseName: string) returns (r: Result<bool>)
      requires Valid()
      modifies database, database.index
      ensures Valid()
      ensures r == SerializationCreateOutcome(old(database.index.items), itemId, itemName, templateId, parent, parentFullPath,
                                              templateName, databaseName).0
      ensures database.Applied(old(database.files), old(database.index.items),
                               SerializationCreateOutcome(old(database.index.items), itemId, itemName, templateId, parent,
                                                          parentFullPath, templateName, databaseName).1)
    {
      if itemName == "" {
        return Throws(ArgumentEmpty);
      }
      var existingItem := database.GetItem(itemId);
      if existingItem.Some? {
        return Ok(false);
      }
      if parentFullPath.None? {
        return Throws(AssertionFailed);
      }
      if templateName.None? {
        return Throws(AssertionFailed);
      }
      var newItemFullPath := parentFullPath.value + "/" + itemName;
      var syncItem := SyncItem(itemId, DefinitionId(parent), templateId, templateName.value, itemName, newItemFullPath,
                               databaseName, NullId, "", [], []);
      database.SaveItem(syncItem);
      return Ok(true);
    }

    /** AddVersion, with the revision of a first version (ID.NewID on the host) as an input. */
    method AddVersion(def: ItemDefinition, base: VersionUri, newRevision: string) returns (r: Result<int>)
      requires Valid()
      modifies database, database.index
      ensures Valid()
      ensures r == SerializationAddVersionOutcome(old(database.index.items), def, base, newRevision).0
      ensures database.Applied(old(database.files), old(database.index.items),
                               SerializationAddVersionOutcome(old(database.index.items), def, base, newRevision).1)
    {
      var existingItem := database.GetItem(DefinitionId(def));
      if existingItem.None? {
        return Ok(-1);
      }
      var item := existingItem.value;
      var newVersionNumber: int;
      if base.number > 0 {
        var baseSyncVersion := GetVersion(item, base);
        if baseSyncVersion.None? {
          return Throws(AssertionFailed);
        }
        var newSyncVersion := Clone(baseSyncVersion.value);
        var next := NextVersionNumber(item.versions, base);
        if next.Throws? {
          return Throws(next.failure);
        }
        newVersionNumber := next.value;
        newSyncVersion := newSyncVersion.(version := DecimalString(newVersionNumber));
        item := item.(versions := item.versions + [newSyncVersion]);
      } else {
        newVersionNumber := 1;
        item := item.(versions := item.versions + [SyncVersion(base.language, "1", newRevision, [])]);
      }
      database.SaveItem(item);
      return Ok(newVersionNumber);
    }

    /** CopyItem, with the record BuildSyncItem makes of the host's source item (None when there is none) as an input. */
    method CopyItem(source: Option<SyncItem>, destination: ItemDefinition, copyName: string, copyId: Id) returns (r: Result<bool>)
      requires Valid()
      modifies database, database.index
      ensures Valid()
      ensures r == SerializationCopyOutcome(old(database.index.items), source, destination, copyName, copyId).0
      ensures database.Applied(old(database.files), old(database.index.items),
                               SerializationCopyOutcome(old(database.index.items), source, destination, copyName, copyId).1)
    {
      if copyName == "" {
        return Throws(ArgumentEmpty);
      }
      if source.None? {
        return Throws(AssertionFailed);
      }
      var destinationItem := database.GetItem(DefinitionId(destination));
      if destinationItem.None? {
        return Throws(AssertionFailed);
      }
      var copied := database.CopyItem(source.value, DefinitionId(destination), copyName, copyId);
      assert copied.Ok?;
      return Ok(true);
    }

    /**
     * MoveItem: refuses a move across providers; otherwise SerializedDatabase.MoveItem. When both
     * ends are held, expanding the descendants has to end, which a parent cycle would prevent.
     */
    method MoveItem(def: ItemDefinition, destination: ItemDefinition) returns (r: Result<bool>)
      requires Valid()
      requires Lookup(database.index.items, def).Some? && Lookup(database.index.items, destination).Some? ==>
        Terminates(database.index.items, DefinitionId(def))
      modifies database, database.index
      ensures Valid()
      ensures MoveGate(old(database.index.items), def, destination).Some? ==>
        r == MoveGate(old(database.index.items), def, destination).value &&
        database.Applied(old(database.files), old(database.index.items), Keep)
      ensures MoveGate(old(database.index.items), def, destination).None? ==>
        var (moved, files', items') := MoveOutcome(database.folderOf, old(database.index.items), old(database.files),
                                                   Lookup(old(database.index.items), def).value, DefinitionId(destination));
        moved.Ok? ==> r == Ok(true) && database.files == files' && database.index.items == items'
      ensures MoveGate(old(database.index.items), def, destination).None? ==>
        var (moved, files', items') := MoveOutcome(database.folderOf, old(database.index.items), old(database.files),
                                                   Lookup(old(database.index.items), def).value, DefinitionId(destination));
        moved.Throws? ==> r == Throws(moved.failure) && database.files == files' && database.index.items == items'
    {
      ghost var items0 := database.index.items;
      ghost var files0 := database.files;
      var existingItem := database.GetItem(DefinitionId(def));
      var destinationItem := database.GetItem(DefinitionId(destination));
      assert existingItem == Lookup(items0, def) && destinationItem == Lookup(items0, destination);
      assert database.files == files0 && database.index.items == items0;
      if existingItem.Some? && destinationItem.None? {
        return Throws(InvalidOperation);
      }
      if existingItem.None? && destinationItem.Some? {
        return Throws(InvalidOperation);
      }
      if existingItem.None? {
        return Ok(false);
      }
      assert MoveGate(items0, def, destination).None?;
      var moved := database.MoveItem(existingItem.value, DefinitionId(destination));
      ghost var outcome := MoveOutcome(database.folderOf, items0, files0, existingItem.value, DefinitionId(destination));
      assert moved == outcome.0 && database.files == outcome.1 && database.index.items == outcome.2;
      if moved.Throws? {
        return Throws(moved.failure);
      }
      return Ok(true);
    }

    /** DeleteItem: true either way; a record this store holds has its file, its children's folder and its index entry removed. */
    method DeleteItem(def: ItemDefinition) returns (b: bool)
      requires Valid()
      modifies database, database.index
      ensures Valid() && b
      ensures Lookup(old(database.index.items), def).None? ==>
        database.Applied(old(database.files), old(database.index.items), Keep)
      ensures Lookup(old(database.index.items), def).Some? ==>
        database.files == ApplyAll(old(database.files), DeleteOps(database.folderOf, Lookup(old(database.index.items), def).value)) &&
        database.index.items == RemoveFirstId(old(database.index.items), DefinitionId(def))
    {
      var existingItem := database.GetItem(DefinitionId(def));
      if existingItem.None? {
        return true;
      }
      var deleted := database.DeleteItem(existingItem.value);
      assert deleted.Ok?;
      return true;
    }

    /** RemoveVersion. */
    method RemoveVersion(def: ItemDefinition, uri: VersionUri) returns (r: Result<bool>)
      requires Valid()
      modifies database, database.index
      ensures Valid()
      ensures r == RemoveVersionOutcome(old(database.index.items), def, uri).0
      ensures database.Applied(old(database.files), old(database.index.items), RemoveVersionOutcome(old(database.index.items), def, uri).1)
    {
      var existingItem := database.GetItem(DefinitionId(def));
      if existingItem.None? {
        return Throws(AssertionFailed);
      }
      var item := existingItem.value;
      var k := VersionIndex(item.versions, uri);
      if k.None? {
        return Throws(AssertionFailed);
      }
      item := item.(versions := item.versions[..k.value] + item.versions[k.value + 1..]);
      database.SaveItem(item);
      return Ok(true);
    }

    /** RemoveVersions, with the loop over the versions corrected to run from the last index down to 0. */
    method RemoveVersions(def: ItemDefinition, language: string) returns (r: Result<bool>)
      requires Valid()
      modifies database, database.index
      ensures Valid()
      ensures r == RemoveVersionsOutcome(old(database.index.items), def, language).0
      ensures database.Applied(old(database.files), old(database.index.items),
                               RemoveVersionsOutcome(old(database.index.items), def, language).1)
    {
      var existingItem := database.GetItem(DefinitionId(def));
      if existingItem.None? {
        return Throws(AssertionFailed);
      }
      var item := existingItem.value;
      var versions := RemoveLanguageVersions(item.versions, language);
      database.SaveItem(item.(versions := versions));
      return Ok(true);
    }

    /** SaveItem, with the record ItemSynchronization.BuildSyncItem makes of the changed item as an input. */
    method SaveItem(def: ItemDefinition, built: SyncItem) returns (r: Result<bool>)
      requires Valid()
      modifies database, database.index
      ensures Valid()
      ensures r == SerializationSaveOutcome(old(database.index.items), def, built).0
      ensures database.Applied(old(database.files), old(database.index.items),
                               SerializationSaveOutcome(old(database.index.items), def, built).1)
    {
      var existingItem := database.GetItem(DefinitionId(def));
      if existingItem.None? {
        return Ok(false);
      }
      database.SaveItem(built);
      return Ok(true);
    }
  }
}
