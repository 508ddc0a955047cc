/**
 * SerializedDatabase: one Sitecore database served from a serialization folder. Every write
 * goes to disk first (through the folder mapping of Sitecore's PathUtils, a parameter here)
 * and then to the index.
 */
module Database {
  import opened Outcomes
  import opened Text
  import opened Ids
  import opened SyncItems
  import opened ItemPaths
  import opened Scans
  import opened Descendants
  import opened Index
  import opened Disk

  /** Sitecore's mapping from an item reference (database name, item path) to its folder. */
  type FolderMap = (string, string) -> string

  /** GetSyncItemPath: the item's folder plus the extension. */
  function SyncItemPath(folderOf: FolderMap, r: SyncItem): string
  {
    folderOf(r.databaseName, r.itemPath) + Extension
  }

  /** The folder that holds the files of the item's children. */
  lemma ChildFolderOfItem(folderOf: FolderMap, r: SyncItem)
    ensures StripPath(SyncItemPath(folderOf, r)) == folderOf(r.databaseName, r.itemPath)
    ensures !Below(SyncItemPath(folderOf, r), StripPath(SyncItemPath(folderOf, r)))
  {
    var f := folderOf(r.databaseName, r.itemPath);
    StripPathOfFile(f);
    var p := SyncItemPath(folderOf, r);
    assert p[|f|] == '.';
    assert (f + [Separator])[|f|] == Separator;
  }

  /** DeleteItem on disk: the item's file, then the folder of its children with everything below it. */
  function DeleteOps(folderOf: FolderMap, r: SyncItem): seq<DiskOp>
  {
    [Delete(SyncItemPath(folderOf, r)), DeleteTree(StripPath(SyncItemPath(folderOf, r)))]
  }

  /** Deleting the same item's files a second time changes nothing on disk. */
  lemma DeleteOpsIdempotent(folderOf: FolderMap, files: Files, r: SyncItem)
    ensures var once := ApplyAll(files, DeleteOps(folderOf, r));
      ApplyAll(once, DeleteOps(folderOf, r)) == once
  {
    var path := SyncItemPath(folderOf, r);
    var folder := StripPath(path);
    TwoOps(files, Delete(path), DeleteTree(folder));
    var once := ApplyAll(files, DeleteOps(folderOf, r));
    TwoOps(once, Delete(path), DeleteTree(folder));
    assert path !in once;
    assert forall k | k in once :: !Below(k, folder);
    assert Apply(once, Delete(path)) == once;
  }

  lemma TwoOps(files: Files, a: DiskOp, b: DiskOp)
    ensures ApplyAll(files, [a, b]) == Apply(Apply(files, a), b)
  {
    ApplyAllSnoc(files, [], a);
    ApplyAllSnoc(files, [a], b);
    assert [] + [a] == [a] && [a] + [b] == [a, b];
  }

  /**
   * DeleteItem of an item with a parseable ID, twice: with unique IDs in the index the second
   * call leaves both the disk and the index list as the first one left them.
   */
  lemma DeleteItemTwice(folderOf: FolderMap, files: Files, items: seq<SyncItem>, r: SyncItem)
    requires UniqueIds(items)
    ensures var once := ApplyAll(files, DeleteOps(folderOf, r));
      ApplyAll(once, DeleteOps(folderOf, r)) == once
    ensures RemoveFirstId(RemoveFirstId(items, r.id), r.id) == RemoveFirstId(items, r.id)
  {
    DeleteOpsIdempotent(folderOf, files, r);
    RemoveFirstIdUnique(items, r.id);
  }

  /** The record CopyItem writes: the source with the copy's ID, parent, path and name. */
  function CopyOf(source: SyncItem, destinationItem: SyncItem, destination: Id, copyName: string, copyId: Id): SyncItem
  {
    source.(id := copyId, parentId := destination, itemPath := ChildPath(destinationItem.itemPath, copyName), name := copyName)
  }

  /** The record MoveItem writes for the moved item itself. */
  function MovedRecord(item: SyncItem, parentItem: SyncItem, newParent: Id): SyncItem
  {
    item.(parentId := newParent, itemPath := ChildPath(parentItem.itemPath, item.name))
  }

  /** String.Replace(oldValue, newValue), ordinal: every non-overlapping occurrence, scanning left to right. */
  function ReplaceAll(s: string, oldValue: string, newValue: string): string
    requires oldValue != ""
    decreases |s|
  {
    if |s| < |oldValue| then s
    else if s[..|oldValue|] == oldValue then newValue + ReplaceAll(s[|oldValue|..], oldValue, newValue)
    else [s[0]] + ReplaceAll(s[1..], oldValue, newValue)
  }

  /** A descendant's new path: the old root at its start replaced by the new root, and nothing else. */
  function RebasePath(path: string, oldRoot: string, newRoot: string): string
  {
    if StartsWith(path, oldRoot) then newRoot + path[|oldRoot|..] else path
  }

  /** Rebasing keeps the part of the path below the root, and rebasing back restores the path. */
  lemma RebasePathRoundTrip(oldRoot: string, newRoot: string, below: string)
    ensures RebasePath(oldRoot + below, oldRoot, newRoot) == newRoot + below
    ensures RebasePath(RebasePath(oldRoot + below, oldRoot, newRoot), newRoot, oldRoot) == oldRoot + below
  {
    assert (oldRoot + below)[..|oldRoot|] == oldRoot;
    assert (oldRoot + below)[|oldRoot|..] == below;
    assert (newRoot + below)[..|newRoot|] == newRoot;
    assert (newRoot + below)[|newRoot|..] == below;
  }

  /**
   * String.Replace also rewrites later occurrences of the old root: moving "/a" under "/b" turns
   * its descendant "/a/a" into "/b/a/b/a" where the descendant belongs at "/b/a/a".
   */
  lemma ReplaceAllRewritesInnerOccurrences()
    ensures ReplaceAll("/a/a", "/a", "/b/a") == "/b/a/b/a"
    ensures RebasePath("/a/a", "/a", "/b/a") == "/b/a/a"
  {
    assert "/a/a"[..2] == "/a" && "/a/a"[2..] == "/a";
    assert "/a"[..2] == "/a" && "/a"[2..] == "";
    assert ReplaceAll("", "/a", "/b/a") == "";
    assert ReplaceAll("/a", "/a", "/b/a") == "/b/a";
    RebasePathRoundTrip("/a", "/b/a", "/a");
  }

  /** A descendant with its path rebased. */
  function RebaseRecord(d: SyncItem, oldRoot: string, newRoot: string): SyncItem
  {
    d.(itemPath := RebasePath(d.itemPath, oldRoot, newRoot))
  }

  function RebaseAll(ds: seq<SyncItem>, oldRoot: string, newRoot: string): (rs: seq<SyncItem>)
    ensures |rs| == |ds|
    ensures forall i | 0 <= i < |ds| :: rs[i] == RebaseRecord(ds[i], oldRoot, newRoot)
    decreases |ds|
  {
    if |ds| == 0 then [] else RebaseAll(ds[..|ds| - 1], oldRoot, newRoot) + [RebaseRecord(ds[|ds| - 1], oldRoot, newRoot)]
  }

  /** The loop over the descendants on disk: write the rebased record, then delete the old file. */
  function DescendantOps(folderOf: FolderMap, ds: seq<SyncItem>, oldRoot: string, newRoot: string): (ops: seq<DiskOp>)
    ensures |ops| == 2 * |ds|
    decreases |ds|
  {
    if |ds| == 0 then []
    else
      var d := ds[|ds| - 1];
      var moved := RebaseRecord(d, oldRoot, newRoot);
      DescendantOps(folderOf, ds[..|ds| - 1], oldRoot, newRoot)
      + [Write(SyncItemPath(folderOf, moved), moved), Delete(SyncItemPath(folderOf, d))]
  }

  /** UpdateIndexes for each record in turn. */
  function UpsertAll(items: seq<SyncItem>, rs: seq<SyncItem>): seq<SyncItem>
    decreases |rs|
  {
    if |rs| == 0 then items else Upsert(UpsertAll(items, rs[..|rs| - 1]), rs[|rs| - 1])
  }

  /** Upserting `a` then `b` is upserting `a + b`. */
  lemma {:induction false} UpsertAllAppend(items: seq<SyncItem>, a: seq<SyncItem>, b: seq<SyncItem>)
    ensures UpsertAll(items, a + b) == UpsertAll(UpsertAll(items, a), b)
    decreases |b|
  {
    if |b| == 0 {
      assert a + b == a;
    } else {
      assert (a + b)[..|a + b| - 1] == a + b[..|b| - 1];
      UpsertAllAppend(items, a, b[..|b| - 1]);
    }
  }

  /** MoveItem on disk: the moved item, the descendants, then the old file and the old children folder. */
  function MoveOps(folderOf: FolderMap, item: SyncItem, moved: SyncItem, ds: seq<SyncItem>): seq<DiskOp>
  {
    [Write(SyncItemPath(folderOf, moved), moved)]
    + DescendantOps(folderOf, ds, item.itemPath, moved.itemPath)
    + DeleteOps(folderOf, item)
  }

  /** Every descendant file MoveItem writes holds the descendant with its path rebased from the old root to the new one. */
  lemma {:induction false} DescendantOpsWrite(folderOf: FolderMap, ds: seq<SyncItem>, oldRoot: string, newRoot: string, i: nat)
    requires i < |ds|
    ensures var d' := RebaseRecord(ds[i], oldRoot, newRoot);
      DescendantOps(folderOf, ds, oldRoot, newRoot)[2 * i] == Write(SyncItemPath(folderOf, d'), d')
    ensures DescendantOps(folderOf, ds, oldRoot, newRoot)[2 * i + 1] == Delete(SyncItemPath(folderOf, ds[i]))
    decreases |ds|
  {
    if i < |ds| - 1 {
      DescendantOpsWrite(folderOf, ds[..|ds| - 1], oldRoot, newRoot, i);
    }
  }

  /**
   * Moving an item to where it already is (same parent path, so the same file) loses it:
   * the old file is deleted after the new one is written, and it is the same file.
   */
  lemma MoveInPlaceErasesFile(folderOf: FolderMap, files: Files, item: SyncItem, parentItem: SyncItem, newParent: Id, ds: seq<SyncItem>)
    requires item.itemPath == ChildPath(parentItem.itemPath, item.name)
    ensures SyncItemPath(folderOf, MovedRecord(item, parentItem, newParent)) !in
      ApplyAll(files, MoveOps(folderOf, item, MovedRecord(item, parentItem, newParent), ds))
  {
    var moved := MovedRecord(item, parentItem, newParent);
    var f := SyncItemPath(folderOf, item);
    assert SyncItemPath(folderOf, moved) == f;
    var before := [Write(f, moved)] + DescendantOps(folderOf, ds, item.itemPath, moved.itemPath);
    ChildFolderOfItem(folderOf, item);
    var last := DeleteTree(StripPath(f));
    assert !Touches(last, f);
    assert MoveOps(folderOf, item, moved, ds) == before + [Delete(f)] + [last];
    LastDeleteWins(files, before, Delete(f), f, [last]);
  }

  /** The disk after the loop over the descendants, computed directly. */
  function RebasedFiles(folderOf: FolderMap, files: Files, ds: seq<SyncItem>, oldRoot: string, newRoot: string): Files
    decreases |ds|
  {
    if |ds| == 0 then files
    else
      var d := ds[|ds| - 1];
      var moved := RebaseRecord(d, oldRoot, newRoot);
      RebasedFiles(folderOf, files, ds[..|ds| - 1], oldRoot, newRoot)[SyncItemPath(folderOf, moved) := moved] - {SyncItemPath(folderOf, d)}
  }

  /** That direct computation is the descendant part of the operation log, applied. */
  lemma {:induction false} RebasedFilesAreOps(folderOf: FolderMap, files: Files, ds: seq<SyncItem>, oldRoot: string, newRoot: string)
    ensures RebasedFiles(folderOf, files, ds, oldRoot, newRoot) == ApplyAll(files, DescendantOps(folderOf, ds, oldRoot, newRoot))
    decreases |ds|
  {
    if |ds| > 0 {
      var d := ds[|ds| - 1];
      var moved := RebaseRecord(d, oldRoot, newRoot);
      var before := DescendantOps(folderOf, ds[..|ds| - 1], oldRoot, newRoot);
      var w := Write(SyncItemPath(folderOf, moved), moved);
      RebasedFilesAreOps(folderOf, files, ds[..|ds| - 1], oldRoot, newRoot);
      assert DescendantOps(folderOf, ds, oldRoot, newRoot) == (before + [w]) + [Delete(SyncItemPath(folderOf, d))];
      ApplyAllSnoc(files, before + [w], Delete(SyncItemPath(folderOf, d)));
      ApplyAllSnoc(files, before, w);
    }
  }

  /** The whole operation log of MoveItem, applied, in terms of the direct computation. */
  lemma MoveFilesAreOps(folderOf: FolderMap, files: Files, item: SyncItem, moved: SyncItem, ds: seq<SyncItem>)
    ensures ApplyAll(files, MoveOps(folderOf, item, moved, ds))
      == ApplyAll(RebasedFiles(folderOf, files[SyncItemPath(folderOf, moved) := moved], ds, item.itemPath, moved.itemPath), DeleteOps(folderOf, item))
  {
    var first := [Write(SyncItemPath(folderOf, moved), moved)];
    var middle := DescendantOps(folderOf, ds, item.itemPath, moved.itemPath);
    ApplyAllAppend(files, first + middle, DeleteOps(folderOf, item));
    ApplyAllAppend(files, first, middle);
    ApplyAllSnoc(files, [], first[0]);
    assert [] + first == first;
    RebasedFilesAreOps(folderOf, files[SyncItemPath(folderOf, moved) := moved], ds, item.itemPath, moved.itemPath);
  }

  /**
   * The outcome of MoveItem: the result, the new disk and the new index list. The descendants
   * are only expanded once the new parent is found, so only then must the expansion end. An item
   * without a path that has descendants is saved under its new parent, and then String.Replace
   * refuses the empty old root with an ArgumentException before any descendant is touched.
   */
  ghost function MoveOutcome(folderOf: FolderMap, items: seq<SyncItem>, files: Files, item: SyncItem, newParent: Id): (Result<()>, Files, seq<SyncItem>)
    requires FindById(items, newParent).Some? && IsId(item.id) ==> Terminates(items, item.id)
  {
    match FindById(items, newParent)
    case None => (Throws(AssertionFailed), files, items)
    case Some(parentItem) =>
      if !IsId(item.id) then (Throws(ArgumentOutOfRange), files, items)
      else match DescendantsOf(items, item.id)
        case BadId => (Throws(ArgumentOutOfRange), files, items)
        case Expanded(ds) =>
          var moved := MovedRecord(item, parentItem, newParent);
          if item.itemPath == "" && ds != [] then
            (Throws(ArgumentEmpty), files[SyncItemPath(folderOf, moved) := moved], Upsert(items, moved))
          else
          (Ok(()), ApplyAll(files, MoveOps(folderOf, item, moved, ds)),
           UpsertAll(items, [moved] + RebaseAll(ds, item.itemPath, moved.itemPath)))
  }

  /**
   * A move under a parent the index lacks fails the assertion and changes nothing, whatever the
   * parent links below the item: even a record that is its own parent, whose descendants never
   * end, can be moved there.
   */
  lemma MoveUnderMissingParentFails(folderOf: FolderMap, items: seq<SyncItem>, files: Files, r: SyncItem, newParent: Id)
    requires r in items && IsId(r.id) && r.parentId == r.id
    requires forall x | x in items :: IsId(x.id)
    requires FindById(items, newParent).None?
    ensures !Terminates(items, r.id)
    ensures MoveOutcome(folderOf, items, files, r, newParent) == (Throws(AssertionFailed), files, items)
  {
    SelfParentDiverges(items, r);
  }

  /**
   * An item without a path that has a child: once the new parent is found, the moved item is
   * saved under it, and then rebasing the first descendant throws, leaving every descendant
   * and the old file in place.
   */
  lemma MovePathlessItemThrows(folderOf: FolderMap, items: seq<SyncItem>, files: Files, item: SyncItem, newParent: Id, child: SyncItem)
    requires item.itemPath == "" && IsId(item.id) && Terminates(items, item.id)
    requires FindById(items, newParent).Some? && DescendantsOf(items, item.id).Expanded?
    requires child in items && child.parentId == item.id
    ensures var moved := MovedRecord(item, FindById(items, newParent).value, newParent);
      MoveOutcome(folderOf, items, files, item, newParent) ==
        (Throws(ArgumentEmpty), files[SyncItemPath(folderOf, moved) := moved], Upsert(items, moved))
  {
    var fuel: nat :| Expand(items, item.id, fuel) != TooDeep;
    ExpandHasChildren(items, item.id, fuel);
    ChildrenOfMembers(items, item.id);
    assert child in DescendantsOf(items, item.id).records;
  }

  /** What an operation of a data provider does to the store: nothing, or one SaveItem of a record. */
  datatype Change = Keep | Save(record: SyncItem)

  class SerializedDatabase {
    const index: SerializedIndex
    var files: Files
    const folderOf: FolderMap

    ghost predicate Valid()
      reads this, index
    {
      index.Valid()
    }

    /** The disk and the index list are what `change` makes of `files0` and `items0`. */
    ghost predicate Applied(files0: Files, items0: seq<SyncItem>, change: Change)
      reads this, index
    {
      match change
      case Keep => files == files0 && index.items == items0
      case Save(r) => files == files0[SyncItemPath(folderOf, r) := r] && index.items == Upsert(items0, r)
    }

    /** A database over the records loaded from its folder (reading the folder is not modelled). */
    constructor(records: seq<SyncItem>, initialFiles: Files, folders: FolderMap)
      ensures fresh(index) && index.items == records && index.CachesEmpty() && Valid()
      ensures files == initialFiles && folderOf == folders
    {
      index := new SerializedIndex(records);
      files := initialFiles;
      folderOf := folders;
    }

    /** Count: the number of records in the index. */
    function Count(): (n: nat)
      reads index
      ensures n == |index.items|
    {
      index.Count()
    }

    /** HasChildren: whether some record has this parent ID. */
    method HasChildren(itemId: Id) returns (b: bool)
      requires Valid()
      modifies index
      ensures Valid() && index.items == old(index.items)
      ensures b <==> exists r | r in index.items :: r.parentId == itemId
    {
      var children := index.GetChildren(itemId);
      ChildrenOfMembers(index.items, itemId);
      b := |children| > 0;
      if b {
        assert children[0] in children;
      }
    }

    method GetChildren(parentId: Id) returns (r: seq<SyncItem>)
      requires Valid()
      modifies index
      ensures Valid() && index.items == old(index.items)
      ensures r == ChildrenOf(index.items, parentId)
    {
      r := index.GetChildren(parentId);
    }

    method GetItemsWithTemplate(templateId: Id) returns (r: seq<SyncItem>)
      requires Valid()
      modifies index
      ensures Valid() && index.items == old(index.items)
      ensures r == WithTemplate(index.items, templateId)
    {
      r := index.GetItemsWithTemplate(templateId);
    }

    method GetItem(id: Id) returns (r: Option<SyncItem>)
      requires Valid()
      modifies index
      ensures Valid() && index.items == old(index.items)
      ensures r == FindById(index.items, id)
    {
      r := index.GetItem(id);
    }

    method GetItemByPath(path: string) returns (r: Option<SyncItem>)
      requires Valid()
      modifies index
      ensures Valid() && index.items == old(index.items)
      ensures r == FindByPath(index.items, path)
    {
      r := index.GetItemByPath(path);
    }

    /** SaveItem: write the record's file (creating its folder), then update the index. */
    method SaveItem(item: SyncItem)
      modifies this, index
      ensures files == old(files)[SyncItemPath(folderOf, item) := item]
      ensures index.items == Upsert(old(index.items), item) && index.CachesEmpty() && Valid()
    {
      files := files[SyncItemPath(folderOf, item) := item];
      index.UpdateIndexes(item);
    }

    /** Delete the item's file, then the folder of its children with everything below it. */
    method RemoveItemFiles(item: SyncItem)
      modifies this
      ensures files == ApplyAll(old(files), DeleteOps(folderOf, item))
    {
      var path := SyncItemPath(folderOf, item);
      files := files - {path};
      var folder := StripPath(path);
      files := map k | k in files && !Below(k, folder) :: files[k];
      ApplyAllSnoc(old(files), [], Delete(path));
      ApplyAllSnoc(old(files), [Delete(path)], DeleteTree(folder));
    }

    /**
     * DeleteItem: delete the file and the folder of the children, then take the record out of
     * the index. An unparseable ID throws after the disk has changed. Records of the children
     * stay in the index.
     */
    method DeleteItem(item: SyncItem) returns (r: Result<()>)
      requires Valid()
      modifies this, index
      ensures Valid()
      ensures files == ApplyAll(old(files), DeleteOps(folderOf, item))
      ensures r.Ok? <==> IsId(item.id)
      ensures r.Ok? ==> index.items == RemoveFirstId(old(index.items), item.id)
      ensures r.Throws? ==> r.failure == ArgumentOutOfRange && index.items == old(index.items)
    {
      RemoveItemFiles(item);
      match GetSitecoreId(item)
      case Throws(f) =>
        return Throws(f);
      case Ok(id) =>
        index.ClearIndexes(id);
        return Ok(());
    }

    /** CopyItem: a copy of `source` under `destination`, with the given name and ID, saved in place. */
    method CopyItem(source: SyncItem, destination: Id, copyName: string, copyId: Id) returns (r: Result<()>)
      requires Valid()
      modifies this, index
      ensures Valid()
      ensures copyName == "" ==> r == Throws(ArgumentEmpty)
      ensures copyName != "" && FindById(old(index.items), destination).None? ==> r == Throws(AssertionFailed)
      ensures r.Throws? ==> files == old(files) && index.items == old(index.items)
      ensures copyName != "" && FindById(old(index.items), destination).Some? ==>
        var copy := CopyOf(source, FindById(old(index.items), destination).value, destination, copyName, copyId);
        r == Ok(()) && files == old(files)[SyncItemPath(folderOf, copy) := copy] && index.items == Upsert(old(index.items), copy)
    {
      if copyName == "" {
        return Throws(ArgumentEmpty);
      }
      var destinationItem := GetItem(destination);
      if destinationItem.None? {
        return Throws(AssertionFailed);
      }
      var copy := CopyOf(source, destinationItem.value, destination, copyName, copyId);
      SaveItem(copy);
      return Ok(());
    }

    /** The loop of MoveItem over the descendants: save each with its path rebased, then delete its old file. */
    method SaveRebasedDescendants(ds: seq<SyncItem>, oldRoot: string, newRoot: string)
      requires Valid()
      modifies this, index
      ensures Valid()
      ensures files == RebasedFiles(folderOf, old(files), ds, oldRoot, newRoot)
      ensures index.items == UpsertAll(old(index.items), RebaseAll(ds, oldRoot, newRoot))
    {
      var i := 0;
      while i < |ds|
        invariant 0 <= i <= |ds| && Valid()
        invariant files == RebasedFiles(folderOf, old(files), ds[..i], oldRoot, newRoot)
        invariant index.items == UpsertAll(old(index.items), RebaseAll(ds[..i], oldRoot, newRoot))
      {
        var descendant := ds[i];
        var oldPath := SyncItemPath(folderOf, descendant);
        assert ds[..i + 1][..i] == ds[..i];
        SaveItem(RebaseRecord(descendant, oldRoot, newRoot));
        files := files - {oldPath};
        i := i + 1;
      }
      assert ds[..|ds|] == ds;
    }

    /**
     * MoveItem: the item under its new parent, each descendant re-saved with its path rebased
     * and its old file deleted, then the item's old file and old children folder deleted.
     */
    method MoveItem(item: SyncItem, newParent: Id) returns (r: Result<()>)
      requires Valid() && (FindById(index.items, newParent).Some? && IsId(item.id) ==> Terminates(index.items, item.id))
      modifies this, index
      ensures Valid()
      ensures (r, files, index.items) == MoveOutcome(folderOf, old(index.items), old(files), item, newParent)
    {
      ghost var items0 := index.items;
      ghost var files0 := files;
      var newParentItem := index.GetItem(newParent);
      if newParentItem.None? {
        return Throws(AssertionFailed);
      }
      var parentItem := newParentItem.value;
      var oldRootPath := item.itemPath;
      var newRootPath := ChildPath(parentItem.itemPath, item.name);
      var itemId := GetSitecoreId(item);
      if itemId.Throws? {
        return Throws(itemId.failure);
      }
      var descendants := index.GetDescendants(itemId.value);
      if descendants.Throws? {
        return Throws(descendants.failure);
      }
      var ds := descendants.value;
      var moved := MovedRecord(item, parentItem, newParent);
      SaveItem(moved);
      if oldRootPath == "" && |ds| > 0 {
        return Throws(ArgumentEmpty);
      }
      SaveRebasedDescendants(ds, oldRootPath, newRootPath);
      MoveFilesAreOps(folderOf, files0, item, moved, ds);
      assert [moved][..0] == [] && ([moved] + RebaseAll(ds, oldRootPath, newRootPath))[..1] == [moved];
      UpsertAllAppend(items0, [moved], RebaseAll(ds, oldRootPath, newRootPath));
      RemoveItemFiles(item);
      return Ok(());
    }
  }
}
