/**
 * SerializedIndex: the in-memory list of every serialized record of one database, with
 * lazily filled lookup caches. A cache entry is written only on a miss, from a fresh scan of
 * the list, and every change to the list clears them all; `Valid` states that each entry
 * agrees with a fresh scan of the list as it is now.
 */
module Index {
  import opened Outcomes
  import opened Text
  import opened Ids
  import opened SyncItems
  import opened Scans
  import opened Descendants

  /** GetDescendants as a result: the records, or the exception of an unparseable child ID. */
  function DescendantsResult(e: Expansion): Result<seq<SyncItem>>
    requires e != TooDeep
  {
    match e
    case Expanded(rs) => Ok(rs)
    case BadId => Throws(ArgumentOutOfRange)
  }

  /** GetChildren(string path): fresh-scan meaning. */
  function ChildrenAtPath(items: seq<SyncItem>, path: string): Result<seq<SyncItem>>
  {
    if path == "" then Throws(ArgumentEmpty)
    else match FindByPath(items, path)
      case None => Ok([])
      case Some(item) =>
        match GetSitecoreId(item)
        case Throws(f) => Throws(f)
        case Ok(id) => Ok(ChildrenOf(items, id))
  }

  /** The recursion below the item at `path`, if there is one with a parseable ID, ends. */
  ghost predicate TerminatesAtPath(items: seq<SyncItem>, path: string)
  {
    match FindByPath(items, path)
    case Some(item) => IsId(item.id) ==> Terminates(items, item.id)
    case None => true
  }

  /** GetDescendants(string path): fresh-scan meaning. */
  ghost function DescendantsAtPath(items: seq<SyncItem>, path: string): Result<seq<SyncItem>>
    requires TerminatesAtPath(items, path)
  {
    if path == "" then Throws(ArgumentEmpty)
    else match FindByPath(items, path)
      case None => Ok([])
      case Some(item) =>
        match GetSitecoreId(item)
        case Throws(f) => Throws(f)
        case Ok(id) => DescendantsResult(DescendantsOf(items, id))
  }

  /** The records GetChildren(path) returns all have as parent the record found at that path. */
  lemma ChildrenAtPathHang(items: seq<SyncItem>, path: string)
    ensures ChildrenAtPath(items, path).Ok? && ChildrenAtPath(items, path).value != [] ==>
      exists p | p in items && AtPath(p, path) :: forall c | c in ChildrenAtPath(items, path).value :: c in items && c.parentId == p.id
  {
    if ChildrenAtPath(items, path).Ok? && ChildrenAtPath(items, path).value != [] {
      var p := FindByPath(items, path).value;
      ChildrenOfMembers(items, p.id);
      assert p in items && AtPath(p, path);
    }
  }

  class SerializedIndex {
    var items: seq<SyncItem>
    var idLookup: map<Id, SyncItem>
    var childrenLookup: map<Id, seq<SyncItem>>
    var descendantsLookup: map<Id, seq<SyncItem>>
    var templateLookup: map<Id, seq<SyncItem>>
    /** Keyed by the folded path: the source's dictionary compares keys ignoring case. */
    var pathLookup: map<string, SyncItem>

    /** The ID cache holds only hits, each the first record with that ID. */
    ghost predicate IdsValid()
      reads this
    {
      forall id | id in idLookup :: FindById(items, id) == Some(idLookup[id])
    }

    /** Each cached child list, empty ones included, is the current children scan. */
    ghost predicate ChildrenValid()
      reads this
    {
      forall id | id in childrenLookup :: childrenLookup[id] == ChildrenOf(items, id)
    }

    /** Each cached descendant list is a completed expansion of the current list. */
    ghost predicate DescendantsValid()
      reads this
    {
      forall id | id in descendantsLookup :: Terminates(items, id) && DescendantsOf(items, id) == Expanded(descendantsLookup[id])
    }

    /** Each cached template list is the current template scan. */
    ghost predicate TemplatesValid()
      reads this
    {
      forall id | id in templateLookup :: templateLookup[id] == WithTemplate(items, id)
    }

    /** Each cached path hit is the first record at that path, ignoring case. */
    ghost predicate PathsValid()
      reads this
    {
      forall key | key in pathLookup :: FindByPath(items, key) == Some(pathLookup[key])
    }

    /** Every cache entry is what a fresh scan of the current list would give. */
    ghost predicate Valid()
      reads this
    {
      IdsValid() && ChildrenValid() && DescendantsValid() && TemplatesValid() && PathsValid()
    }

    predicate CachesEmpty()
      reads this
    {
      idLookup == map[] && childrenLookup == map[] && descendantsLookup == map[]
      && templateLookup == map[] && pathLookup == map[]
    }

    /** A new index over the records read from disk, with empty caches. */
    constructor(initial: seq<SyncItem>)
      ensures items == initial && CachesEmpty() && Valid()
    {
      items := initial;
      idLookup := map[];
      childrenLookup := map[];
      descendantsLookup := map[];
      templateLookup := map[];
      pathLookup := map[];
    }

    /** GetItem(ID): the first record with that ID text; a hit is remembered, a miss is not. */
    method GetItem(id: Id) returns (r: Option<SyncItem>)
      requires Valid()
      modifies this
      ensures Valid()
      ensures r == FindById(items, id)
      ensures idLookup == if r.Some? then old(idLookup)[id := r.value] else old(idLookup)
      ensures items == old(items) && childrenLookup == old(childrenLookup) && descendantsLookup == old(descendantsLookup)
      ensures templateLookup == old(templateLookup) && pathLookup == old(pathLookup)
    {
      if id in idLookup {
        return Some(idLookup[id]);
      }
      r := FindById(items, id);
      if r.Some? {
        idLookup := idLookup[id := r.value];
      }
    }

    /** GetItem(string): the first record at that path ignoring case, remembered under its own path. */
    method GetItemByPath(path: string) returns (r: Option<SyncItem>)
      requires Valid()
      modifies this
      ensures Valid()
      ensures r == FindByPath(items, path)
      ensures pathLookup == if r.Some? then old(pathLookup)[Fold(path) := r.value] else old(pathLookup)
      ensures items == old(items) && idLookup == old(idLookup) && childrenLookup == old(childrenLookup)
      ensures descendantsLookup == old(descendantsLookup) && templateLookup == old(templateLookup)
    {
      FindByPathFolded(items, path);
      var key := Fold(path);
      if key in pathLookup {
        return Some(pathLookup[key]);
      }
      r := FindByPath(items, path);
      if r.Some? {
        var item := r.value;
        FoldIdempotent(item.itemPath);
        assert Fold(item.itemPath) == key;
        pathLookup := pathLookup[Fold(item.itemPath) := item];
      }
    }

    /** GetChildren(ID): the records whose ParentID is that ID, in list order; empty answers are remembered too. */
    method GetChildren(id: Id) returns (r: seq<SyncItem>)
      requires ChildrenValid()
      modifies this
      ensures ChildrenValid()
      ensures r == ChildrenOf(items, id)
      ensures childrenLookup == old(childrenLookup)[id := r]
      ensures items == old(items) && idLookup == old(idLookup) && descendantsLookup == old(descendantsLookup)
      ensures templateLookup == old(templateLookup) && pathLookup == old(pathLookup)
    {
      if id in childrenLookup {
        return childrenLookup[id];
      }
      r := ChildrenOf(items, id);
      childrenLookup := childrenLookup[id := r];
    }

    /** GetChildren(string): an empty path is refused, an unknown path has no children, an unparseable ID throws. */
    method GetChildrenByPath(path: string) returns (r: Result<seq<SyncItem>>)
      requires Valid()
      modifies this
      ensures Valid() && items == old(items)
      ensures r == ChildrenAtPath(items, path)
    {
      if path == "" {
        return Throws(ArgumentEmpty);
      }
      var item := GetItemByPath(path);
      if item.None? {
        return Ok([]);
      }
      match GetSitecoreId(item.value)
      case Throws(f) =>
        return Throws(f);
      case Ok(id) =>
        var children := GetChildren(id);
        return Ok(children);
    }

    /** Everything a children lookup leaves alone. */
    ghost function OtherThanChildren(): (seq<SyncItem>, map<Id, SyncItem>, map<Id, seq<SyncItem>>, map<Id, seq<SyncItem>>, map<string, SyncItem>)
      reads this
    {
      (items, idLookup, descendantsLookup, templateLookup, pathLookup)
    }

    /**
     * RecursiveGetDescendants, given a stack deep enough: the children of `root`, then what
     * the loop over them adds.
     */
    method RecursiveGetDescendants(root: Id, ghost fuel: nat) returns (r: Expansion)
      requires ChildrenValid() && Expand(items, root, fuel) != TooDeep
      modifies this
      ensures ChildrenValid() && OtherThanChildren() == old(OtherThanChildren())
      ensures r == Expand(items, root, fuel)
      decreases fuel, 0
    {
      var children := GetChildren(root);
      var added := AddChildDescendants(children, fuel - 1);
      r := Prepend(children, added);
    }

    /**
     * The foreach of RecursiveGetDescendants: each child's ID parsed and its descendants added
     * in child order; an unparseable child ID ends the loop with its exception.
     */
    method AddChildDescendants(children: seq<SyncItem>, ghost fuel: nat) returns (r: Expansion)
      requires ChildrenValid() && ExpandFrom(items, children, 0, fuel) != TooDeep
      modifies this
      ensures ChildrenValid() && OtherThanChildren() == old(OtherThanChildren())
      ensures r == ExpandFrom(items, children, 0, fuel)
      decreases fuel, 1
    {
      ghost var xs := items;
      ghost var each := ExpandFrom(xs, children, 0, fuel);
      var added: seq<SyncItem> := [];
      for i := 0 to |children|
        invariant ChildrenValid() && OtherThanChildren() == old(OtherThanChildren())
        invariant each == Prepend(added, ExpandFrom(xs, children, i, fuel))
      {
        ExpandFromStep(xs, children, i, fuel, added, each);
        var childId := GetSitecoreId(children[i]);
        if childId.Throws? {
          return BadId;
        }
        var below := RecursiveGetDescendants(childId.value, fuel);
        if !below.Expanded? {
          return below;
        }
        added := added + below.records;
      }
      assert added + [] == added;
      return Expanded(added);
    }

    /** GetDescendants(ID): the descendants, remembered on success; an unparseable ID below throws. */
    method GetDescendants(id: Id) returns (r: Result<seq<SyncItem>>)
      requires Valid() && Terminates(items, id)
      modifies this
      ensures Valid() && items == old(items)
      ensures r == DescendantsResult(DescendantsOf(items, id))
      ensures idLookup == old(idLookup) && pathLookup == old(pathLookup) && templateLookup == old(templateLookup)
      ensures old(id in descendantsLookup) || r.Throws? ==> descendantsLookup == old(descendantsLookup)
      ensures !old(id in descendantsLookup) && r.Ok? ==> descendantsLookup == old(descendantsLookup)[id := r.value]
    {
      if id in descendantsLookup {
        return Ok(descendantsLookup[id]);
      }
      ghost var fuel: nat :| Expand(items, id, fuel) != TooDeep;
      ghost var other := OtherThanChildren();
      var e := RecursiveGetDescendants(id, fuel);
      assert other.1 == idLookup && other.2 == descendantsLookup && other.3 == templateLookup && other.4 == pathLookup;
      if e.Expanded? {
        descendantsLookup := descendantsLookup[id := e.records];
        return Ok(e.records);
      }
      return Throws(ArgumentOutOfRange);
    }

    /** GetDescendants(string): as GetChildren(string) for the path, then GetDescendants of the ID. */
    method GetDescendantsByPath(path: string) returns (r: Result<seq<SyncItem>>)
      requires Valid() && TerminatesAtPath(items, path)
      modifies this
      ensures Valid() && items == old(items)
      ensures r == DescendantsAtPath(items, path)
    {
      if path == "" {
        return Throws(ArgumentEmpty);
      }
      var item := GetItemByPath(path);
      if item.None? {
        return Ok([]);
      }
      match GetSitecoreId(item.value)
      case Throws(f) =>
        return Throws(f);
      case Ok(id) =>
        r := GetDescendants(id);
    }

    /** GetItemsWithTemplate: the records whose TemplateID is that ID, in list order, remembered. */
    method GetItemsWithTemplate(templateId: Id) returns (r: seq<SyncItem>)
      requires Valid()
      modifies this
      ensures Valid()
      ensures r == WithTemplate(items, templateId)
      ensures templateLookup == old(templateLookup)[templateId := r]
      ensures items == old(items) && idLookup == old(idLookup) && childrenLookup == old(childrenLookup)
      ensures descendantsLookup == old(descendantsLookup) && pathLookup == old(pathLookup)
    {
      if templateId in templateLookup {
        return templateLookup[templateId];
      }
      r := WithTemplate(items, templateId);
      templateLookup := templateLookup[templateId := r];
    }

    /** ResetCacheIndexes: forget every cached answer. */
    method ResetCacheIndexes()
      modifies this
      ensures items == old(items) && CachesEmpty() && Valid()
    {
      childrenLookup := map[];
      descendantsLookup := map[];
      idLookup := map[];
      pathLookup := map[];
      templateLookup := map[];
    }

    /** ClearIndexes: remove the first record with that ID text and clear the caches; with no such record nothing changes. */
    method ClearIndexes(itemId: Id)
      requires Valid()
      modifies this
      ensures Valid()
      ensures items == RemoveFirstId(old(items), itemId)
      ensures IndexOfId(old(items), itemId).Some? ==> CachesEmpty()
      ensures IndexOfId(old(items), itemId).None? ==> unchanged(this)
    {
      var i := 0;
      while i < |items|
        invariant 0 <= i <= |items| && items == old(items)
        invariant forall j | 0 <= j < i :: items[j].id != itemId
      {
        if items[i].id == itemId {
          IndexOfIdIs(items, itemId, i);
          items := items[..i] + items[i + 1..];
          ResetCacheIndexes();
          return;
        }
        i := i + 1;
      }
    }

    /** UpdateIndexes: replace the first record with the same ID text, or append it, then clear the caches. */
    method UpdateIndexes(item: SyncItem)
      modifies this
      ensures items == Upsert(old(items), item)
      ensures CachesEmpty() && Valid()
    {
      var i := 0;
      while i < |items|
        invariant 0 <= i <= |items| && items == old(items)
        invariant forall j | 0 <= j < i :: items[j].id != item.id
      {
        if items[i].id == item.id {
          IndexOfIdIs(items, item.id, i);
          items := items[i := item];
          ResetCacheIndexes();
          return;
        }
        i := i + 1;
      }
      items := items + [item];
      ResetCacheIndexes();
    }

    /** Count: the number of records in the list. */
    function Count(): (n: nat)
      reads this
      ensures n == |items|
    {
      |items|
    }
  }
}
