/**
 * Fresh scans of the index's record list: what SerializedIndex computes on a cache miss
 * (List.Find, List.FindAll) and how ClearIndexes and UpdateIndexes rewrite the list.
 * Every cache of the index is specified as agreeing with one of these.
 */
module Scans {
  import opened Outcomes
  import opened Text
  import opened Ids
  import opened SyncItems

  /** Position of the first record whose ID text is `id`, compared ordinally. */
  function IndexOfId(items: seq<SyncItem>, id: string): (r: Option<nat>)
    ensures r.Some? ==> r.value < |items| && items[r.value].id == id
    ensures r.Some? ==> forall j | 0 <= j < r.value :: items[j].id != id
    ensures r.None? ==> forall j | 0 <= j < |items| :: items[j].id != id
    decreases |items|
  {
    if |items| == 0 then None
    else if items[0].id == id then Some(0)
    else match IndexOfId(items[1..], id)
      case None => None
      case Some(k) => Some(k + 1)
  }

  /** The first index satisfying the first-match property is the one IndexOfId reports. */
  lemma IndexOfIdIs(items: seq<SyncItem>, id: string, k: nat)
    requires k < |items| && items[k].id == id
    requires forall j | 0 <= j < k :: items[j].id != id
    ensures IndexOfId(items, id) == Some(k)
  {
  }

  /** List.Find(x => x.ID == id). */
  function FindById(items: seq<SyncItem>, id: string): Option<SyncItem>
  {
    match IndexOfId(items, id)
    case None => None
    case Some(k) => Some(items[k])
  }

  /** Does the record sit at `path`, ignoring case? */
  predicate AtPath(r: SyncItem, path: string)
  {
    Fold(r.itemPath) == Fold(path)
  }

  /** Position of the first record whose path equals `path` ignoring case. */
  function IndexOfPath(items: seq<SyncItem>, path: string): (r: Option<nat>)
    ensures r.Some? ==> r.value < |items| && AtPath(items[r.value], path)
    ensures r.Some? ==> forall j | 0 <= j < r.value :: !AtPath(items[j], path)
    ensures r.None? ==> forall j | 0 <= j < |items| :: !AtPath(items[j], path)
    decreases |items|
  {
    if |items| == 0 then None
    else if AtPath(items[0], path) then Some(0)
    else match IndexOfPath(items[1..], path)
      case None => None
      case Some(k) => Some(k + 1)
  }

  /** List.Find(x => x.ItemPath.Equals(path, OrdinalIgnoreCase)). */
  function FindByPath(items: seq<SyncItem>, path: string): Option<SyncItem>
  {
    match IndexOfPath(items, path)
    case None => None
    case Some(k) => Some(items[k])
  }

  /** A path lookup sees only the folded path, so a cache keyed by folded paths answers for every spelling. */
  lemma FindByPathFolded(items: seq<SyncItem>, path: string)
    ensures FindByPath(items, Fold(path)) == FindByPath(items, path)
  {
    FoldIdempotent(path);
    assert forall r: SyncItem :: AtPath(r, Fold(path)) == AtPath(r, path);
    var a := IndexOfPath(items, Fold(path));
    var b := IndexOfPath(items, path);
    if a.Some? && b.Some? {
      assert a.value == b.value;
    }
  }

  /** List.FindAll: the records that satisfy `keep`, in list order. */
  function Filter<T(!new)>(s: seq<T>, keep: T -> bool): (r: seq<T>)
    ensures |r| <= |s|
    ensures forall x :: x in r <==> x in s && keep(x)
    decreases |s|
  {
    if |s| == 0 then [] else (if keep(s[0]) then [s[0]] else []) + Filter(s[1..], keep)
  }

  /** Filtering what is already filtered changes nothing. */
  lemma {:induction false} FilterIdempotent<T(!new)>(s: seq<T>, keep: T -> bool)
    ensures Filter(Filter(s, keep), keep) == Filter(s, keep)
    decreases |s|
  {
    if |s| > 0 {
      FilterIdempotent(s[1..], keep);
      var f := Filter(s, keep);
      if keep(s[0]) {
        assert f == [s[0]] + Filter(s[1..], keep);
        assert f[0] == s[0] && f[1..] == Filter(s[1..], keep);
      } else {
        assert f == Filter(s[1..], keep);
      }
    }
  }

  /** Filtering a concatenation filters each part. */
  lemma {:induction false} FilterAppend<T(!new)>(a: seq<T>, b: seq<T>, keep: T -> bool)
    ensures Filter(a + b, keep) == Filter(a, keep) + Filter(b, keep)
    decreases |a|
  {
    if |a| > 0 {
      assert (a + b)[1..] == a[1..] + b;
      FilterAppend(a[1..], b, keep);
    } else {
      assert a + b == b;
    }
  }

  /** List.FindAll(x => x.ParentID == id): the children of `id`, in list order. */
  function ChildrenOf(items: seq<SyncItem>, parent: string): seq<SyncItem>
  {
    Filter(items, (r: SyncItem) => r.parentId == parent)
  }

  /** List.FindAll(x => x.TemplateID == id). */
  function WithTemplate(items: seq<SyncItem>, templateId: string): seq<SyncItem>
  {
    Filter(items, (r: SyncItem) => r.templateId == templateId)
  }

  /** The records a children scan returns are exactly the list's records with that parent. */
  lemma ChildrenOfMembers(items: seq<SyncItem>, parent: string)
    ensures forall r :: r in ChildrenOf(items, parent) <==> r in items && r.parentId == parent
  {
  }

  lemma WithTemplateMembers(items: seq<SyncItem>, templateId: string)
    ensures forall r :: r in WithTemplate(items, templateId) <==> r in items && r.templateId == templateId
  {
  }

  /** UpdateIndexes on the list: replace the first record with the same ID text, or append. */
  function Upsert(items: seq<SyncItem>, item: SyncItem): seq<SyncItem>
  {
    match IndexOfId(items, item.id)
    case Some(k) => items[k := item]
    case None => items + [item]
  }

  /** ClearIndexes on the list: remove the first record with the given ID text, if any. */
  function RemoveFirstId(items: seq<SyncItem>, id: string): seq<SyncItem>
  {
    match IndexOfId(items, id)
    case Some(k) => items[..k] + items[k + 1..]
    case None => items
  }

  /** No two records of the list share an ID text. */
  predicate UniqueIds(items: seq<SyncItem>)
  {
    forall i, j | 0 <= i < j < |items| :: items[i].id != items[j].id
  }

  /** After an upsert the record is what an ID lookup finds, and the list grows only when its ID was new. */
  lemma UpsertThenFind(items: seq<SyncItem>, item: SyncItem)
    ensures FindById(Upsert(items, item), item.id) == Some(item)
    ensures |Upsert(items, item)| == |items| + (if IndexOfId(items, item.id).None? then 1 else 0)
  {
    var u := Upsert(items, item);
    match IndexOfId(items, item.id)
    case Some(k) =>
      IndexOfIdIs(u, item.id, k);
    case None =>
      IndexOfIdIs(u, item.id, |items|);
  }

  /** An upsert touches only the slot of the first record with the same ID. */
  lemma UpsertKeepsOthers(items: seq<SyncItem>, item: SyncItem)
    ensures item in Upsert(items, item)
    ensures forall x | x in Upsert(items, item) :: x == item || x in items
    ensures forall x | x in items && x.id != item.id :: x in Upsert(items, item)
  {
    match IndexOfId(items, item.id)
    case Some(k) =>
      assert items[k := item][k] == item;
      forall x | x in items && x.id != item.id
        ensures x in items[k := item]
      {
        var j :| 0 <= j < |items| && items[j] == x;
        assert items[k := item][j] == x;
      }
    case None =>
  }

  /** Upserts keep the IDs unique, and the upserted record is then the only one with its ID. */
  lemma UpsertUnique(items: seq<SyncItem>, item: SyncItem)
    requires UniqueIds(items)
    ensures UniqueIds(Upsert(items, item))
    ensures forall x | x in Upsert(items, item) && x.id == item.id :: x == item
  {
    var u := Upsert(items, item);
    match IndexOfId(items, item.id)
    case Some(k) =>
      forall x | x in u && x.id == item.id
        ensures x == item
      {
        var j :| 0 <= j < |u| && u[j] == x;
      }
    case None =>
  }

  /** Cutting one element out of a sequence takes exactly that element out of its multiset. */
  lemma CutMultiset<T>(s: seq<T>, k: nat)
    requires k < |s|
    ensures multiset(s[..k] + s[k + 1..]) + multiset{s[k]} == multiset(s)
  {
    assert s == s[..k] + [s[k]] + s[k + 1..];
  }

  /** A removal takes out exactly the first record with the ID, when there is one. */
  lemma RemoveFirstIdShape(items: seq<SyncItem>, id: string)
    ensures IndexOfId(items, id).None? ==> RemoveFirstId(items, id) == items
    ensures IndexOfId(items, id).Some? ==>
      |RemoveFirstId(items, id)| == |items| - 1
      && multiset(RemoveFirstId(items, id)) + multiset{items[IndexOfId(items, id).value]} == multiset(items)
    ensures IndexOfId(items, id).Some? ==>
      var k := IndexOfId(items, id).value;
      RemoveFirstId(items, id) == items[..k] + items[k + 1..]
  {
    match IndexOfId(items, id)
    case None =>
    case Some(k) =>
      assert items == items[..k] + [items[k]] + items[k + 1..];
  }

  /** With unique IDs a removal leaves no record with that ID, so a second removal changes nothing. */
  lemma RemoveFirstIdUnique(items: seq<SyncItem>, id: string)
    requires UniqueIds(items)
    ensures UniqueIds(RemoveFirstId(items, id))
    ensures FindById(RemoveFirstId(items, id), id) == None
    ensures RemoveFirstId(RemoveFirstId(items, id), id) == RemoveFirstId(items, id)
  {
    var r := RemoveFirstId(items, id);
    match IndexOfId(items, id)
    case None =>
    case Some(k) =>
      assert forall j | 0 <= j < |r| :: r[j] == (if j < k then items[j] else items[j + 1]);
      forall j | 0 <= j < |r|
        ensures r[j].id != id
      {
        if j >= k {
          assert items[j + 1].id != items[k].id;
        }
      }
  }
}
