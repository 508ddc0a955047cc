/**
 * The descendants of an item as SerializedIndex.RecursiveGetDescendants computes them: the
 * children of the root in list order, then the descendants of each child in turn. The
 * recursion follows ParentID links and is not guarded against cycles, so the model bounds it
 * by a fuel (a stack depth): running out is `TooDeep`, the stack overflow of the source.
 */
module Descendants {
  import opened Outcomes
  import opened Ids
  import opened SyncItems
  import opened Scans

  /** The outcome of an expansion: the records, an unparseable child ID, or recursion too deep for the fuel. */
  datatype Expansion = Expanded(records: seq<SyncItem>) | BadId | TooDeep

  /** `front` followed by the records of `e`, or `e`'s failure. */
  function Prepend(front: seq<SyncItem>, e: Expansion): Expansion
  {
    match e
    case Expanded(rest) => Expanded(front + rest)
    case _ => e
  }

  /** The records of `first` followed by those of `rest`, or the first failure. */
  function Then(first: Expansion, rest: Expansion): Expansion
  {
    match first
    case Expanded(a) => Prepend(a, rest)
    case _ => first
  }

  lemma PrependTwice(a: seq<SyncItem>, b: seq<SyncItem>, e: Expansion)
    ensures Prepend(a, Prepend(b, e)) == Prepend(a + b, e)
  {
    if e.Expanded? {
      assert a + (b + e.records) == (a + b) + e.records;
    }
  }

  /** RecursiveGetDescendants(root) with `fuel` levels of stack. */
  function Expand(items: seq<SyncItem>, root: Id, fuel: nat): Expansion
    decreases fuel, 0, 0
  {
    if fuel == 0 then TooDeep
    else Prepend(ChildrenOf(items, root), ExpandFrom(items, ChildrenOf(items, root), 0, fuel - 1))
  }

  /** The loop over the children from position `i`: each child's ID is parsed (GetSitecoreId) and its subtree appended. */
  function ExpandFrom(items: seq<SyncItem>, cs: seq<SyncItem>, i: nat, fuel: nat): Expansion
    decreases fuel, 1, |cs| - i
  {
    if i >= |cs| then Expanded([])
    else if !IsId(cs[i].id) then BadId
    else Then(Expand(items, cs[i].id, fuel), ExpandFrom(items, cs, i + 1, fuel))
  }

  /** One turn of that loop, for an outcome `whole` of which `done` is already collected. */
  lemma ExpandFromStep(items: seq<SyncItem>, cs: seq<SyncItem>, i: nat, fuel: nat, done: seq<SyncItem>, whole: Expansion)
    requires i < |cs| && whole != TooDeep
    requires whole == Prepend(done, ExpandFrom(items, cs, i, fuel))
    ensures !IsId(cs[i].id) ==> whole == BadId
    ensures IsId(cs[i].id) ==> Expand(items, cs[i].id, fuel) != TooDeep
    ensures IsId(cs[i].id) && Expand(items, cs[i].id, fuel) == BadId ==> whole == BadId
    ensures IsId(cs[i].id) && Expand(items, cs[i].id, fuel).Expanded? ==>
      whole == Prepend(done + Expand(items, cs[i].id, fuel).records, ExpandFrom(items, cs, i + 1, fuel))
  {
    if IsId(cs[i].id) && Expand(items, cs[i].id, fuel).Expanded? {
      PrependTwice(done, Expand(items, cs[i].id, fuel).records, ExpandFrom(items, cs, i + 1, fuel));
    }
  }

  /** The recursion from `root` ends: some stack depth suffices. */
  ghost predicate Terminates(items: seq<SyncItem>, root: Id)
  {
    exists fuel: nat :: Expand(items, root, fuel) != TooDeep
  }

  /** More fuel never changes an outcome that did not run out. */
  lemma {:induction false} ExpandMonotone(items: seq<SyncItem>, root: Id, f: nat, g: nat)
    requires f <= g && Expand(items, root, f) != TooDeep
    ensures Expand(items, root, g) == Expand(items, root, f)
    decreases f, 0, 0
  {
    ExpandFromMonotone(items, ChildrenOf(items, root), 0, f - 1, g - 1);
  }

  lemma {:induction false} ExpandFromMonotone(items: seq<SyncItem>, cs: seq<SyncItem>, i: nat, f: nat, g: nat)
    requires f <= g && ExpandFrom(items, cs, i, f) != TooDeep
    ensures ExpandFrom(items, cs, i, g) == ExpandFrom(items, cs, i, f)
    decreases f, 1, |cs| - i
  {
    if i < |cs| && IsId(cs[i].id) {
      ExpandMonotone(items, cs[i].id, f, g);
      if Expand(items, cs[i].id, f).Expanded? {
        ExpandFromMonotone(items, cs, i + 1, f, g);
      }
    }
  }

  /** Any two sufficient depths give the same outcome. */
  lemma FuelIrrelevant(items: seq<SyncItem>, root: Id, f: nat, g: nat)
    requires Expand(items, root, f) != TooDeep && Expand(items, root, g) != TooDeep
    ensures Expand(items, root, f) == Expand(items, root, g)
  {
    if f <= g {
      ExpandMonotone(items, root, f, g);
    } else {
      ExpandMonotone(items, root, g, f);
    }
  }

  /** GetDescendants(root) when the recursion ends: the records, or the unparseable child ID. */
  ghost function DescendantsOf(items: seq<SyncItem>, root: Id): (e: Expansion)
    requires Terminates(items, root)
    ensures e != TooDeep
    ensures forall fuel: nat | Expand(items, root, fuel) != TooDeep :: e == Expand(items, root, fuel)
  {
    var fuel: nat :| Expand(items, root, fuel) != TooDeep;
    assert forall g: nat | Expand(items, root, g) != TooDeep :: Expand(items, root, fuel) == Expand(items, root, g) by {
      forall g: nat | Expand(items, root, g) != TooDeep
        ensures Expand(items, root, fuel) == Expand(items, root, g)
      {
        FuelIrrelevant(items, root, fuel, g);
      }
    }
    Expand(items, root, fuel)
  }

  /** Every direct child of the root is in its expansion. */
  lemma ExpandHasChildren(items: seq<SyncItem>, root: Id, fuel: nat)
    requires Expand(items, root, fuel).Expanded?
    ensures forall c | c in ChildrenOf(items, root) :: c in Expand(items, root, fuel).records
  {
    var cs := ChildrenOf(items, root);
    assert Expand(items, root, fuel).records == cs + ExpandFrom(items, cs, 0, fuel - 1).records;
  }

  /**
   * Every record of an expansion is a record of the list with a parseable ID, and it hangs on
   * the root or on an earlier record of the expansion, so the expansion holds descendants of the
   * root only; every child of the root is included.
   */
  lemma {:induction false} ExpandSound(items: seq<SyncItem>, root: Id, fuel: nat)
    requires Expand(items, root, fuel).Expanded?
    ensures var rs := Expand(items, root, fuel).records;
      forall k | 0 <= k < |rs| ::
        rs[k] in items && IsId(rs[k].id) && (rs[k].parentId == root || exists j | 0 <= j < k :: rs[k].parentId == rs[j].id)
    ensures forall c | c in ChildrenOf(items, root) :: c in Expand(items, root, fuel).records
    decreases fuel, 0, 0
  {
    var cs := ChildrenOf(items, root);
    ExpandHasChildren(items, root, fuel);
    ExpandFromSound(items, cs, 0, fuel - 1);
    ChildrenOfMembers(items, root);
    var rest := ExpandFrom(items, cs, 0, fuel - 1).records;
    assert Expand(items, root, fuel).records == cs + rest;
    SoundChildrenFirst(items, root, cs, rest);
  }

  /** The children of the root, then records hanging on those children or on earlier ones: all hang on the root or earlier. */
  lemma SoundChildrenFirst(items: seq<SyncItem>, root: Id, cs: seq<SyncItem>, rest: seq<SyncItem>)
    requires forall c | c in cs :: c in items && c.parentId == root
    requires forall j | 0 <= j < |cs| :: IsId(cs[j].id)
    requires forall k | 0 <= k < |rest| ::
      rest[k] in items && IsId(rest[k].id) &&
      ((exists j | 0 <= j < |cs| :: rest[k].parentId == cs[j].id) || exists j | 0 <= j < k :: rest[k].parentId == rest[j].id)
    ensures var rs := cs + rest;
      forall k | 0 <= k < |rs| ::
        rs[k] in items && IsId(rs[k].id) && (rs[k].parentId == root || exists j | 0 <= j < k :: rs[k].parentId == rs[j].id)
  {
    var rs := cs + rest;
    forall k | 0 <= k < |rs|
      ensures rs[k] in items && IsId(rs[k].id) && (rs[k].parentId == root || exists j | 0 <= j < k :: rs[k].parentId == rs[j].id)
    {
      if k < |cs| {
        assert rs[k] == cs[k] && cs[k] in cs;
      } else {
        var t := k - |cs|;
        assert rs[k] == rest[t];
        if exists j | 0 <= j < |cs| :: rest[t].parentId == cs[j].id {
          var j :| 0 <= j < |cs| && rest[t].parentId == cs[j].id;
          assert rs[j] == cs[j];
        } else {
          var j :| 0 <= j < t && rest[t].parentId == rest[j].id;
          assert rs[|cs| + j] == rest[j];
        }
      }
    }
  }

  /**
   * The records the loop adds from child `i` on: each is a record of the list with a parseable
   * ID, hanging on one of those children or on an earlier added record.
   */
  lemma {:induction false} ExpandFromSound(items: seq<SyncItem>, cs: seq<SyncItem>, i: nat, fuel: nat)
    requires i <= |cs| && ExpandFrom(items, cs, i, fuel).Expanded?
    ensures var rs := ExpandFrom(items, cs, i, fuel).records;
      forall k | 0 <= k < |rs| ::
        rs[k] in items && IsId(rs[k].id) &&
        ((exists j | i <= j < |cs| :: rs[k].parentId == cs[j].id) || exists j | 0 <= j < k :: rs[k].parentId == rs[j].id)
    ensures forall j | i <= j < |cs| :: IsId(cs[j].id)
    decreases fuel, 1, |cs| - i
  {
    if i < |cs| {
      var first := Expand(items, cs[i].id, fuel).records;
      var tail := ExpandFrom(items, cs, i + 1, fuel).records;
      assert ExpandFrom(items, cs, i, fuel).records == first + tail;
      ExpandSound(items, cs[i].id, fuel);
      ExpandFromSound(items, cs, i + 1, fuel);
      SoundSubtreeFirst(items, cs, i, first, tail);
    }
  }

  /** Child `i`'s subtree, then records hanging on the later children or earlier: all hang on children from `i` or earlier. */
  lemma SoundSubtreeFirst(items: seq<SyncItem>, cs: seq<SyncItem>, i: nat, first: seq<SyncItem>, tail: seq<SyncItem>)
    requires i < |cs|
    requires forall k | 0 <= k < |first| ::
      first[k] in items && IsId(first[k].id) &&
      (first[k].parentId == cs[i].id || exists j | 0 <= j < k :: first[k].parentId == first[j].id)
    requires forall k | 0 <= k < |tail| ::
      tail[k] in items && IsId(tail[k].id) &&
      ((exists j | i + 1 <= j < |cs| :: tail[k].parentId == cs[j].id) || exists j | 0 <= j < k :: tail[k].parentId == tail[j].id)
    ensures var rs := first + tail;
      forall k | 0 <= k < |rs| ::
        rs[k] in items && IsId(rs[k].id) &&
        ((exists j | i <= j < |cs| :: rs[k].parentId == cs[j].id) || exists j | 0 <= j < k :: rs[k].parentId == rs[j].id)
  {
    var rs := first + tail;
    forall k | 0 <= k < |rs|
      ensures rs[k] in items && IsId(rs[k].id) &&
        ((exists j | i <= j < |cs| :: rs[k].parentId == cs[j].id) || exists j | 0 <= j < k :: rs[k].parentId == rs[j].id)
    {
      if k < |first| {
        assert rs[k] == first[k];
        if first[k].parentId != cs[i].id {
          var j :| 0 <= j < k && first[k].parentId == first[j].id;
          assert rs[j] == first[j];
        }
      } else {
        var t := k - |first|;
        assert rs[k] == tail[t];
        if exists j | i + 1 <= j < |cs| :: tail[t].parentId == cs[j].id {
          var j :| i + 1 <= j < |cs| && tail[t].parentId == cs[j].id;
        } else {
          var j :| 0 <= j < t && tail[t].parentId == tail[j].id;
          assert rs[|first| + j] == tail[j];
        }
      }
    }
  }

  /** An expansion is closed under children: the children of every record in it are in it too. */
  lemma {:induction false} ExpandClosed(items: seq<SyncItem>, root: Id, fuel: nat)
    requires Expand(items, root, fuel).Expanded?
    ensures var rs := Expand(items, root, fuel).records;
      forall r, c | r in rs && c in ChildrenOf(items, r.id) :: c in rs
    decreases fuel, 0, 0
  {
    var cs := ChildrenOf(items, root);
    ExpandFromClosed(items, cs, 0, fuel - 1);
    assert cs[0..] == cs;
  }

  lemma {:induction false} ExpandFromClosed(items: seq<SyncItem>, cs: seq<SyncItem>, i: nat, fuel: nat)
    requires i <= |cs| && ExpandFrom(items, cs, i, fuel).Expanded?
    ensures var rs := ExpandFrom(items, cs, i, fuel).records;
      forall r, c | r in cs[i..] + rs && c in ChildrenOf(items, r.id) :: c in rs
    decreases fuel, 1, |cs| - i
  {
    if i < |cs| {
      var head := cs[i];
      var first := Expand(items, head.id, fuel).records;
      var tail := ExpandFrom(items, cs, i + 1, fuel).records;
      var rs := ExpandFrom(items, cs, i, fuel).records;
      assert rs == first + tail;
      ExpandClosed(items, head.id, fuel);
      ExpandHasChildren(items, head.id, fuel);
      ExpandFromClosed(items, cs, i + 1, fuel);
      assert cs[i..] + rs == [head] + cs[i + 1..] + (first + tail);
      ClosedConcat(items, head, cs[i + 1..], first, tail);
    }
  }

  /**
   * A head whose children and their closure are in `first`, followed by a rest closed into
   * `tail`, is closed into `first + tail`.
   */
  lemma ClosedConcat(items: seq<SyncItem>, head: SyncItem, rest: seq<SyncItem>, first: seq<SyncItem>, tail: seq<SyncItem>)
    requires forall c | c in ChildrenOf(items, head.id) :: c in first
    requires forall r, c | r in first && c in ChildrenOf(items, r.id) :: c in first
    requires forall r, c | r in rest + tail && c in ChildrenOf(items, r.id) :: c in tail
    ensures forall r, c | r in [head] + rest + (first + tail) && c in ChildrenOf(items, r.id) :: c in first + tail
  {
    forall r, c | r in [head] + rest + (first + tail) && c in ChildrenOf(items, r.id)
      ensures c in first + tail
    {
      if r == head {
        assert c in first;
      } else if r in first {
        assert c in first;
      } else {
        assert r in rest + tail;
        assert c in tail;
      }
    }
  }

  /** When every ID of the list parses, no expansion reports an unparseable ID. */
  lemma {:induction false} ExpandNoBadId(items: seq<SyncItem>, root: Id, fuel: nat)
    requires forall r | r in items :: IsId(r.id)
    ensures Expand(items, root, fuel) != BadId
    decreases fuel, 0, 0
  {
    if fuel > 0 {
      ChildrenOfMembers(items, root);
      ExpandFromNoBadId(items, ChildrenOf(items, root), 0, fuel - 1);
    }
  }

  lemma {:induction false} ExpandFromNoBadId(items: seq<SyncItem>, cs: seq<SyncItem>, i: nat, fuel: nat)
    requires forall r | r in items :: IsId(r.id)
    requires forall c | c in cs :: c in items
    ensures ExpandFrom(items, cs, i, fuel) != BadId
    decreases fuel, 1, |cs| - i
  {
    if i < |cs| {
      assert cs[i] in items;
      ExpandNoBadId(items, cs[i].id, fuel);
      ExpandFromNoBadId(items, cs, i + 1, fuel);
    }
  }

  /** In the loop over children, a child whose own expansion runs out makes the loop run out, unless an earlier child stops it. */
  lemma {:induction false} ExpandFromRunsOut(items: seq<SyncItem>, cs: seq<SyncItem>, i: nat, fuel: nat, k: nat)
    requires i <= k < |cs| && IsId(cs[k].id) && Expand(items, cs[k].id, fuel) == TooDeep
    ensures ExpandFrom(items, cs, i, fuel) != BadId ==> ExpandFrom(items, cs, i, fuel) == TooDeep
    decreases k - i
  {
    if i < k && IsId(cs[i].id) {
      ExpandFromRunsOut(items, cs, i + 1, fuel, k);
    }
  }

  /**
   * A record that is its own parent makes the recursion from its ID go on for ever when every
   * ID parses: the source overflows its stack on such a tree.
   */
  lemma SelfParentDiverges(items: seq<SyncItem>, r: SyncItem)
    requires r in items && IsId(r.id) && r.parentId == r.id
    requires forall x | x in items :: IsId(x.id)
    ensures !Terminates(items, r.id)
  {
    forall fuel: nat
      ensures Expand(items, r.id, fuel) == TooDeep
    {
      SelfParentRunsOut(items, r, fuel);
    }
  }

  lemma {:induction false} SelfParentRunsOut(items: seq<SyncItem>, r: SyncItem, fuel: nat)
    requires r in items && IsId(r.id) && r.parentId == r.id
    requires forall x | x in items :: IsId(x.id)
    ensures Expand(items, r.id, fuel) == TooDeep
    decreases fuel
  {
    if fuel > 0 {
      var cs := ChildrenOf(items, r.id);
      ChildrenOfMembers(items, r.id);
      var k :| 0 <= k < |cs| && cs[k] == r;
      SelfParentRunsOut(items, r, fuel - 1);
      ExpandFromRunsOut(items, cs, 0, fuel - 1, k);
      ExpandFromNoBadId(items, cs, 0, fuel - 1);
    }
  }

  /** A record with no children expands to nothing with a single level of stack. */
  lemma LeafTerminates(items: seq<SyncItem>, root: Id)
    requires ChildrenOf(items, root) == []
    ensures Expand(items, root, 1) == Expanded([])
    ensures Terminates(items, root)
  {
    assert Expand(items, root, 1) != TooDeep;
  }
}
