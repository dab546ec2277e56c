/** The tree of spare extents: the red-black tree of include/tree.h with the comparator of
    src/spare.c does what the volume does on its sequence of free extents. */
module SpareTree {
  import opened Layout
  import opened Extents
  import opened FreeProgram
  import opened VolumeManager
  import opened LinkedTree
  import opened RedBlack

  /** The extents of a list of nodes. */
  function ExtentsOf(order: seq<nat>, ext: nat -> Extent): (es: seq<Extent>)
    ensures |es| == |order| && forall i :: 0 <= i < |order| ==> es[i] == ext(order[i])
  {
    seq(|order|, i requires 0 <= i < |order| => ext(order[i]))
  }

  /** cmp is butter_spare_comp on the extents of the nodes. */
  ghost predicate Compares(cmp: (nat, nat) -> int, ext: nat -> Extent) {
    forall a, b :: cmp(a, b) == SpareComp(ext(a).start, ext(b).start)
  }

  /** It orders the nodes as long as all starts are below 2^31. */
  lemma SpareTotal(cmp: (nat, nat) -> int, ext: nat -> Extent, nodes: set<nat>)
    requires Compares(cmp, ext) && forall n :: n in nodes ==> ext(n).start < TWO_31
    ensures TotalOn(cmp, nodes)
  {
    CompSound(TWO_31);
    forall a, b | a in nodes && b in nodes ensures Opposite(cmp, a, b) {}
    forall a, b, c | a in nodes && b in nodes && c in nodes ensures Transitive(cmp, a, b, c) {}
  }

  lemma SortedAscends(cmp: (nat, nat) -> int, ext: nat -> Extent, order: seq<nat>)
    requires Compares(cmp, ext) && Sorted(cmp, order) && forall n :: n in order ==> ext(n).start < TWO_31
    ensures Ascending(ExtentsOf(order, ext))
  {
  }

  lemma ExtentsOfInserted(ext: nat -> Extent, order: seq<nat>, elm: nat, i: nat)
    requires i <= |order|
    ensures ExtentsOf(order[..i] + [elm] + order[i..], ext) == ExtentsOf(order, ext)[..i] + [ext(elm)] + ExtentsOf(order, ext)[i..]
  {
  }

  lemma AscendsWithout(a: seq<Extent>, e: Extent, b: seq<Extent>)
    requires Ascending(a + [e] + b)
    ensures Ascending(a + b)
    ensures (forall j :: 0 <= j < |a| ==> a[j].start < e.start) && (forall j :: 0 <= j < |b| ==> e.start < b[j].start)
  {
    var s := a + [e] + b;
    assert s[|a|] == e;
    forall j | 0 <= j < |a| ensures a[j].start < e.start { assert s[j] == a[j]; }
    forall j | 0 <= j < |b| ensures e.start < b[j].start { assert s[|a| + 1 + j] == b[j]; }
    forall j, k | 0 <= j < k < |a + b| ensures (a + b)[j].start < (a + b)[k].start {
      assert (a + b)[j] == s[if j < |a| then j else j + 1] && (a + b)[k] == s[if k < |a| then k else k + 1];
    }
  }

  function StartAt(es: seq<Extent>, j: nat): nat {
    if j < |es| then es[j].start else 0
  }

  lemma SlotAt(es: seq<Extent>, e: Extent, i: nat)
    requires i <= |es| && Ascending(es) && e.start < TWO_31 && forall j :: 0 <= j < |es| ==> es[j].start < TWO_31
    requires (forall j :: 0 <= j < i ==> es[j].start < e.start) && (forall j :: i <= j < |es| ==> e.start < es[j].start)
    ensures InsertNode(es, e) == Some(es[..i] + [e] + es[i..])
  {
    SlotSplits(es, e.start);
    CompSound(TWO_31);
    var k := SlotFor(es, e.start);
    assert StartAt(es, k) < e.start || i <= k;
    assert e.start < StartAt(es, i) || i == |es|;
  }

  lemma SlotBetween(es: seq<Extent>, e: Extent, i: nat)
    requires i <= |es| && Ascending(es[..i] + [e] + es[i..]) && e.start < TWO_31 && forall j :: 0 <= j < |es| ==> es[j].start < TWO_31
    ensures InsertNode(es, e) == Some(es[..i] + [e] + es[i..])
  {
    hide InsertNode;
    AscendsWithout(es[..i], e, es[i..]);
    assert es[..i] + es[i..] == es;
    forall j | 0 <= j < i ensures es[j].start < e.start { assert es[..i][j] == es[j]; }
    forall j | i <= j < |es| ensures e.start < es[j].start { assert es[i..][j - i] == es[j]; }
    SlotAt(es, e, i);
  }

  /** A new node between smaller and larger ones stands where InsertNode puts its extent. */
  lemma SlotIs(cmp: (nat, nat) -> int, ext: nat -> Extent, order: seq<nat>, elm: nat, i: nat)
    requires Compares(cmp, ext) && i <= |order| && Sorted(cmp, order[..i] + [elm] + order[i..])
    requires (forall n :: n in order ==> ext(n).start < TWO_31) && ext(elm).start < TWO_31
    ensures InsertNode(ExtentsOf(order, ext), ext(elm)) == Some(ExtentsOf(order[..i] + [elm] + order[i..], ext))
  {
    SortedAscends(cmp, ext, order[..i] + [elm] + order[i..]);
    ExtentsOfInserted(ext, order, elm, i);
    SlotBetween(ExtentsOf(order, ext), ext(elm), i);
  }

  /** The same start again is found, not inserted. */
  lemma SameStart(cmp: (nat, nat) -> int, ext: nat -> Extent, order: seq<nat>, elm: nat, found: nat)
    requires Compares(cmp, ext) && Sorted(cmp, order) && found in order && cmp(elm, found) == 0
    requires (forall n :: n in order ==> ext(n).start < TWO_31) && ext(elm).start < TWO_31
    ensures InsertNode(ExtentsOf(order, ext), ext(elm)) == None
  {
    CompSound(TWO_31);
    SortedAscends(cmp, ext, order);
    var es := ExtentsOf(order, ext);
    var i :| 0 <= i < |order| && order[i] == found;
    assert es[i] in es && es[i].start == ext(elm).start;
    InsertAscends(es, ext(elm));
  }

  /** Insertion into the pointer tree is InsertNode on the sequence of extents. */
  method InsertSpare(tree: RedBlackTree, ghost ext: nat -> Extent, elm: nat) returns (found: nat)
    requires tree.Valid() && elm != 0 && elm !in tree.t.nodes && Compares(tree.cmp, ext)
    requires forall n :: n in tree.t.nodes || n == elm ==> ext(n).start < TWO_31
    modifies tree
    ensures tree.Valid()
    ensures var r := InsertNode(ExtentsOf(old(tree.Order()), ext), ext(elm));
      if found == 0 then r == Some(ExtentsOf(tree.Order(), ext)) else r.None? && tree.Order() == old(tree.Order())
  {
    SpareTotal(tree.cmp, ext, tree.t.nodes.Keys + {elm});
    ghost var order := tree.Order();
    OrderNodes(tree);
    found := tree.Insert(elm);
    if found == 0 {
      ghost var i :| 0 <= i <= |order| && tree.Order() == order[..i] + [elm] + order[i..];
      SlotIs(tree.cmp, ext, order, elm, i);
    } else {
      SameStart(tree.cmp, ext, order, elm, found);
    }
  }

  lemma ExtentsOfRemoved(cmp: (nat, nat) -> int, ext: nat -> Extent, order: seq<nat>, i: nat)
    requires Compares(cmp, ext) && Sorted(cmp, order) && i < |order| && forall n :: n in order ==> ext(n).start < TWO_31
    ensures ExtentsOf(order[..i] + order[i + 1..], ext) == Without(ExtentsOf(order, ext), Some(ext(order[i])))
  {
  }

  lemma ExtentsOfNext(cmp: (nat, nat) -> int, ext: nat -> Extent, order: seq<nat>, i: nat)
    requires Compares(cmp, ext) && Sorted(cmp, order) && i < |order| && forall n :: n in order ==> n != 0 && ext(n).start < TWO_31
    ensures var es := ExtentsOf(order, ext);
      && Find(es, ext(order[i]).start) == i
      && (i > 0 ==> order[i - 1] != 0) && (i + 1 < |order| ==> order[i + 1] != 0)
      && At(es, i - 1) == (if i == 0 then None else Some(ext(order[i - 1])))
      && At(es, i + 1) == (if i + 1 == |order| then None else Some(ext(order[i + 1])))
  {
  }

  lemma PlaceOf(tree: RedBlackTree, elm: nat)
    requires tree.Valid() && elm in tree.t.nodes
    ensures elm in tree.s.at && tree.s.at[elm].pos < |tree.Order()| && tree.Order()[tree.s.at[elm].pos] == elm
    ensures Sorted(tree.cmp, tree.Order())
  {
    NodeLinks(tree.t, tree.s, elm);
  }

  /** Removal from the pointer tree is removal from the sequence of extents. */
  method RemoveSpare(tree: RedBlackTree, ghost ext: nat -> Extent, elm: nat)
    requires tree.Valid() && elm in tree.t.nodes && Compares(tree.cmp, ext)
    requires forall n :: n in tree.t.nodes ==> ext(n).start < TWO_31
    modifies tree
    ensures tree.Valid()
    ensures ExtentsOf(tree.Order(), ext) == Without(ExtentsOf(old(tree.Order()), ext), Some(ext(elm)))
  {
    hide RedBlackTree.Valid, Without, Sorted, Compares;
    OrderNodes(tree);
    PlaceOf(tree, elm);
    ExtentsOfRemoved(tree.cmp, ext, tree.Order(), tree.s.at[elm].pos);
    var gone := tree.Remove(elm);
  }

  /** The neighbours of a node are the nodes next to its extent in the sequence. */
  method NeighbourSpare(tree: RedBlackTree, ghost ext: nat -> Extent, elm: nat, d: Side) returns (m: nat)
    requires tree.Valid() && elm in tree.t.nodes && Compares(tree.cmp, ext)
    requires forall n :: n in tree.t.nodes ==> ext(n).start < TWO_31
    ensures var es := ExtentsOf(tree.Order(), ext);
      var i := Find(es, ext(elm).start);
      At(es, if d == Left then i - 1 else i + 1) == if m == 0 then None else Some(ext(m))
  {
    hide RedBlackTree.Valid, Sorted, Compares, At;
    OrderNodes(tree);
    PlaceOf(tree, elm);
    ExtentsOfNext(tree.cmp, ext, tree.Order(), tree.s.at[elm].pos);
    m := tree.Neighbour(elm, d);
  }

  lemma OrderNodes(tree: RedBlackTree)
    requires tree.Valid()
    ensures forall n :: n in tree.Order() ==> n in tree.t.nodes && n != 0
  {
  }
}
