/** The pointer surgery of insertion and removal (include/tree.h), without colours. */
module TreeEdits {
  import opened LinkedTree

  // ---------------------------------------------------------------- neighbours in the sequence

  /** What stands just before a subtree is an ancestor whose own subtree reaches as far. */
  lemma {:induction false} Predecessor(t: Tree, s: Spans, n: nat)
    requires Linked(t, s) && n in t.nodes && n in s.at && s.at[n].lo > 0
    ensures s.at[n].lo <= |s.order|
    ensures var q := s.order[s.at[n].lo - 1]; q in t.nodes && q in s.at && s.at[n].hi <= s.at[q].hi
    decreases |s.order| - (s.at[n].hi - s.at[n].lo)
  {
    assert NodeOK(t, s, n);
    var p := t.nodes[n].parent;
    assert NodeOK(t, s, p);
    if t.nodes[p].left == n { Predecessor(t, s, p); }
  }

  lemma {:induction false} Successor(t: Tree, s: Spans, n: nat)
    requires Linked(t, s) && n in t.nodes && n in s.at && s.at[n].hi < |s.order|
    ensures var q := s.order[s.at[n].hi]; q in t.nodes && q in s.at && s.at[q].lo <= s.at[n].lo
    decreases |s.order| - (s.at[n].hi - s.at[n].lo)
  {
    assert NodeOK(t, s, n);
    var p := t.nodes[n].parent;
    assert NodeOK(t, s, p);
    if t.nodes[p].right == n { Successor(t, s, p); }
  }

  // ---------------------------------------------------------------- a new leaf

  function One(b: bool): nat { if b then 1 else 0 }

  /** Make room for one element at i. */
  function Widened(a: Span, i: nat): Span {
    Span(a.lo + One(a.lo > i), a.pos + One(a.pos >= i), a.hi + One(a.hi >= i))
  }

  function LeafSpans(s: Spans, i: nat, e: nat): Spans
    requires i <= |s.order|
  {
    Spans(s.order[..i] + [e] + s.order[i..],
          (map n | n in s.at :: Widened(s.at[n], i))[e := Span(i, i, i + 1)])
  }

  /** RB_SET and the link to the parent; p is 0 for an empty tree. */
  function AddLeaf(t: Tree, p: nat, d: Side, e: nat): Tree
    requires p == 0 || p in t.nodes
  {
    var t1 := t.(nodes := t.nodes[e := Node(0, 0, p, true)]);
    if p == 0 then t1.(root := e) else SetKid(t1, p, d, e)
  }

  /** Position of a new leaf on side d of p. */
  function Gap(s: Spans, p: nat, d: Side): nat {
    if p == 0 || p !in s.at then 0 else if d == Left then s.at[p].pos else s.at[p].pos + 1
  }

  ghost predicate LeafFits(t: Tree, s: Spans, p: nat, d: Side, e: nat) {
    && Linked(t, s) && e != 0 && e !in t.nodes && e !in s.at
    && if p == 0 then t.root == 0 else p in t.nodes && p in s.at && Kid(t.nodes[p], d) == 0
  }

  /** The gap lies inside no subtree but those that contain the parent. */
  lemma GapAlone(t: Tree, s: Spans, p: nat, d: Side, e: nat, n: nat)
    requires LeafFits(t, s, p, d, e) && p != 0 && n in t.nodes && n in s.at && n != p
    ensures var i := Gap(s, p, d);
      i <= |s.order| && !(s.at[n].lo == s.at[n].pos == i) && !(s.at[n].pos + 1 == s.at[n].hi == i)
  {
    assert NodeOK(t, s, p) && NodeOK(t, s, n);
    if d == Left { if s.at[p].lo > 0 { Predecessor(t, s, p); } }
    else { if s.at[p].hi < |s.order| { Successor(t, s, p); } }
  }

  lemma AddLeafNode(t: Tree, s: Spans, p: nat, d: Side, e: nat, n: nat)
    requires LeafFits(t, s, p, d, e) && p != 0 && n != e && n != p && Gap(s, p, d) <= |s.order|
    ensures NodeOK(AddLeaf(t, p, d, e), LeafSpans(s, Gap(s, p, d), e), n)
  {
    if n in t.nodes {
      assert NodeOK(t, s, n);
      GapAlone(t, s, p, d, e, n);
      var t', s', i := AddLeaf(t, p, d, e), LeafSpans(s, Gap(s, p, d), e), Gap(s, p, d);
      assert s'.at[n] == Widened(s.at[n], i);
      assert s'.order[s'.at[n].pos] == n;
      assert KidOK(t', s', n, Left);
      assert KidOK(t', s', n, Right);
    }
  }

  lemma AddLeafParent(t: Tree, s: Spans, p: nat, d: Side, e: nat)
    requires LeafFits(t, s, p, d, e) && p != 0 && Gap(s, p, d) <= |s.order|
    ensures NodeOK(AddLeaf(t, p, d, e), LeafSpans(s, Gap(s, p, d), e), p)
    ensures NodeOK(AddLeaf(t, p, d, e), LeafSpans(s, Gap(s, p, d), e), e)
  {
    assert NodeOK(t, s, p);
    var t', s', i := AddLeaf(t, p, d, e), LeafSpans(s, Gap(s, p, d), e), Gap(s, p, d);
    assert s'.at[p] == Widened(s.at[p], i) && s'.at[e] == Span(i, i, i + 1);
    assert s'.order[s'.at[p].pos] == p && s'.order[i] == e;
    assert KidOK(t', s', p, Left);
    assert KidOK(t', s', p, Right);
  }

  lemma AddLeafOrder(t: Tree, s: Spans, p: nat, d: Side, e: nat, j: nat)
    requires LeafFits(t, s, p, d, e) && Gap(s, p, d) <= |s.order|
    requires j <= |s.order|
    ensures var t', s' := AddLeaf(t, p, d, e), LeafSpans(s, Gap(s, p, d), e);
      s'.order[j] in t'.nodes && s'.order[j] in s'.at && s'.at[s'.order[j]].pos == j
  {
  }

  /** A new leaf takes its place in the sequence. */
  lemma AddLeafLinked(t: Tree, s: Spans, p: nat, d: Side, e: nat)
    requires LeafFits(t, s, p, d, e)
    ensures Gap(s, p, d) <= |s.order|
    ensures Linked(AddLeaf(t, p, d, e), LeafSpans(s, Gap(s, p, d), e))
  {
    var t' := AddLeaf(t, p, d, e);
    assert p != 0 ==> NodeOK(t, s, p);
    var s' := LeafSpans(s, Gap(s, p, d), e);
    forall n ensures NodeOK(t', s', n) {
      if p == 0 {
        assert NodeOK(t, s, n);
      } else if n == p || n == e {
        AddLeafParent(t, s, p, d, e);
      } else {
        AddLeafNode(t, s, p, d, e, n);
      }
    }
    forall j | 0 <= j < |s'.order| ensures s'.order[j] in t'.nodes && s'.order[j] in s'.at && s'.at[s'.order[j]].pos == j {
      AddLeafOrder(t, s, p, d, e, j);
    }
  }

  // ---------------------------------------------------------------- taking out a node

  /** Take away the element at k. */
  function Narrowed(a: Span, k: nat): Span {
    Span(a.lo - One(a.lo > k), a.pos - One(a.pos > k), a.hi - One(a.hi > k))
  }

  function CutSpans(s: Spans, y: nat): Spans
    requires y in s.at && s.at[y].pos < |s.order|
  {
    var k := s.at[y].pos;
    Spans(s.order[..k] + s.order[k + 1..], map n | n in s.at && n != y :: Narrowed(s.at[n], k))
  }

  /** Replace a node by its only kid, if any. */
  function Splice(t: Tree, y: nat, child: nat): Tree
    requires y in t.nodes && (child == 0 || child in t.nodes)
    requires t.nodes[y].parent == 0 || t.nodes[y].parent in t.nodes
  {
    var p := t.nodes[y].parent;
    var t1 := if child != 0 then SetParent(t, child, p) else t;
    var t2 := Replant(t1, p, y, child);
    t2.(nodes := t2.nodes - {y})
  }

  /** y has no kid besides child. */
  ghost predicate OneKid(t: Tree, s: Spans, y: nat, child: nat) {
    && Linked(t, s) && y in t.nodes && y in s.at && s.at[y].pos < |s.order|
    && ((t.nodes[y].left == 0 && t.nodes[y].right == child) || (t.nodes[y].right == 0 && t.nodes[y].left == child))
    && (child == 0 || (child in t.nodes && child in s.at)) && (t.nodes[y].parent == 0 || t.nodes[y].parent in t.nodes)
  }

  lemma OneKidApart(t: Tree, s: Spans, y: nat, child: nat)
    requires OneKid(t, s, y, child)
    ensures var p := t.nodes[y].parent; child != y && p != y && (child == p ==> p == 0)
    ensures var p := t.nodes[y].parent; p != 0 ==> t.nodes[p].left == y || t.nodes[p].right == y
    ensures var p := t.nodes[y].parent; p != 0 ==> t.nodes[p].left != t.nodes[p].right
    ensures child != 0 ==> t.nodes[child].parent == y && (s.at[child].lo, s.at[child].hi) == Part(s.at[y], if t.nodes[y].left == child then Left else Right)
    ensures 0 !in t.nodes && y != 0
  {
    assert NodeOK(t, s, y) && NodeOK(t, s, child) && NodeOK(t, s, t.nodes[y].parent);
  }

  lemma SpliceFields(t: Tree, s: Spans, y: nat, child: nat)
    requires OneKid(t, s, y, child)
    ensures var t', p := Splice(t, y, child), t.nodes[y].parent;
      && t'.nodes.Keys == t.nodes.Keys - {y} && t'.root == (if p == 0 then child else t.root)
      && (child != 0 ==> child in t'.nodes && t'.nodes[child] == t.nodes[child].(parent := p))
      && (p != 0 ==> p in t'.nodes && t'.nodes[p] == if t.nodes[p].left == y then t.nodes[p].(left := child) else t.nodes[p].(right := child))
      && (forall n :: n in t.nodes && n != y && n != child && n != p ==> t'.nodes[n] == t.nodes[n])
  {
    OneKidApart(t, s, y, child);
  }

  function Shift(x: nat, k: nat): nat { x - One(x > k) }

  lemma NarrowEnds(a: Span, k: nat)
    ensures Narrowed(a, k).lo == Shift(a.lo, k) && Narrowed(a, k).hi == Shift(a.hi, k)
  {
  }

  lemma NarrowPart(a: Span, k: nat, d: Side)
    requires a.pos != k
    ensures Part(Narrowed(a, k), d).0 == Shift(Part(a, d).0, k) && Part(Narrowed(a, k), d).1 == Shift(Part(a, d).1, k)
  {
    match d
    case Left => assert Part(Narrowed(a, k), Left) == (Shift(a.lo, k), Shift(a.pos, k));
    case Right => assert Narrowed(a, k).pos + 1 == Shift(a.pos + 1, k);
  }

  lemma CutAt(s: Spans, y: nat, n: nat)
    requires y in s.at && s.at[y].pos < |s.order| && n in s.at && n != y
    ensures n in CutSpans(s, y).at && CutSpans(s, y).at[n] == Narrowed(s.at[n], s.at[y].pos)
  {
  }

  /** The link to a kid other than y stays. */
  lemma SpliceLink(t: Tree, s: Spans, y: nat, child: nat, n: nat, d: Side)
    requires OneKid(t, s, y, child) && n != y && n in t.nodes && n in s.at && Kid(t.nodes[n], d) != y
    ensures var t', z, ends := Splice(t, y, child), Kid(t.nodes[n], d), Part(s.at[n], d);
      && n in t'.nodes && Kid(t'.nodes[n], d) == z && s.at[n].pos != s.at[y].pos
      && if ends.0 == ends.1 then z == 0
         else z in t'.nodes && t'.nodes[z].parent == n && z in t.nodes && z in s.at && (s.at[z].lo, s.at[z].hi) == ends
  {
    SpliceFields(t, s, y, child);
    OneKidApart(t, s, y, child);
    assert NodeOK(t, s, n) && NodeOK(t, s, y);
    assert KidOK(t, s, n, d);
    hide Splice, Linked;
  }

  lemma SpliceKid(t: Tree, s: Spans, y: nat, child: nat, n: nat, d: Side)
    requires OneKid(t, s, y, child) && n != y && n in t.nodes && n in s.at && Kid(t.nodes[n], d) != y
    ensures n in Splice(t, y, child).nodes && n in CutSpans(s, y).at && KidOK(Splice(t, y, child), CutSpans(s, y), n, d)
  {
    hide Splice, Linked, CutSpans, NodeOK, Narrowed;
    var z, k := Kid(t.nodes[n], d), s.at[y].pos;
    SpliceLink(t, s, y, child, n, d);
    CutAt(s, y, n);
    NarrowPart(s.at[n], k, d);
    if z in t.nodes && z in s.at {
      CutAt(s, y, z);
      SpliceNonEmpty(t, s, y, z);
      NarrowEnds(s.at[z], k);
    }
  }

  lemma SpliceNonEmpty(t: Tree, s: Spans, y: nat, z: nat)
    requires Linked(t, s) && y in t.nodes && z in t.nodes && z != y
    ensures y in s.at && z in s.at && Shift(s.at[z].lo, s.at[y].pos) != Shift(s.at[z].hi, s.at[y].pos)
  {
    assert NodeOK(t, s, y) && NodeOK(t, s, z);
  }

  lemma Assemble(t: Tree, s: Spans, n: nat)
    requires n in t.nodes && n in s.at
    requires s.at[n].lo <= s.at[n].pos < s.at[n].hi <= |s.order| && s.order[s.at[n].pos] == n
    requires KidOK(t, s, n, Left) && KidOK(t, s, n, Right) && ParentOK(t, s, n)
    ensures NodeOK(t, s, n)
  {
  }

  lemma SpliceUp(t: Tree, s: Spans, y: nat, child: nat, n: nat)
    requires OneKid(t, s, y, child) && n != y && n in t.nodes && n in s.at
    ensures n in Splice(t, y, child).nodes && n in CutSpans(s, y).at && ParentOK(Splice(t, y, child), CutSpans(s, y), n)
  {
    SpliceFields(t, s, y, child);
    OneKidApart(t, s, y, child);
    assert NodeOK(t, s, n) && NodeOK(t, s, y);
    hide Splice, Linked;
    CutAt(s, y, n);
  }

  lemma SpliceOther(t: Tree, s: Spans, y: nat, child: nat, n: nat)
    requires OneKid(t, s, y, child) && n != y && n != child && n != t.nodes[y].parent
    ensures NodeOK(Splice(t, y, child), CutSpans(s, y), n)
  {
    SpliceFields(t, s, y, child);
    OneKidApart(t, s, y, child);
    if n in t.nodes {
      assert NodeOK(t, s, n) && NodeOK(t, s, y);
      SplicePlace(t, s, y, child, n);
      assert t.nodes[n].left != y && t.nodes[n].right != y;
      SpliceKid(t, s, y, child, n, Left);
      SpliceKid(t, s, y, child, n, Right);
      SpliceUp(t, s, y, child, n);
      Assemble(Splice(t, y, child), CutSpans(s, y), n);
    }
  }

  lemma CutOrder(s: Spans, y: nat, i: nat)
    requires y in s.at && s.at[y].pos < |s.order| && i < |s.order| && i != s.at[y].pos
    ensures var k, order := s.at[y].pos, CutSpans(s, y).order;
      |order| == |s.order| - 1 && order[if i < k then i else i - 1] == s.order[i]
  {
  }

  lemma NarrowSpan(a: Span, k: nat, n: nat)
    requires a.lo <= a.pos < a.hi <= n && k < n && a.pos != k
    ensures Narrowed(a, k).lo <= Narrowed(a, k).pos < Narrowed(a, k).hi <= n - 1
    ensures Narrowed(a, k).pos == if a.pos < k then a.pos else a.pos - 1
  {
  }

  lemma SplicePlace(t: Tree, s: Spans, y: nat, child: nat, n: nat)
    requires OneKid(t, s, y, child) && n != y && n in t.nodes && n in s.at
    ensures var s' := CutSpans(s, y);
      n in s'.at && s'.at[n].lo <= s'.at[n].pos < s'.at[n].hi <= |s'.order| && s'.order[s'.at[n].pos] == n
  {
    hide CutSpans, Narrowed, KidOK, ParentOK, Part;
    assert NodeOK(t, s, n) && NodeOK(t, s, y);
    CutAt(s, y, n);
    CutOrder(s, y, s.at[n].pos);
    NarrowSpan(s.at[n], s.at[y].pos, |s.order|);
  }

  lemma SpliceParent(t: Tree, s: Spans, y: nat, child: nat)
    requires OneKid(t, s, y, child)
    ensures NodeOK(Splice(t, y, child), CutSpans(s, y), t.nodes[y].parent)
  {
    SpliceFields(t, s, y, child);
    OneKidApart(t, s, y, child);
    var p := t.nodes[y].parent;
    if p != 0 {
      assert NodeOK(t, s, p) && NodeOK(t, s, y);
      SplicePlace(t, s, y, child, p);
      var d := if t.nodes[p].left == y then Left else Right;
      SpliceParentKid(t, s, y, child, d);
      SpliceKid(t, s, y, child, p, Opp(d));
      SpliceUp(t, s, y, child, p);
      Assemble(Splice(t, y, child), CutSpans(s, y), p);
    }
  }

  lemma SpliceParentKid(t: Tree, s: Spans, y: nat, child: nat, d: Side)
    requires OneKid(t, s, y, child) && t.nodes[y].parent != 0 && t.nodes[y].parent in s.at
    requires Kid(t.nodes[t.nodes[y].parent], d) == y
    ensures var p := t.nodes[y].parent;
      p in Splice(t, y, child).nodes && p in CutSpans(s, y).at && KidOK(Splice(t, y, child), CutSpans(s, y), p, d)
  {
    hide Splice, CutSpans, Narrowed, ParentOK;
    var p, k := t.nodes[y].parent, s.at[y].pos;
    SpliceFields(t, s, y, child);
    OneKidApart(t, s, y, child);
    assert NodeOK(t, s, p) && NodeOK(t, s, y);
    assert KidOK(t, s, p, d) && KidOK(t, s, y, Left) && KidOK(t, s, y, Right);
    CutAt(s, y, p);
    NarrowPart(s.at[p], k, d);
    if child != 0 {
      SpliceNonEmpty(t, s, y, child);
      CutAt(s, y, child);
      NarrowEnds(s.at[child], k);
    }
  }

  lemma SpliceChild(t: Tree, s: Spans, y: nat, child: nat)
    requires OneKid(t, s, y, child)
    ensures NodeOK(Splice(t, y, child), CutSpans(s, y), child)
  {
    SpliceFields(t, s, y, child);
    OneKidApart(t, s, y, child);
    if child != 0 {
      assert NodeOK(t, s, y) && NodeOK(t, s, child);
      SplicePlace(t, s, y, child, child);
      SpliceKid(t, s, y, child, child, Left);
      SpliceKid(t, s, y, child, child, Right);
      SpliceUp(t, s, y, child, child);
      Assemble(Splice(t, y, child), CutSpans(s, y), child);
    }
  }

  lemma SpliceOrder(t: Tree, s: Spans, y: nat, child: nat, j: nat)
    requires OneKid(t, s, y, child) && j < |s.order| - 1
    ensures var t', s' := Splice(t, y, child), CutSpans(s, y);
      s'.order[j] in t'.nodes && s'.order[j] in s'.at && s'.at[s'.order[j]].pos == j
  {
  }

  lemma SpliceRoot(t: Tree, s: Spans, y: nat, child: nat)
    requires OneKid(t, s, y, child)
    ensures var t', s' := Splice(t, y, child), CutSpans(s, y);
      (t'.root == 0 <==> s'.order == []) && (t'.root != 0 ==> t'.root in t'.nodes && t'.nodes[t'.root].parent == 0)
  {
    SpliceFields(t, s, y, child);
    OneKidApart(t, s, y, child);
    hide Splice;
    var p := t.nodes[y].parent;
    assert NodeOK(t, s, y) && NodeOK(t, s, p);
    if p == 0 {
      assert child == 0 <==> |s.order| == 1;
    } else {
      assert s.at[p].pos != s.at[y].pos && t.root != child;
    }
  }

  /** Taking out a node with at most one kid takes it out of the sequence. */
  lemma SpliceLinked(t: Tree, s: Spans, y: nat, child: nat)
    requires OneKid(t, s, y, child)
    ensures Linked(Splice(t, y, child), CutSpans(s, y))
  {
    hide Splice;
    SpliceFields(t, s, y, child);
    OneKidApart(t, s, y, child);
    var t', s' := Splice(t, y, child), CutSpans(s, y);
    assert NodeOK(t, s, y) && NodeOK(t, s, child);
    forall n ensures NodeOK(t', s', n) {
      if n == child { SpliceChild(t, s, y, child); }
      else if n == t.nodes[y].parent { SpliceParent(t, s, y, child); }
      else if n != y { SpliceOther(t, s, y, child, n); }
    }
    SpliceRoot(t, s, y, child);
    forall j | 0 <= j < |s'.order| ensures s'.order[j] in t'.nodes && s'.order[j] in s'.at && s'.at[s'.order[j]].pos == j {
      SpliceOrder(t, s, y, child, j);
    }
  }

  // ---------------------------------------------------------------- one node in the place of another

  function Renamed(n: nat, o: nat, y: nat): nat { if n == o then y else n }

  function RenamedSpans(s: Spans, o: nat, y: nat): Spans
    requires o in s.at && s.at[o].pos < |s.order|
  {
    Spans(s.order[s.at[o].pos := y], (s.at - {o})[y := s.at[o]])
  }

  /** Copy all links and the colour of o into y, and turn the links to o towards y. */
  function Substitute(t: Tree, o: nat, y: nat): Tree
    requires o in t.nodes && (t.nodes[o].parent == 0 || t.nodes[o].parent in t.nodes)
    requires (t.nodes[o].left == 0 || t.nodes[o].left in t.nodes) && (t.nodes[o].right == 0 || t.nodes[o].right in t.nodes)
  {
    var x := t.nodes[o];
    var t1 := t.(nodes := t.nodes[y := x]);
    var t2 := Replant(t1, x.parent, o, y);
    var t3 := if x.left != 0 then SetParent(t2, x.left, y) else t2;
    var t4 := if x.right != 0 then SetParent(t3, x.right, y) else t3;
    t4.(nodes := t4.nodes - {o})
  }

  ghost predicate CanSubstitute(t: Tree, s: Spans, o: nat, y: nat) {
    && Linked(t, s) && o in t.nodes && o in s.at && s.at[o].pos < |s.order| && y != 0 && y !in t.nodes && y !in s.at
    && (t.nodes[o].parent == 0 || t.nodes[o].parent in t.nodes)
    && (t.nodes[o].left == 0 || t.nodes[o].left in t.nodes) && (t.nodes[o].right == 0 || t.nodes[o].right in t.nodes)
  }

  lemma SubstituteReady(t: Tree, s: Spans, o: nat, y: nat)
    requires Linked(t, s) && o in t.nodes && y != 0 && y !in t.nodes && y !in s.at
    ensures CanSubstitute(t, s, o, y)
  {
    assert NodeOK(t, s, o);
  }

  function RenamedNode(x: Node, o: nat, y: nat): Node {
    Node(Renamed(x.left, o, y), Renamed(x.right, o, y), Renamed(x.parent, o, y), x.red)
  }

  /** The tree as it was, with o called y. */
  lemma SubstituteFields(t: Tree, s: Spans, o: nat, y: nat, n: nat)
    requires CanSubstitute(t, s, o, y)
    ensures var t' := Substitute(t, o, y);
      && t'.nodes.Keys == t.nodes.Keys - {o} + {y} && t'.root == Renamed(t.root, o, y)
      && (n in t.nodes ==> t'.nodes[Renamed(n, o, y)] == RenamedNode(t.nodes[n], o, y))
  {
    SubstituteLinks(t, s, o);
    if n in t.nodes && n != o { SubstituteOther(t, s, o, y, n); }
    hide Linked;
  }

  lemma SubstituteLinks(t: Tree, s: Spans, o: nat)
    requires Linked(t, s) && o in t.nodes
    ensures var x := t.nodes[o];
      && (x.parent == 0 ==> t.root == o) && o != 0 && x.left != o && x.right != o && x.parent != o
      && (x.left == x.right ==> x.left == 0) && (x.left == x.parent ==> x.left == 0) && (x.right == x.parent ==> x.right == 0)
      && (x.parent in t.nodes ==> t.nodes[x.parent].left == o || t.nodes[x.parent].right == o)
      && (x.parent != 0 ==> t.root != o)
  {
    var x := t.nodes[o];
    assert NodeOK(t, s, o) && NodeOK(t, s, x.left) && NodeOK(t, s, x.right) && NodeOK(t, s, x.parent);
  }

  lemma SubstituteOther(t: Tree, s: Spans, o: nat, y: nat, n: nat)
    requires CanSubstitute(t, s, o, y) && n in t.nodes && n != o
    ensures n in Substitute(t, o, y).nodes && Substitute(t, o, y).nodes[n] == RenamedNode(t.nodes[n], o, y)
  {
    var x := t.nodes[o];
    assert NodeOK(t, s, o) && NodeOK(t, s, n);
    assert n == x.left || n == x.right <==> t.nodes[n].parent == o;
    assert n == x.parent <==> t.nodes[n].left == o || t.nodes[n].right == o;
    assert t.nodes[n].left == t.nodes[n].right ==> t.nodes[n].left == 0;
  }

  lemma SubstituteNode(t: Tree, s: Spans, o: nat, y: nat, n: nat)
    requires CanSubstitute(t, s, o, y) && n in t.nodes
    ensures NodeOK(Substitute(t, o, y), RenamedSpans(s, o, y), Renamed(n, o, y))
  {
    assert NodeOK(t, s, n) && NodeOK(t, s, o);
    var x := t.nodes[n];
    SubstituteFields(t, s, o, y, n);
    SubstituteFields(t, s, o, y, x.left);
    SubstituteFields(t, s, o, y, x.right);
    SubstituteFields(t, s, o, y, x.parent);
    hide Substitute, Linked;
    var t', s', m := Substitute(t, o, y), RenamedSpans(s, o, y), Renamed(n, o, y);
    assert s'.at[m] == s.at[n];
    assert KidOK(t', s', m, Left);
    assert KidOK(t', s', m, Right);
    assert ParentOK(t', s', m);
  }

  /** The new node stands in the sequence where the old one stood. */
  lemma SubstituteLinked(t: Tree, s: Spans, o: nat, y: nat)
    requires CanSubstitute(t, s, o, y)
    ensures Linked(Substitute(t, o, y), RenamedSpans(s, o, y))
  {
    var t', s' := Substitute(t, o, y), RenamedSpans(s, o, y);
    SubstituteFields(t, s, o, y, o);
    SubstituteFields(t, s, o, y, t.root);
    forall m ensures NodeOK(t', s', m) {
      if m in t'.nodes {
        var n := if m == y then o else m;
        SubstituteNode(t, s, o, y, n);
      }
    }
    hide Substitute;
    forall j | 0 <= j < |s'.order| ensures s'.order[j] in t'.nodes && s'.order[j] in s'.at && s'.at[s'.order[j]].pos == j {
      assert NodeOK(t, s, o);
    }
  }
}
