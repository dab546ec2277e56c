/** The colours of the red-black tree (include/tree.h): what they promise, and how the
    recolouring steps of insertion and removal restore it. */
module Recolour {
  import opened LinkedTree
  import opened TreeEdits

  predicate IsRed(t: Tree, n: nat) {
    n in t.nodes && t.nodes[n].red
  }

  /** Black nodes from n down to a leaf. */
  function Black(bh: map<nat, nat>, n: nat): nat {
    if n != 0 && n in bh then bh[n] else 0
  }

  function Weight(t: Tree, n: nat): nat {
    if IsRed(t, n) then 0 else 1
  }

  /** Both kids have the same number of black nodes below, and n adds itself. */
  predicate LevelOK(t: Tree, bh: map<nat, nat>, n: nat) {
    n in t.nodes ==>
      && Black(bh, t.nodes[n].left) == Black(bh, t.nodes[n].right)
      && Black(bh, n) == Black(bh, t.nodes[n].left) + Weight(t, n)
  }

  /** No red kid of a red node; the edge to exc does not count. */
  predicate EdgeOK(t: Tree, n: nat, exc: nat) {
    IsRed(t, n) ==>
      && (IsRed(t, t.nodes[n].left) ==> t.nodes[n].left == exc)
      && (IsRed(t, t.nodes[n].right) ==> t.nodes[n].right == exc)
  }

  ghost predicate Levels(t: Tree, bh: map<nat, nat>) {
    forall n {:trigger LevelOK(t, bh, n)} :: LevelOK(t, bh, n)
  }

  ghost predicate Edges(t: Tree, exc: nat) {
    forall n {:trigger EdgeOK(t, n, exc)} :: EdgeOK(t, n, exc)
  }

  /** The conditions of a red-black tree. */
  ghost predicate Balanced(t: Tree, bh: map<nat, nat>) {
    Levels(t, bh) && Edges(t, 0) && !IsRed(t, t.root)
  }

  /** Colours play no part in the links. */
  lemma ColourLinked(t: Tree, s: Spans, n: nat, red: bool)
    requires Linked(t, s) && n in t.nodes
    ensures Linked(SetRed(t, n, red), s)
  {
    var t' := SetRed(t, n, red);
    forall m ensures NodeOK(t', s, m) { assert NodeOK(t, s, m); }
  }

  // ---------------------------------------------------------------- insertion

  /** elm is red, and the edge to it is the only one that may join two red nodes. */
  ghost predicate Inserting(t: Tree, s: Spans, bh: map<nat, nat>, elm: nat) {
    && Linked(t, s) && IsRed(t, elm) && Levels(t, bh) && Edges(t, elm)
    && t.root in t.nodes && (t.root == elm || !IsRed(t, t.root))
  }

  /** A red parent of elm has a black parent of its own. */
  lemma Grandparent(t: Tree, s: Spans, bh: map<nat, nat>, elm: nat)
    requires Inserting(t, s, bh, elm) && IsRed(t, t.nodes[elm].parent)
    ensures var p := t.nodes[elm].parent; var g := t.nodes[p].parent;
      && g in t.nodes && !IsRed(t, g) && (t.nodes[g].left == p || t.nodes[g].right == p) && t.nodes[g].left != t.nodes[g].right
      && (t.nodes[p].left == elm || t.nodes[p].right == elm) && t.nodes[p].left != t.nodes[p].right
      && elm != p && elm != g && p != g && p != 0 && g != 0 && !IsRed(t, 0)
  {
    var p := t.nodes[elm].parent;
    var g := t.nodes[p].parent;
    assert NodeOK(t, s, elm) && NodeOK(t, s, p) && NodeOK(t, s, g);
    assert EdgeOK(t, g, elm);
  }

  /** The uncle is red: parent and uncle turn black, the grandparent red. */
  function Lift(t: Tree, p: nat, u: nat, g: nat): Tree
    requires p in t.nodes && u in t.nodes && g in t.nodes
  {
    SetRed(SetRed(SetRed(t, u, false), p, false), g, true)
  }

  /** The kids of a node know it as their parent. */
  lemma KidsOf(t: Tree, s: Spans, n: nat)
    requires Linked(t, s) && n in t.nodes
    ensures forall d :: Kid(t.nodes[n], d) != 0 ==> Kid(t.nodes[n], d) in t.nodes && t.nodes[Kid(t.nodes[n], d)].parent == n
    ensures t.nodes[n].left == t.nodes[n].right ==> t.nodes[n].left == 0
    ensures t.nodes[n].left != 0 ==> t.nodes[n].left in t.nodes && t.nodes[t.nodes[n].left].parent == n
    ensures t.nodes[n].right != 0 ==> t.nodes[n].right in t.nodes && t.nodes[t.nodes[n].right].parent == n
  {
    assert NodeOK(t, s, n);
  }

  ghost predicate UncleRed(t: Tree, s: Spans, bh: map<nat, nat>, elm: nat, p: nat, u: nat, g: nat, d: Side) {
    && Inserting(t, s, bh, elm) && p == t.nodes[elm].parent && IsRed(t, p) && g == t.nodes[p].parent
    && g in t.nodes && p == Kid(t.nodes[g], d) && u == Kid(t.nodes[g], Opp(d)) && IsRed(t, u)
  }

  lemma LiftLevel(t: Tree, s: Spans, bh: map<nat, nat>, elm: nat, p: nat, u: nat, g: nat, d: Side, n: nat)
    requires UncleRed(t, s, bh, elm, p, u, g, d)
    ensures LevelOK(Lift(t, p, u, g), bh[p := Black(bh, p) + 1][u := Black(bh, u) + 1], n)
  {
    Grandparent(t, s, bh, elm);
    if n in t.nodes {
      KidsOf(t, s, n);
      KidsOf(t, s, g);
      assert LevelOK(t, bh, n);
    }
  }

  lemma LiftEdge(t: Tree, s: Spans, bh: map<nat, nat>, elm: nat, p: nat, u: nat, g: nat, d: Side, n: nat)
    requires UncleRed(t, s, bh, elm, p, u, g, d)
    ensures EdgeOK(Lift(t, p, u, g), n, g)
  {
    Grandparent(t, s, bh, elm);
    if n in t.nodes {
      KidsOf(t, s, n);
      KidsOf(t, s, g);
      assert EdgeOK(t, n, elm);
    }
  }

  lemma LiftInserting(t: Tree, s: Spans, bh: map<nat, nat>, elm: nat, p: nat, u: nat, g: nat, d: Side)
    requires UncleRed(t, s, bh, elm, p, u, g, d)
    ensures Inserting(Lift(t, p, u, g), s, bh[p := Black(bh, p) + 1][u := Black(bh, u) + 1], g)
  {
    Grandparent(t, s, bh, elm);
    var t', bh' := Lift(t, p, u, g), bh[p := Black(bh, p) + 1][u := Black(bh, u) + 1];
    ColourLinked(t, s, u, false);
    ColourLinked(SetRed(t, u, false), s, p, false);
    ColourLinked(SetRed(SetRed(t, u, false), p, false), s, g, true);
    forall n ensures LevelOK(t', bh', n) { LiftLevel(t, s, bh, elm, p, u, g, d, n); }
    forall n ensures EdgeOK(t', n, g) { LiftEdge(t, s, bh, elm, p, u, g, d, n); }
  }

  /** The uncle is black and elm hangs on the inner side: rotating the parent moves the parent
      below elm, on the outer side. */
  ghost predicate Inner(t: Tree, s: Spans, bh: map<nat, nat>, elm: nat, p: nat, g: nat, d: Side) {
    && Inserting(t, s, bh, elm) && p == t.nodes[elm].parent && IsRed(t, p) && g == t.nodes[p].parent
    && g in t.nodes && p == Kid(t.nodes[g], d) && elm == Kid(t.nodes[p], Opp(d))
  }

  lemma InnerTouched(t: Tree, s: Spans, bh: map<nat, nat>, elm: nat, p: nat, g: nat, d: Side) returns (b: nat)
    requires Inner(t, s, bh, elm, p, g, d)
    ensures Touched(t, s, p, d, elm, b, g) && CanRotate(t, p, d) && b == Kid(t.nodes[elm], d) && b != elm && b != p && (b == g ==> b == 0)
  {
    RotateReady(t, s, p, d);
    b := Kid(t.nodes[elm], d);
    KidsOf(t, s, elm);
    Distinct(t, s, p, d, elm, b, g);
  }

  lemma InnerNode(t: Tree, s: Spans, bh: map<nat, nat>, elm: nat, p: nat, g: nat, d: Side, n: nat)
    requires Inner(t, s, bh, elm, p, g, d) && CanRotate(t, p, d)
    ensures LevelOK(Rotate(t, p, d), bh, n) && EdgeOK(Rotate(t, p, d), n, p)
  {
    hide Rotate, CanRotate;
    var b := InnerTouched(t, s, bh, elm, p, g, d);
    Grandparent(t, s, bh, elm);
    RotateFields(t, s, p, d, elm, b, g);
    if n in t.nodes {
      KidsOf(t, s, n);
      KidsOf(t, s, p);
      KidsOf(t, s, elm);
      assert LevelOK(t, bh, n) && EdgeOK(t, n, elm);
      assert LevelOK(t, bh, p) && EdgeOK(t, p, elm);
      assert LevelOK(t, bh, elm) && EdgeOK(t, elm, elm);
    }
  }

  lemma InnerInserting(t: Tree, s: Spans, bh: map<nat, nat>, elm: nat, p: nat, g: nat, d: Side) returns (s': Spans)
    requires Inner(t, s, bh, elm, p, g, d)
    ensures CanRotate(t, p, d)
    ensures var t' := Rotate(t, p, d);
      && Inserting(t', s', bh, p) && s'.order == s.order && t'.nodes.Keys == t.nodes.Keys
      && t'.nodes[p].parent == elm && IsRed(t', elm) && t'.nodes[elm].parent == g && Kid(t'.nodes[elm], d) == p
      && Kid(t'.nodes[g], d) == elm && Kid(t'.nodes[g], Opp(d)) == Kid(t.nodes[g], Opp(d))
      && forall n :: IsRed(t', n) <==> IsRed(t, n)
  {
    hide Rotate;
    var b := InnerTouched(t, s, bh, elm, p, g, d);
    Grandparent(t, s, bh, elm);
    RotateFields(t, s, p, d, elm, b, g);
    RotateLinked(t, s, p, d);
    s' := RotatedSpans(s, p, elm, d);
    var t' := Rotate(t, p, d);
    forall n ensures LevelOK(t', bh, n) && EdgeOK(t', n, p) { InnerNode(t, s, bh, elm, p, g, d, n); }
  }

  /** The uncle is black and elm hangs on the outer side: parent and grandparent swap colours
      and places. */
  ghost predicate Outer(t: Tree, s: Spans, bh: map<nat, nat>, elm: nat, p: nat, g: nat, d: Side) {
    && Inserting(t, s, bh, elm) && p == t.nodes[elm].parent && IsRed(t, p) && g == t.nodes[p].parent
    && g in t.nodes && p == Kid(t.nodes[g], d) && elm == Kid(t.nodes[p], d) && !IsRed(t, Kid(t.nodes[g], Opp(d)))
  }

  function BlackRed(t: Tree, b: nat, r: nat): Tree
    requires b in t.nodes && r in t.nodes
  {
    SetRed(SetRed(t, b, false), r, true)
  }

  lemma OuterTouched(t: Tree, s: Spans, bh: map<nat, nat>, elm: nat, p: nat, g: nat, d: Side) returns (b: nat, q: nat)
    requires Outer(t, s, bh, elm, p, g, d)
    ensures var t1 := BlackRed(t, p, g); Linked(t1, s) && Touched(t1, s, g, Opp(d), p, b, q) && CanRotate(t1, g, Opp(d))
    ensures b == Kid(t.nodes[p], Opp(d)) && q == t.nodes[g].parent && (b == 0 || b in t.nodes) && (q == 0 || q in t.nodes)
  {
    Grandparent(t, s, bh, elm);
    ColourLinked(t, s, p, false);
    ColourLinked(SetRed(t, p, false), s, g, true);
    var t1 := BlackRed(t, p, g);
    RotateReady(t1, s, g, Opp(d));
    b, q := Kid(t.nodes[p], Opp(d)), t.nodes[g].parent;
    KidsOf(t1, s, p);
    assert NodeOK(t1, s, g);
    Distinct(t1, s, g, Opp(d), p, b, q);
  }

  lemma ParentSide(t: Tree, s: Spans, n: nat)
    requires Linked(t, s) && n in t.nodes && t.nodes[n].parent != 0
    ensures var p := t.nodes[n].parent; p in t.nodes && (t.nodes[p].left == n || t.nodes[p].right == n)
  {
    assert NodeOK(t, s, n);
  }

  lemma OuterPair(t: Tree, s: Spans, bh: map<nat, nat>, elm: nat, p: nat, g: nat, d: Side)
    requires Outer(t, s, bh, elm, p, g, d) && CanRotate(BlackRed(t, p, g), g, Opp(d))
    ensures var t', bh' := Rotate(BlackRed(t, p, g), g, Opp(d)), bh[g := Black(bh, p)][p := Black(bh, p) + 1];
      LevelOK(t', bh', p) && LevelOK(t', bh', g)
  {
    hide Rotate, Linked, CanRotate;
    var b, q := OuterTouched(t, s, bh, elm, p, g, d);
    Grandparent(t, s, bh, elm);
    RotateFields(BlackRed(t, p, g), s, g, Opp(d), p, b, q);
    Distinct(BlackRed(t, p, g), s, g, Opp(d), p, b, q);
    assert LevelOK(t, bh, p) && LevelOK(t, bh, g);
    KidsOf(t, s, p);
    KidsOf(t, s, g);
  }

  lemma OuterRest(t: Tree, s: Spans, bh: map<nat, nat>, elm: nat, p: nat, g: nat, d: Side, n: nat)
    requires Outer(t, s, bh, elm, p, g, d) && CanRotate(BlackRed(t, p, g), g, Opp(d)) && n != p && n != g
    ensures var t', bh' := Rotate(BlackRed(t, p, g), g, Opp(d)), bh[g := Black(bh, p)][p := Black(bh, p) + 1];
      LevelOK(t', bh', n)
  {
    hide Rotate, Linked, CanRotate;
    var b, q := OuterTouched(t, s, bh, elm, p, g, d);
    Grandparent(t, s, bh, elm);
    RotateFields(BlackRed(t, p, g), s, g, Opp(d), p, b, q);
    Distinct(BlackRed(t, p, g), s, g, Opp(d), p, b, q);
    assert LevelOK(t, bh, p) && LevelOK(t, bh, g);
    if n in t.nodes {
      KidsOf(t, s, n);
      assert LevelOK(t, bh, n);
      if n == t.nodes[g].parent { KidsOf(t, s, q); ParentSide(t, s, g); }
    }
  }

  lemma OuterEdge(t: Tree, s: Spans, bh: map<nat, nat>, elm: nat, p: nat, g: nat, d: Side, n: nat)
    requires Outer(t, s, bh, elm, p, g, d) && CanRotate(BlackRed(t, p, g), g, Opp(d))
    ensures EdgeOK(Rotate(BlackRed(t, p, g), g, Opp(d)), n, elm)
  {
    hide Rotate, Linked, CanRotate, Levels, LevelOK;
    var b, q := OuterTouched(t, s, bh, elm, p, g, d);
    Grandparent(t, s, bh, elm);
    RotateFields(BlackRed(t, p, g), s, g, Opp(d), p, b, q);
    assert EdgeOK(t, p, elm) && EdgeOK(t, g, elm);
    if n in t.nodes {
      KidsOf(t, s, n);
      KidsOf(t, s, p);
      KidsOf(t, s, g);
      assert EdgeOK(t, n, elm);
    }
  }

  lemma OuterInserting(t: Tree, s: Spans, bh: map<nat, nat>, elm: nat, p: nat, g: nat, d: Side) returns (s': Spans)
    requires Outer(t, s, bh, elm, p, g, d)
    ensures CanRotate(BlackRed(t, p, g), g, Opp(d))
    ensures var t' := Rotate(BlackRed(t, p, g), g, Opp(d));
      && Inserting(t', s', bh[g := Black(bh, p)][p := Black(bh, p) + 1], elm) && s'.order == s.order
      && t'.nodes.Keys == t.nodes.Keys && t'.nodes[elm].parent == p && !IsRed(t', p)
  {
    hide Rotate;
    var b, q := OuterTouched(t, s, bh, elm, p, g, d);
    Grandparent(t, s, bh, elm);
    RotateFields(BlackRed(t, p, g), s, g, Opp(d), p, b, q);
    RotateLinked(BlackRed(t, p, g), s, g, Opp(d));
    s' := RotatedSpans(s, g, p, Opp(d));
    var t' := Rotate(BlackRed(t, p, g), g, Opp(d));
    assert NodeOK(t, s, elm) && NodeOK(t, s, g);
    assert t'.root in t.nodes;
    assert !IsRed(t', t'.root);
    assert IsRed(t', elm);
    assert Linked(t', s');
    var bh' := bh[g := Black(bh, p)][p := Black(bh, p) + 1];
    forall n ensures LevelOK(t', bh', n) && EdgeOK(t', n, elm) {
      if n == p || n == g { OuterPair(t, s, bh, elm, p, g, d); } else { OuterRest(t, s, bh, elm, p, g, d, n); }
      OuterEdge(t, s, bh, elm, p, g, d, n);
    }
  }

  /** Once the parent of elm is black, or elm is the root, a black root completes the insertion. */
  lemma InsertDone(t: Tree, s: Spans, bh: map<nat, nat>, elm: nat)
    requires Inserting(t, s, bh, elm) && !IsRed(t, t.nodes[elm].parent)
    ensures var t' := SetRed(t, t.root, false);
      Linked(t', s) && Balanced(t', bh[t.root := Black(bh, t.root) + Weight(t', t.root) - Weight(t, t.root)])
  {
    ColourLinked(t, s, t.root, false);
    var t' := SetRed(t, t.root, false);
    var bh' := bh[t.root := Black(bh, t.root) + Weight(t', t.root) - Weight(t, t.root)];
    forall n ensures LevelOK(t', bh', n) && EdgeOK(t', n, 0) {
      assert LevelOK(t, bh, n) && EdgeOK(t, n, elm);
      if n in t.nodes { KidsOf(t, s, n); }
    }
  }

  // ---------------------------------------------------------------- removal

  /** The subtree on side d of p is one black node short. */
  predicate ShortAt(t: Tree, bh: map<nat, nat>, p: nat, d: Side)
    requires p in t.nodes
  {
    && Black(bh, Kid(t.nodes[p], d)) + 1 == Black(bh, Kid(t.nodes[p], Opp(d)))
    && Black(bh, p) == Black(bh, Kid(t.nodes[p], Opp(d))) + Weight(t, p)
  }

  ghost predicate LevelsBut(t: Tree, bh: map<nat, nat>, p: nat) {
    forall n {:trigger LevelOK(t, bh, n)} :: n != p ==> LevelOK(t, bh, n)
  }

  /** Edges at elm do not count. */
  ghost predicate EdgesBut(t: Tree, elm: nat) {
    forall n {:trigger EdgeOK(t, n, elm)} :: n != elm ==> EdgeOK(t, n, elm)
  }

  /** elm, on side d of p, is one black node short; everything else is in order. */
  ghost predicate Lacking(t: Tree, s: Spans, bh: map<nat, nat>, p: nat, elm: nat, d: Side) {
    && Linked(t, s) && p in t.nodes && elm == Kid(t.nodes[p], d)
    && LevelsBut(t, bh, p) && ShortAt(t, bh, p, d) && EdgesBut(t, elm) && t.root in t.nodes && !IsRed(t, t.root)
  }

  /** elm is the root: nothing is short. */
  ghost predicate Complete(t: Tree, s: Spans, bh: map<nat, nat>, elm: nat) {
    Linked(t, s) && elm == t.root && Levels(t, bh) && EdgesBut(t, elm)
  }

  /** The sibling of a short subtree is a node, and not the other kid by accident. */
  lemma Sibling(t: Tree, s: Spans, bh: map<nat, nat>, p: nat, elm: nat, d: Side) returns (w: nat)
    requires Lacking(t, s, bh, p, elm, d)
    ensures w == Kid(t.nodes[p], Opp(d)) && w in t.nodes && w != elm && w != p && t.nodes[w].parent == p
    ensures elm != 0 ==> elm in t.nodes && t.nodes[elm].parent == p
    ensures d == if t.nodes[p].left == elm then Left else Right
    ensures Black(bh, w) >= 1 && Black(bh, p) >= 1
    ensures !IsRed(t, elm) ==> Edges(t, 0)
  {
    w := Kid(t.nodes[p], Opp(d));
    KidsOf(t, s, p);
    assert NodeOK(t, s, p);
    if !IsRed(t, elm) {
      forall n ensures EdgeOK(t, n, 0) { assert n != elm ==> EdgeOK(t, n, elm); }
    }
  }

  // A red sibling: it trades places and colours with the parent.

  ghost predicate RedSibling(t: Tree, s: Spans, bh: map<nat, nat>, p: nat, elm: nat, d: Side, w: nat) {
    Lacking(t, s, bh, p, elm, d) && !IsRed(t, elm) && w == Kid(t.nodes[p], Opp(d)) && IsRed(t, w)
  }

  lemma RedSiblingTouched(t: Tree, s: Spans, bh: map<nat, nat>, p: nat, elm: nat, d: Side, w: nat) returns (b: nat, q: nat)
    requires RedSibling(t, s, bh, p, elm, d, w)
    ensures var t1 := BlackRed(t, w, p); Linked(t1, s) && Touched(t1, s, p, d, w, b, q) && CanRotate(t1, p, d)
    ensures b == Kid(t.nodes[w], d) && q == t.nodes[p].parent && (q == 0 || q in t.nodes) && b in t.nodes && !IsRed(t, b) && !IsRed(t, p)
    ensures w != p && w != elm && b != p && b != w && q != p && q != w && b != q
    ensures elm != 0 ==> elm in t.nodes && elm != b && elm != q && elm != p
    ensures Edges(t, 0) && t.nodes[w].parent == p
  {
    var w' := Sibling(t, s, bh, p, elm, d);
    ColourLinked(t, s, w, false);
    ColourLinked(SetRed(t, w, false), s, p, true);
    var t1 := BlackRed(t, w, p);
    RotateReady(t1, s, p, d);
    b, q := Kid(t.nodes[w], d), t.nodes[p].parent;
    KidsOf(t, s, w);
    assert NodeOK(t1, s, p) && NodeOK(t, s, p);
    assert LevelOK(t, bh, w) && EdgeOK(t, w, 0) && EdgeOK(t, p, 0);
    Distinct(t1, s, p, d, w, b, q);
    if elm != 0 { assert NodeOK(t, s, elm) && NodeOK(t, s, q); }
  }

  lemma RedSiblingShort(t: Tree, s: Spans, bh: map<nat, nat>, p: nat, elm: nat, d: Side, w: nat)
    requires RedSibling(t, s, bh, p, elm, d, w) && CanRotate(BlackRed(t, w, p), p, d)
    ensures var t', bh' := Rotate(BlackRed(t, w, p), p, d), bh[p := Black(bh, w)][w := Black(bh, w) + 1];
      ShortAt(t', bh', p, d)
  {
    hide Rotate, Linked, CanRotate;
    var b, q := RedSiblingTouched(t, s, bh, p, elm, d, w);
    RotateFields(BlackRed(t, w, p), s, p, d, w, b, q);
    assert LevelOK(t, bh, w);
  }

  lemma RedSiblingTop(t: Tree, s: Spans, bh: map<nat, nat>, p: nat, elm: nat, d: Side, w: nat)
    requires RedSibling(t, s, bh, p, elm, d, w) && CanRotate(BlackRed(t, w, p), p, d)
    ensures var t', bh' := Rotate(BlackRed(t, w, p), p, d), bh[p := Black(bh, w)][w := Black(bh, w) + 1];
      LevelOK(t', bh', w)
  {
    hide Rotate, Linked, CanRotate;
    var b, q := RedSiblingTouched(t, s, bh, p, elm, d, w);
    RotateFields(BlackRed(t, w, p), s, p, d, w, b, q);
    assert LevelOK(t, bh, w);
    KidsOf(t, s, w);
  }

  lemma RedSiblingRest(t: Tree, s: Spans, bh: map<nat, nat>, p: nat, elm: nat, d: Side, w: nat, n: nat)
    requires RedSibling(t, s, bh, p, elm, d, w) && CanRotate(BlackRed(t, w, p), p, d) && n != p && n != w
    ensures var t', bh' := Rotate(BlackRed(t, w, p), p, d), bh[p := Black(bh, w)][w := Black(bh, w) + 1];
      LevelOK(t', bh', n)
  {
    hide Rotate, Linked, CanRotate;
    var b, q := RedSiblingTouched(t, s, bh, p, elm, d, w);
    RotateFields(BlackRed(t, w, p), s, p, d, w, b, q);
    assert LevelOK(t, bh, w);
    if n in t.nodes {
      KidsOf(t, s, n);
      assert LevelOK(t, bh, n);
      if n == q { ParentSide(t, s, p); }
    }
  }

  lemma RedSiblingEdge(t: Tree, s: Spans, bh: map<nat, nat>, p: nat, elm: nat, d: Side, w: nat, n: nat)
    requires RedSibling(t, s, bh, p, elm, d, w) && CanRotate(BlackRed(t, w, p), p, d)
    ensures EdgeOK(Rotate(BlackRed(t, w, p), p, d), n, 0)
  {
    hide Rotate, Linked, CanRotate;
    var b, q := RedSiblingTouched(t, s, bh, p, elm, d, w);
    RotateFields(BlackRed(t, w, p), s, p, d, w, b, q);
    if n in t.nodes {
      KidsOf(t, s, n);
      KidsOf(t, s, p);
      KidsOf(t, s, w);
      assert EdgeOK(t, n, 0);
    }
  }

  lemma RedSiblingLacking(t: Tree, s: Spans, bh: map<nat, nat>, p: nat, elm: nat, d: Side, w: nat) returns (s': Spans)
    requires RedSibling(t, s, bh, p, elm, d, w)
    ensures CanRotate(BlackRed(t, w, p), p, d)
    ensures var t' := Rotate(BlackRed(t, w, p), p, d);
      && Lacking(t', s', bh[p := Black(bh, w)][w := Black(bh, w) + 1], p, elm, d) && s'.order == s.order
      && t'.nodes.Keys == t.nodes.Keys && IsRed(t', p) && !IsRed(t', Kid(t'.nodes[p], Opp(d))) && !IsRed(t', elm)
  {
    hide Rotate;
    var b, q := RedSiblingTouched(t, s, bh, p, elm, d, w);
    RotateFields(BlackRed(t, w, p), s, p, d, w, b, q);
    RotateLinked(BlackRed(t, w, p), s, p, d);
    s' := RotatedSpans(s, p, w, d);
    var t', bh' := Rotate(BlackRed(t, w, p), p, d), bh[p := Black(bh, w)][w := Black(bh, w) + 1];
    RedSiblingShort(t, s, bh, p, elm, d, w);
    RedSiblingTop(t, s, bh, p, elm, d, w);
    forall n ensures n != p ==> LevelOK(t', bh', n) { if n != p && n != w { RedSiblingRest(t, s, bh, p, elm, d, w, n); } }
    forall n ensures EdgeOK(t', n, elm) { RedSiblingEdge(t, s, bh, p, elm, d, w, n); }
    assert t'.root in t.nodes && !IsRed(t', t'.root);
  }

  // A black sibling without red kids: it turns red, and the parent is short instead.

  ghost predicate BlackSibling(t: Tree, s: Spans, bh: map<nat, nat>, p: nat, elm: nat, d: Side, w: nat) {
    Lacking(t, s, bh, p, elm, d) && !IsRed(t, elm) && w == Kid(t.nodes[p], Opp(d)) && !IsRed(t, w)
  }

  lemma PassUpNode(t: Tree, s: Spans, bh: map<nat, nat>, p: nat, elm: nat, d: Side, w: nat, n: nat)
    requires BlackSibling(t, s, bh, p, elm, d, w) && w in t.nodes
    requires !IsRed(t, t.nodes[w].left) && !IsRed(t, t.nodes[w].right)
    ensures var t', bh' := SetRed(t, w, true), bh[w := Black(bh, w) - 1][p := Black(bh, p) - 1];
      (n != t.nodes[p].parent ==> LevelOK(t', bh', n)) && (n != p ==> EdgeOK(t', n, p))
  {
    var w' := Sibling(t, s, bh, p, elm, d);
    assert LevelOK(t, bh, w);
    if n in t.nodes {
      KidsOf(t, s, n);
      KidsOf(t, s, p);
      KidsOf(t, s, w);
      if n != p { assert LevelOK(t, bh, n) && EdgeOK(t, n, 0); }
    }
  }

  lemma PassUp(t: Tree, s: Spans, bh: map<nat, nat>, p: nat, elm: nat, d: Side, w: nat)
    requires BlackSibling(t, s, bh, p, elm, d, w) && w in t.nodes
    requires !IsRed(t, t.nodes[w].left) && !IsRed(t, t.nodes[w].right)
    ensures var t', bh', q := SetRed(t, w, true), bh[w := Black(bh, w) - 1][p := Black(bh, p) - 1], t.nodes[p].parent;
      if p == t.root then Complete(t', s, bh', p)
      else q in t.nodes && Lacking(t', s, bh', q, p, if t.nodes[q].left == p then Left else Right)
  {
    var t', bh', q := SetRed(t, w, true), bh[w := Black(bh, w) - 1][p := Black(bh, p) - 1], t.nodes[p].parent;
    var w' := Sibling(t, s, bh, p, elm, d);
    ColourLinked(t, s, w, true);
    forall n ensures n != q ==> LevelOK(t', bh', n) { PassUpNode(t, s, bh, p, elm, d, w, n); }
    forall n ensures n != p ==> EdgeOK(t', n, p) { PassUpNode(t, s, bh, p, elm, d, w, n); }
    assert NodeOK(t, s, p);
    if p != t.root {
      ParentSide(t, s, p);
      KidsOf(t, s, q);
      assert LevelOK(t, bh, q);
      assert NodeOK(t, s, q);
    }
  }

  // A black sibling whose far kid is black and near kid red: they trade places and colours.

  ghost predicate NearRed(t: Tree, s: Spans, bh: map<nat, nat>, p: nat, elm: nat, d: Side, w: nat, near: nat) {
    && BlackSibling(t, s, bh, p, elm, d, w) && w in t.nodes && near == Kid(t.nodes[w], d)
    && IsRed(t, near) && !IsRed(t, Kid(t.nodes[w], Opp(d)))
  }

  lemma NearRedTouched(t: Tree, s: Spans, bh: map<nat, nat>, p: nat, elm: nat, d: Side, w: nat, near: nat) returns (b: nat)
    requires NearRed(t, s, bh, p, elm, d, w, near)
    ensures var t1 := BlackRed(t, near, w); Linked(t1, s) && Touched(t1, s, w, Opp(d), near, b, p) && CanRotate(t1, w, Opp(d))
    ensures b == Kid(t.nodes[near], Opp(d)) && (b == 0 || b in t.nodes) && !IsRed(t, b) && !IsRed(t, Kid(t.nodes[near], d))
    ensures near != w && near != p && w != p && w != elm && b != w && b != near && b != p
    ensures elm != 0 ==> elm in t.nodes && elm != near && elm != b && elm != p
    ensures t.nodes[w].parent == p && t.nodes[near].parent == w && Edges(t, 0)
  {
    var w' := Sibling(t, s, bh, p, elm, d);
    KidsOf(t, s, w);
    KidsOf(t, s, near);
    KidsOf(t, s, p);
    assert EdgeOK(t, near, 0);
    ColourLinked(t, s, near, false);
    ColourLinked(SetRed(t, near, false), s, w, true);
    var t1 := BlackRed(t, near, w);
    RotateReady(t1, s, w, Opp(d));
    b := Kid(t.nodes[near], Opp(d));
    assert NodeOK(t1, s, w) && NodeOK(t1, s, near);
    Distinct(t1, s, w, Opp(d), near, b, p);
  }

  lemma NearRedLow(t: Tree, s: Spans, bh: map<nat, nat>, p: nat, elm: nat, d: Side, w: nat, near: nat)
    requires NearRed(t, s, bh, p, elm, d, w, near) && CanRotate(BlackRed(t, near, w), w, Opp(d))
    ensures var t', bh' := Rotate(BlackRed(t, near, w), w, Opp(d)), bh[w := Black(bh, near)][near := Black(bh, w)];
      LevelOK(t', bh', w)
  {
    hide Rotate, Linked, CanRotate;
    var b := NearRedTouched(t, s, bh, p, elm, d, w, near);
    RotateFields(BlackRed(t, near, w), s, w, Opp(d), near, b, p);
    assert LevelOK(t, bh, w) && LevelOK(t, bh, near);
    KidsOf(t, s, w);
    KidsOf(t, s, near);
  }

  lemma NearRedTop(t: Tree, s: Spans, bh: map<nat, nat>, p: nat, elm: nat, d: Side, w: nat, near: nat)
    requires NearRed(t, s, bh, p, elm, d, w, near) && CanRotate(BlackRed(t, near, w), w, Opp(d))
    ensures var t', bh' := Rotate(BlackRed(t, near, w), w, Opp(d)), bh[w := Black(bh, near)][near := Black(bh, w)];
      LevelOK(t', bh', near)
  {
    hide Rotate, Linked, CanRotate;
    var b := NearRedTouched(t, s, bh, p, elm, d, w, near);
    RotateFields(BlackRed(t, near, w), s, w, Opp(d), near, b, p);
    assert LevelOK(t, bh, w) && LevelOK(t, bh, near);
    KidsOf(t, s, near);
  }

  lemma NearRedShort(t: Tree, s: Spans, bh: map<nat, nat>, p: nat, elm: nat, d: Side, w: nat, near: nat)
    requires NearRed(t, s, bh, p, elm, d, w, near) && CanRotate(BlackRed(t, near, w), w, Opp(d))
    ensures var t', bh' := Rotate(BlackRed(t, near, w), w, Opp(d)), bh[w := Black(bh, near)][near := Black(bh, w)];
      ShortAt(t', bh', p, d)
  {
    hide Rotate, Linked, CanRotate;
    var b := NearRedTouched(t, s, bh, p, elm, d, w, near);
    RotateFields(BlackRed(t, near, w), s, w, Opp(d), near, b, p);
    assert LevelOK(t, bh, w) && LevelOK(t, bh, near);
    KidsOf(t, s, p);
  }

  lemma NearRedRest(t: Tree, s: Spans, bh: map<nat, nat>, p: nat, elm: nat, d: Side, w: nat, near: nat, n: nat)
    requires NearRed(t, s, bh, p, elm, d, w, near) && CanRotate(BlackRed(t, near, w), w, Opp(d)) && n != p && n != w && n != near
    ensures var t', bh' := Rotate(BlackRed(t, near, w), w, Opp(d)), bh[w := Black(bh, near)][near := Black(bh, w)];
      LevelOK(t', bh', n)
  {
    hide Rotate, Linked, CanRotate;
    var b := NearRedTouched(t, s, bh, p, elm, d, w, near);
    RotateFields(BlackRed(t, near, w), s, w, Opp(d), near, b, p);
    assert LevelOK(t, bh, w) && LevelOK(t, bh, near);
    if n in t.nodes {
      KidsOf(t, s, n);
      assert LevelOK(t, bh, n);
    }
  }

  lemma NearRedEdge(t: Tree, s: Spans, bh: map<nat, nat>, p: nat, elm: nat, d: Side, w: nat, near: nat, n: nat)
    requires NearRed(t, s, bh, p, elm, d, w, near) && CanRotate(BlackRed(t, near, w), w, Opp(d))
    ensures EdgeOK(Rotate(BlackRed(t, near, w), w, Opp(d)), n, 0)
  {
    hide Rotate, Linked, CanRotate;
    var b := NearRedTouched(t, s, bh, p, elm, d, w, near);
    RotateFields(BlackRed(t, near, w), s, w, Opp(d), near, b, p);
    if n in t.nodes {
      KidsOf(t, s, n);
      KidsOf(t, s, w);
      KidsOf(t, s, near);
      assert EdgeOK(t, n, 0);
    }
  }

  lemma NearRedLacking(t: Tree, s: Spans, bh: map<nat, nat>, p: nat, elm: nat, d: Side, w: nat, near: nat) returns (s': Spans)
    requires NearRed(t, s, bh, p, elm, d, w, near)
    ensures CanRotate(BlackRed(t, near, w), w, Opp(d))
    ensures var t' := Rotate(BlackRed(t, near, w), w, Opp(d));
      && Lacking(t', s', bh[w := Black(bh, near)][near := Black(bh, w)], p, elm, d) && s'.order == s.order
      && t'.nodes.Keys == t.nodes.Keys && Kid(t'.nodes[p], Opp(d)) == near && !IsRed(t', near) && !IsRed(t', elm)
      && IsRed(t', Kid(t'.nodes[near], Opp(d)))
  {
    hide Rotate;
    var b := NearRedTouched(t, s, bh, p, elm, d, w, near);
    RotateFields(BlackRed(t, near, w), s, w, Opp(d), near, b, p);
    RotateLinked(BlackRed(t, near, w), s, w, Opp(d));
    s' := RotatedSpans(s, w, near, Opp(d));
    var t', bh' := Rotate(BlackRed(t, near, w), w, Opp(d)), bh[w := Black(bh, near)][near := Black(bh, w)];
    NearRedLow(t, s, bh, p, elm, d, w, near);
    NearRedTop(t, s, bh, p, elm, d, w, near);
    NearRedShort(t, s, bh, p, elm, d, w, near);
    forall n ensures n != p ==> LevelOK(t', bh', n) {
      if n != p && n != w && n != near { NearRedRest(t, s, bh, p, elm, d, w, near, n); }
    }
    forall n ensures EdgeOK(t', n, elm) { NearRedEdge(t, s, bh, p, elm, d, w, near, n); }
    assert t'.root in t.nodes && !IsRed(t', t'.root);
  }

  // A black sibling whose far kid is red: one rotation completes the removal.

  ghost predicate FarRed(t: Tree, s: Spans, bh: map<nat, nat>, p: nat, elm: nat, d: Side, w: nat, far: nat) {
    BlackSibling(t, s, bh, p, elm, d, w) && w in t.nodes && far == Kid(t.nodes[w], Opp(d)) && IsRed(t, far)
  }

  function FarColours(t: Tree, p: nat, w: nat, far: nat): Tree
    requires p in t.nodes && w in t.nodes && far in t.nodes
  {
    SetRed(SetRed(SetRed(t, w, t.nodes[p].red), p, false), far, false)
  }

  lemma FarRedApart(t: Tree, s: Spans, bh: map<nat, nat>, p: nat, elm: nat, d: Side, w: nat, far: nat, b: nat, q: nat)
    requires FarRed(t, s, bh, p, elm, d, w, far) && b == Kid(t.nodes[w], d) && q == t.nodes[p].parent
    ensures Touched(t, s, p, d, w, b, q)
    ensures far != w && far != p && w != p && w != elm && b != w && b != p && far != b && q != p && q != w && far != q && (b == q ==> b == 0)
    ensures elm != 0 ==> elm in t.nodes && elm != far && elm != b && elm != q && elm != p
    ensures t.nodes[w].parent == p && t.nodes[far].parent == w && Edges(t, 0) && 0 !in t.nodes
  {
    var w' := Sibling(t, s, bh, p, elm, d);
    KidsOf(t, s, w);
    KidsOf(t, s, p);
    assert NodeOK(t, s, w) && NodeOK(t, s, p) && NodeOK(t, s, far) && NodeOK(t, s, q);
    Distinct(t, s, p, d, w, b, q);
    if elm != 0 { assert NodeOK(t, s, elm); }
  }

  lemma FarRedTouched(t: Tree, s: Spans, bh: map<nat, nat>, p: nat, elm: nat, d: Side, w: nat, far: nat) returns (b: nat, q: nat)
    requires FarRed(t, s, bh, p, elm, d, w, far)
    ensures var t1 := FarColours(t, p, w, far); Linked(t1, s) && Touched(t1, s, p, d, w, b, q) && CanRotate(t1, p, d)
    ensures b == Kid(t.nodes[w], d) && (b == 0 || b in t.nodes) && q == t.nodes[p].parent && (q == 0 || q in t.nodes)
    ensures far != w && far != p && w != p && w != elm && b != w && b != p && far != b && q != p && q != w && far != q && (b == q ==> b == 0)
    ensures elm != 0 ==> elm in t.nodes && elm != far && elm != b && elm != q && elm != p
    ensures t.nodes[w].parent == p && t.nodes[far].parent == w && Edges(t, 0) && 0 !in t.nodes
  {
    b, q := Kid(t.nodes[w], d), t.nodes[p].parent;
    FarRedApart(t, s, bh, p, elm, d, w, far, b, q);
    ColourLinked(t, s, w, t.nodes[p].red);
    ColourLinked(SetRed(t, w, t.nodes[p].red), s, p, false);
    ColourLinked(SetRed(SetRed(t, w, t.nodes[p].red), p, false), s, far, false);
    hide Linked;
    var t1 := FarColours(t, p, w, far);
    assert Touched(t1, s, p, d, w, b, q);
    Distinct(t1, s, p, d, w, b, q);
  }

  lemma FarRedThree(t: Tree, s: Spans, bh: map<nat, nat>, p: nat, elm: nat, d: Side, w: nat, far: nat)
    requires FarRed(t, s, bh, p, elm, d, w, far) && CanRotate(FarColours(t, p, w, far), p, d)
    ensures var t', bh' := Rotate(FarColours(t, p, w, far), p, d), bh[p := Black(bh, w)][far := Black(bh, far) + 1][w := Black(bh, p)];
      LevelOK(t', bh', p) && LevelOK(t', bh', w) && LevelOK(t', bh', far)
  {
    hide Rotate, Linked, CanRotate;
    var b, q := FarRedTouched(t, s, bh, p, elm, d, w, far);
    RotateFields(FarColours(t, p, w, far), s, p, d, w, b, q);
    assert LevelOK(t, bh, w) && LevelOK(t, bh, far);
    KidsOf(t, s, w);
    KidsOf(t, s, far);
    KidsOf(t, s, p);
  }

  lemma FarRedRest(t: Tree, s: Spans, bh: map<nat, nat>, p: nat, elm: nat, d: Side, w: nat, far: nat, n: nat)
    requires FarRed(t, s, bh, p, elm, d, w, far) && CanRotate(FarColours(t, p, w, far), p, d) && n != p && n != w && n != far
    ensures var t', bh' := Rotate(FarColours(t, p, w, far), p, d), bh[p := Black(bh, w)][far := Black(bh, far) + 1][w := Black(bh, p)];
      LevelOK(t', bh', n)
  {
    hide Rotate, Linked, CanRotate;
    var b, q := FarRedTouched(t, s, bh, p, elm, d, w, far);
    RotateFields(FarColours(t, p, w, far), s, p, d, w, b, q);
    assert LevelOK(t, bh, w) && LevelOK(t, bh, far);
    if n in t.nodes {
      KidsOf(t, s, n);
      assert LevelOK(t, bh, n);
      if n == q { ParentSide(t, s, p); }
    }
  }

  lemma FarRedTop(t: Tree, s: Spans, bh: map<nat, nat>, p: nat, elm: nat, d: Side, w: nat, far: nat)
    requires FarRed(t, s, bh, p, elm, d, w, far) && CanRotate(FarColours(t, p, w, far), p, d)
    ensures var t' := Rotate(FarColours(t, p, w, far), p, d); EdgeOK(t', w, 0) && EdgeOK(t', p, 0)
  {
    hide Rotate, Linked, CanRotate, Levels, LevelOK, ShortAt;
    var b, q := FarRedTouched(t, s, bh, p, elm, d, w, far);
    RotateFields(FarColours(t, p, w, far), s, p, d, w, b, q);
    KidsOf(t, s, w);
    KidsOf(t, s, p);
  }

  lemma FarRedEdge(t: Tree, s: Spans, bh: map<nat, nat>, p: nat, elm: nat, d: Side, w: nat, far: nat, n: nat)
    requires FarRed(t, s, bh, p, elm, d, w, far) && CanRotate(FarColours(t, p, w, far), p, d) && n != w && n != p
    ensures EdgeOK(Rotate(FarColours(t, p, w, far), p, d), n, 0)
  {
    hide Rotate, Linked, CanRotate, Levels, LevelOK, ShortAt;
    var b, q := FarRedTouched(t, s, bh, p, elm, d, w, far);
    RotateFields(FarColours(t, p, w, far), s, p, d, w, b, q);
    if n in t.nodes {
      KidsOf(t, s, n);
      assert EdgeOK(t, n, 0);
      if n == q { ParentSide(t, s, p); }
    }
  }

  lemma FarRedComplete(t: Tree, s: Spans, bh: map<nat, nat>, p: nat, elm: nat, d: Side, w: nat, far: nat) returns (s': Spans)
    requires FarRed(t, s, bh, p, elm, d, w, far)
    ensures CanRotate(FarColours(t, p, w, far), p, d)
    ensures var t' := Rotate(FarColours(t, p, w, far), p, d);
      && Complete(t', s', bh[p := Black(bh, w)][far := Black(bh, far) + 1][w := Black(bh, p)], t'.root) && s'.order == s.order
      && t'.nodes.Keys == t.nodes.Keys
  {
    hide Rotate;
    var b, q := FarRedTouched(t, s, bh, p, elm, d, w, far);
    RotateFields(FarColours(t, p, w, far), s, p, d, w, b, q);
    RotateLinked(FarColours(t, p, w, far), s, p, d);
    s' := RotatedSpans(s, p, w, d);
    var t', bh' := Rotate(FarColours(t, p, w, far), p, d), bh[p := Black(bh, w)][far := Black(bh, far) + 1][w := Black(bh, p)];
    FarRedThree(t, s, bh, p, elm, d, w, far);
    forall n ensures LevelOK(t', bh', n) {
      if n != p && n != w && n != far { FarRedRest(t, s, bh, p, elm, d, w, far, n); }
    }
    FarRedTop(t, s, bh, p, elm, d, w, far);
    forall n ensures EdgeOK(t', n, t'.root) { if n != w && n != p { FarRedEdge(t, s, bh, p, elm, d, w, far, n); } }
  }

  /** Blackening elm completes the removal. */
  function Blacken(t: Tree, elm: nat): Tree {
    if elm in t.nodes then SetRed(t, elm, false) else t
  }

  lemma RemoveDone(t: Tree, s: Spans, bh: map<nat, nat>, p: nat, elm: nat, d: Side) returns (bh': map<nat, nat>)
    requires Complete(t, s, bh, elm) || (Lacking(t, s, bh, p, elm, d) && IsRed(t, elm))
    ensures elm in t.nodes <==> elm != 0
    ensures Linked(Blacken(t, elm), s) && Balanced(Blacken(t, elm), bh')
  {
    if elm in t.nodes {
      ColourLinked(t, s, elm, false);
      var t' := SetRed(t, elm, false);
      bh' := bh[elm := Black(bh, elm) + 1 - Weight(t, elm)];
      forall n ensures LevelOK(t', bh', n) && EdgeOK(t', n, 0) {
        assert n != p ==> LevelOK(t, bh, n);
        assert n == p && Complete(t, s, bh, elm) ==> LevelOK(t, bh, n);
        assert n != elm ==> EdgeOK(t, n, elm);
        if n in t.nodes { KidsOf(t, s, n); }
        if p in t.nodes { KidsOf(t, s, p); }
      }
    } else {
      bh' := bh;
      forall n ensures LevelOK(t, bh, n) && EdgeOK(t, n, 0) { assert LevelOK(t, bh, n) && (n != elm ==> EdgeOK(t, n, elm)); }
    }
  }

  // ---------------------------------------------------------------- colours after pointer surgery

  /** A red leaf joins without touching the black heights. */
  lemma AddLeafNodeOK(t: Tree, s: Spans, bh: map<nat, nat>, p: nat, d: Side, e: nat, n: nat)
    requires LeafFits(t, s, p, d, e) && Balanced(t, bh)
    ensures LevelOK(AddLeaf(t, p, d, e), bh[e := 0], n) && EdgeOK(AddLeaf(t, p, d, e), n, e)
  {
    assert LevelOK(t, bh, n) && EdgeOK(t, n, 0);
    if n in t.nodes { KidsOf(t, s, n); }
  }

  lemma AddLeafInserting(t: Tree, s: Spans, bh: map<nat, nat>, p: nat, d: Side, e: nat)
    requires LeafFits(t, s, p, d, e) && Balanced(t, bh)
    ensures Gap(s, p, d) <= |s.order|
    ensures Inserting(AddLeaf(t, p, d, e), LeafSpans(s, Gap(s, p, d), e), bh[e := 0], e)
  {
    AddLeafLinked(t, s, p, d, e);
    var t', bh' := AddLeaf(t, p, d, e), bh[e := 0];
    forall n ensures LevelOK(t', bh', n) && EdgeOK(t', n, e) { AddLeafNodeOK(t, s, bh, p, d, e, n); }
    if p != 0 { assert NodeOK(t, s, p); }
  }

  /** A node with at most one kid: if red it is a leaf, if black its kid is red or missing. */
  lemma OneKidColours(t: Tree, s: Spans, bh: map<nat, nat>, y: nat, child: nat)
    requires OneKid(t, s, y, child) && Balanced(t, bh)
    ensures Black(bh, child) == 0 && Black(bh, y) == Weight(t, y) && (IsRed(t, y) ==> child == 0)
  {
    assert LevelOK(t, bh, y) && LevelOK(t, bh, child) && EdgeOK(t, y, 0);
    OneKidApart(t, s, y, child);
  }

  lemma SpliceNodeOK(t: Tree, s: Spans, bh: map<nat, nat>, y: nat, child: nat, n: nat)
    requires OneKid(t, s, y, child) && Balanced(t, bh)
    ensures var t' := Splice(t, y, child);
      (n != t.nodes[y].parent || IsRed(t, y) ==> LevelOK(t', bh, n)) && EdgeOK(t', n, child)
  {
    OneKidColours(t, s, bh, y, child);
    SpliceFields(t, s, y, child);
    OneKidApart(t, s, y, child);
    hide Splice;
    assert LevelOK(t, bh, n) && EdgeOK(t, n, 0);
    if n in t.nodes {
      KidsOf(t, s, n);
      KidsOf(t, s, y);
    }
  }

  /** Taking out a red node leaves the colours in order; taking out a black one leaves its place
      one black node short. */
  lemma SpliceColours(t: Tree, s: Spans, bh: map<nat, nat>, y: nat, child: nat)
    requires OneKid(t, s, y, child) && Balanced(t, bh)
    ensures var t', s', p := Splice(t, y, child), CutSpans(s, y), t.nodes[y].parent;
      if IsRed(t, y) then Linked(t', s') && Balanced(t', bh)
      else if p == 0 then Complete(t', s', bh, child)
      else Lacking(t', s', bh, p, child, if t.nodes[p].left == y then Left else Right)
  {
    var t', s', p := Splice(t, y, child), CutSpans(s, y), t.nodes[y].parent;
    SpliceLinked(t, s, y, child);
    OneKidColours(t, s, bh, y, child);
    SpliceFields(t, s, y, child);
    OneKidApart(t, s, y, child);
    hide Splice;
    forall n ensures n != p || IsRed(t, y) ==> LevelOK(t', bh, n) { SpliceNodeOK(t, s, bh, y, child, n); }
    forall n ensures EdgeOK(t', n, child) { SpliceNodeOK(t, s, bh, y, child, n); }
    assert LevelOK(t, bh, p) && NodeOK(t, s, y);
    if p != 0 {
      KidsOf(t, s, p);
      assert t'.root in t'.nodes;
    } else {
      assert 0 !in t'.nodes && LevelOK(t', bh, 0);
    }
  }

  lemma RenamedNodeOK(t: Tree, s: Spans, bh: map<nat, nat>, o: nat, y: nat, n: nat, exc: nat, d: Side)
    requires CanSubstitute(t, s, o, y) && n in t.nodes && exc != o && exc != y
    ensures var t', bh' := Substitute(t, o, y), bh[y := Black(bh, o)];
      && (LevelOK(t, bh, n) ==> LevelOK(t', bh', Renamed(n, o, y)))
      && (EdgeOK(t, n, exc) ==> EdgeOK(t', Renamed(n, o, y), exc))
      && (ShortAt(t, bh, n, d) ==> Renamed(n, o, y) in t'.nodes && ShortAt(t', bh', Renamed(n, o, y), d))
  {
    var x := t.nodes[n];
    KidsOf(t, s, n);
    SubstituteFields(t, s, o, y, n);
    SubstituteFields(t, s, o, y, x.left);
    SubstituteFields(t, s, o, y, x.right);
    hide Substitute, Linked;
  }

  lemma SubstituteLevels(t: Tree, s: Spans, bh: map<nat, nat>, o: nat, y: nat, p: nat)
    requires CanSubstitute(t, s, o, y) && LevelsBut(t, bh, p) && p != y
    ensures LevelsBut(Substitute(t, o, y), bh[y := Black(bh, o)], Renamed(p, o, y))
  {
    var t', bh' := Substitute(t, o, y), bh[y := Black(bh, o)];
    SubstituteFields(t, s, o, y, o);
    hide Substitute, Linked;
    forall m ensures m != Renamed(p, o, y) ==> LevelOK(t', bh', m) {
      if m in t'.nodes && m != Renamed(p, o, y) {
        var n := if m == y then o else m;
        assert LevelOK(t, bh, n);
        RenamedNodeOK(t, s, bh, o, y, n, 0, Left);
      }
    }
  }

  lemma SubstituteEdges(t: Tree, s: Spans, bh: map<nat, nat>, o: nat, y: nat, exc: nat)
    requires CanSubstitute(t, s, o, y) && EdgesBut(t, exc) && exc != o && exc != y
    ensures EdgesBut(Substitute(t, o, y), exc)
  {
    var t' := Substitute(t, o, y);
    SubstituteFields(t, s, o, y, o);
    hide Substitute, Linked;
    forall m ensures m != exc ==> EdgeOK(t', m, exc) {
      if m in t'.nodes && m != exc {
        var n := if m == y then o else m;
        assert EdgeOK(t, n, exc);
        RenamedNodeOK(t, s, bh, o, y, n, exc, Left);
      }
    }
  }

  /** The substitute takes over the colour and the black height. */
  lemma SubstituteLacking(t: Tree, s: Spans, bh: map<nat, nat>, o: nat, y: nat, p: nat, elm: nat, d: Side)
    requires CanSubstitute(t, s, o, y) && Lacking(t, s, bh, p, elm, d) && elm != o && elm != y
    ensures Lacking(Substitute(t, o, y), RenamedSpans(s, o, y), bh[y := Black(bh, o)], Renamed(p, o, y), elm, d)
  {
    SubstituteLinked(t, s, o, y);
    SubstituteLevels(t, s, bh, o, y, p);
    SubstituteEdges(t, s, bh, o, y, elm);
    RenamedNodeOK(t, s, bh, o, y, p, 0, d);
    SubstituteFields(t, s, o, y, p);
    SubstituteFields(t, s, o, y, t.root);
    hide Substitute, Linked;
  }

  lemma SubstituteBalanced(t: Tree, s: Spans, bh: map<nat, nat>, o: nat, y: nat)
    requires CanSubstitute(t, s, o, y) && Balanced(t, bh)
    ensures Linked(Substitute(t, o, y), RenamedSpans(s, o, y)) && Balanced(Substitute(t, o, y), bh[y := Black(bh, o)])
  {
    var t', bh' := Substitute(t, o, y), bh[y := Black(bh, o)];
    SubstituteLinked(t, s, o, y);
    SubstituteLevels(t, s, bh, o, y, 0);
    SubstituteEdges(t, s, bh, o, y, 0);
    SubstituteFields(t, s, o, y, t.root);
    hide Substitute;
    assert 0 !in t'.nodes;
    forall n ensures LevelOK(t', bh', n) { assert n != 0 ==> LevelOK(t', bh', n); }
    forall n ensures EdgeOK(t', n, 0) { assert n != 0 ==> EdgeOK(t', n, 0); }
  }
}
