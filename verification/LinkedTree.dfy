/** The pointer structure of the red-black tree (include/tree.h): nodes with left, right and
    parent pointers, and what it means for them to form a search tree over a sequence. The
    mirrored halves of the program are one function of a side here. */
module LinkedTree {

  /** NULL is 0. */
  datatype Node = Node(left: nat, right: nat, parent: nat, red: bool)

  datatype Tree = Tree(root: nat, nodes: map<nat, Node>)

  datatype Side = Left | Right

  function Opp(d: Side): Side { if d == Left then Right else Left }

  function Kid(n: Node, d: Side): nat { if d == Left then n.left else n.right }

  function SetKid(t: Tree, n: nat, d: Side, k: nat): Tree
    requires n in t.nodes
  {
    var x := t.nodes[n];
    t.(nodes := t.nodes[n := if d == Left then x.(left := k) else x.(right := k)])
  }

  function SetParent(t: Tree, n: nat, p: nat): Tree
    requires n in t.nodes
  {
    t.(nodes := t.nodes[n := t.nodes[n].(parent := p)])
  }

  function SetRed(t: Tree, n: nat, red: bool): Tree
    requires n in t.nodes
  {
    t.(nodes := t.nodes[n := t.nodes[n].(red := red)])
  }

  // ---------------------------------------------------------------- the sequence behind the tree

  /** A node stands at pos of the sequence, its subtree covers [lo, hi). */
  datatype Span = Span(lo: nat, pos: nat, hi: nat)

  datatype Spans = Spans(order: seq<nat>, at: map<nat, Span>)

  /** What the subtree on a side covers. */
  function Part(a: Span, d: Side): (nat, nat) {
    if d == Left then (a.lo, a.pos) else (a.pos + 1, a.hi)
  }

  predicate KidOK(t: Tree, s: Spans, n: nat, d: Side)
    requires n in t.nodes && n in s.at
  {
    var k := Kid(t.nodes[n], d);
    var (a, b) := Part(s.at[n], d);
    if a == b then k == 0
    else k in t.nodes && k in s.at && s.at[k].lo == a && s.at[k].hi == b && t.nodes[k].parent == n
  }

  predicate ParentOK(t: Tree, s: Spans, n: nat)
    requires n in t.nodes && n in s.at
  {
    var p := t.nodes[n].parent;
    if p == 0 then t.root == n && s.at[n].lo == 0 && s.at[n].hi == |s.order|
    else p in t.nodes && (t.nodes[p].left == n || t.nodes[p].right == n)
  }

  predicate NodeOK(t: Tree, s: Spans, n: nat) {
    n in t.nodes ==>
      && n in s.at && s.at[n].lo <= s.at[n].pos < s.at[n].hi <= |s.order| && s.order[s.at[n].pos] == n
      && KidOK(t, s, n, Left) && KidOK(t, s, n, Right) && ParentOK(t, s, n)
  }

  /** A binary tree whose in-order sequence is s.order. */
  ghost predicate Linked(t: Tree, s: Spans) {
    && 0 !in t.nodes && s.at.Keys == t.nodes.Keys
    && (forall n {:trigger NodeOK(t, s, n)} :: NodeOK(t, s, n))
    && (forall i :: 0 <= i < |s.order| ==> s.order[i] in t.nodes && s.order[i] in s.at && s.at[s.order[i]].pos == i)
    && (t.root == 0 <==> s.order == [])
    && (t.root != 0 ==> t.root in t.nodes && t.nodes[t.root].parent == 0)
  }

  // ---------------------------------------------------------------- rotation

  ghost predicate CanRotate(t: Tree, x: nat, d: Side) {
    && x in t.nodes && Kid(t.nodes[x], Opp(d)) in t.nodes
    && (t.nodes[x].parent == 0 || t.nodes[x].parent in t.nodes)
    && var b := Kid(t.nodes[Kid(t.nodes[x], Opp(d))], d); b == 0 || b in t.nodes
  }

  /** Hang y where x hangs. */
  function Replant(t: Tree, p: nat, x: nat, y: nat): Tree
    requires p == 0 || p in t.nodes
  {
    if p == 0 then t.(root := y)
    else if t.nodes[p].left == x then SetKid(t, p, Left, y)
    else SetKid(t, p, Right, y)
  }

  /** RB_ROTATE_LEFT for Left, RB_ROTATE_RIGHT for Right, assignment by assignment. */
  function Rotate(t: Tree, x: nat, d: Side): Tree
    requires CanRotate(t, x, d)
  {
    var y := Kid(t.nodes[x], Opp(d));
    var b := Kid(t.nodes[y], d);
    var t1 := SetKid(t, x, Opp(d), b);
    var t2 := if b != 0 then SetParent(t1, b, x) else t1;
    var p := t2.nodes[x].parent;
    var t3 := SetParent(t2, y, p);
    var t4 := Replant(t3, p, x, y);
    SetParent(SetKid(t4, y, d, x), x, y)
  }

  function RotatedSpans(s: Spans, x: nat, y: nat, d: Side): Spans
    requires x in s.at && y in s.at
  {
    var a, b := s.at[x], s.at[y];
    s.(at := s.at[y := Span(a.lo, b.pos, a.hi)][x := if d == Left then Span(a.lo, a.pos, b.pos) else Span(b.pos + 1, a.pos, a.hi)])
  }

  lemma RotateReady(t: Tree, s: Spans, x: nat, d: Side)
    requires Linked(t, s) && x in t.nodes && Kid(t.nodes[x], Opp(d)) != 0
    ensures CanRotate(t, x, d) && x in s.at && Kid(t.nodes[x], Opp(d)) in s.at
  {
    assert NodeOK(t, s, x) && NodeOK(t, s, Kid(t.nodes[x], Opp(d)));
  }

  /** The nodes that a rotation of x touches: x, its kid y, the middle subtree b, the parent p. */
  ghost predicate Touched(t: Tree, s: Spans, x: nat, d: Side, y: nat, b: nat, p: nat) {
    && Linked(t, s) && x in t.nodes && x in s.at && y in t.nodes && y in s.at
    && y == Kid(t.nodes[x], Opp(d)) && b == Kid(t.nodes[y], d) && p == t.nodes[x].parent
    && (b == 0 || b in t.nodes) && (p == 0 || p in t.nodes)
  }

  lemma Distinct(t: Tree, s: Spans, x: nat, d: Side, y: nat, b: nat, p: nat)
    requires Touched(t, s, x, d, y, b, p)
    ensures CanRotate(t, x, d) && x != 0 && y != 0 && 0 !in t.nodes
    ensures x != y && b != x && b != y && p != x && p != y && (b == p ==> b == 0)
  {
    assert NodeOK(t, s, x) && NodeOK(t, s, y) && NodeOK(t, s, b) && NodeOK(t, s, p);
  }

  /** Which links a rotation leaves. */
  lemma RotateFields(t: Tree, s: Spans, x: nat, d: Side, y: nat, b: nat, p: nat)
    requires Touched(t, s, x, d, y, b, p)
    ensures CanRotate(t, x, d)
    ensures var t' := Rotate(t, x, d);
      && t'.nodes.Keys == t.nodes.Keys
      && t'.nodes[x] == (if d == Left then t.nodes[x].(right := b, parent := y) else t.nodes[x].(left := b, parent := y))
      && t'.nodes[y] == (if d == Left then t.nodes[y].(left := x, parent := p) else t.nodes[y].(right := x, parent := p))
      && (b != 0 ==> t'.nodes[b] == t.nodes[b].(parent := x))
      && (p != 0 ==> t'.nodes[p] == if t.nodes[p].left == x then t.nodes[p].(left := y) else t.nodes[p].(right := y))
      && (forall n :: n in t.nodes && n != x && n != y && n != b && n != p ==> t'.nodes[n] == t.nodes[n])
      && t'.root == if p == 0 then y else t.root
  {
    Distinct(t, s, x, d, y, b, p);
    hide Linked, CanRotate;
  }

  /** Rotation keeps the tree a search tree over the same sequence. */
  lemma RotateLinked(t: Tree, s: Spans, x: nat, d: Side)
    requires Linked(t, s) && x in t.nodes && Kid(t.nodes[x], Opp(d)) != 0
    ensures CanRotate(t, x, d) && x in s.at && Kid(t.nodes[x], Opp(d)) in s.at
    ensures Linked(Rotate(t, x, d), RotatedSpans(s, x, Kid(t.nodes[x], Opp(d)), d))
  {
    RotateReady(t, s, x, d);
    var y := Kid(t.nodes[x], Opp(d));
    var b := Kid(t.nodes[y], d);
    var p := t.nodes[x].parent;
    assert NodeOK(t, s, x) && NodeOK(t, s, y);
    var t', s' := Rotate(t, x, d), RotatedSpans(s, x, y, d);
    forall n ensures NodeOK(t', s', n) { RotateNode(t, s, x, d, y, b, p, n); }
    RotateRest(t, s, x, d, y, b, p);
  }

  lemma RotateNode(t: Tree, s: Spans, x: nat, d: Side, y: nat, b: nat, p: nat, n: nat)
    requires Touched(t, s, x, d, y, b, p) && CanRotate(t, x, d)
    ensures NodeOK(Rotate(t, x, d), RotatedSpans(s, x, y, d), n)
  {
    hide Rotate, NodeOK;
    if n == x { RotateX(t, s, x, d, y, b, p); }
    else if n == y { RotateY(t, s, x, d, y, b, p); }
    else if n == b { RotateB(t, s, x, d, y, b, p); }
    else if n == p { RotateP(t, s, x, d, y, b, p); }
    else { RotateOther(t, s, x, d, y, b, p, n); }
  }

  lemma RotateRest(t: Tree, s: Spans, x: nat, d: Side, y: nat, b: nat, p: nat)
    requires Touched(t, s, x, d, y, b, p) && CanRotate(t, x, d)
    ensures var t', s' := Rotate(t, x, d), RotatedSpans(s, x, y, d);
      && 0 !in t'.nodes && s'.at.Keys == t'.nodes.Keys
      && (forall i :: 0 <= i < |s'.order| ==> s'.order[i] in t'.nodes && s'.order[i] in s'.at && s'.at[s'.order[i]].pos == i)
      && (t'.root == 0 <==> s'.order == [])
      && (t'.root != 0 ==> t'.root in t'.nodes && t'.nodes[t'.root].parent == 0)
  {
    hide Rotate;
    Distinct(t, s, x, d, y, b, p);
    RotateFields(t, s, x, d, y, b, p);
    assert NodeOK(t, s, x) && NodeOK(t, s, y);
  }

  lemma RotateX(t: Tree, s: Spans, x: nat, d: Side, y: nat, b: nat, p: nat)
    requires Touched(t, s, x, d, y, b, p) && CanRotate(t, x, d)
    ensures NodeOK(Rotate(t, x, d), RotatedSpans(s, x, y, d), x)
  {
    hide Rotate;
    Distinct(t, s, x, d, y, b, p);
    RotateFields(t, s, x, d, y, b, p);
    var t', s' := Rotate(t, x, d), RotatedSpans(s, x, y, d);
    assert NodeOK(t, s, x) && NodeOK(t, s, y);
    hide Linked, CanRotate;
    var c := Kid(t.nodes[x], d);
    assert c != 0 ==> c in t.nodes && t'.nodes[c].parent == x && s'.at[c] == s.at[c];
    assert b != 0 ==> b in t.nodes && t'.nodes[b].parent == x && s'.at[b] == s.at[b];
    assert KidOK(t', s', x, Left);
    assert KidOK(t', s', x, Right);
    assert ParentOK(t', s', x);
  }

  lemma RotateY(t: Tree, s: Spans, x: nat, d: Side, y: nat, b: nat, p: nat)
    requires Touched(t, s, x, d, y, b, p) && CanRotate(t, x, d)
    ensures NodeOK(Rotate(t, x, d), RotatedSpans(s, x, y, d), y)
  {
    hide Rotate;
    Distinct(t, s, x, d, y, b, p);
    RotateFields(t, s, x, d, y, b, p);
    var t', s' := Rotate(t, x, d), RotatedSpans(s, x, y, d);
    assert NodeOK(t, s, x) && NodeOK(t, s, y);
    hide Linked, CanRotate;
    var e := Kid(t.nodes[y], Opp(d));
    assert e != 0 ==> e in t.nodes && t'.nodes[e].parent == y && s'.at[e] == s.at[e];
    assert KidOK(t', s', y, Left);
    assert KidOK(t', s', y, Right);
    assert ParentOK(t', s', y);
  }

  lemma RotateB(t: Tree, s: Spans, x: nat, d: Side, y: nat, b: nat, p: nat)
    requires Touched(t, s, x, d, y, b, p) && CanRotate(t, x, d)
    ensures NodeOK(Rotate(t, x, d), RotatedSpans(s, x, y, d), b)
  {
    hide Rotate;
    Distinct(t, s, x, d, y, b, p);
    RotateFields(t, s, x, d, y, b, p);
    var t', s' := Rotate(t, x, d), RotatedSpans(s, x, y, d);
    assert NodeOK(t, s, x) && NodeOK(t, s, y) && NodeOK(t, s, b);
    hide Linked, CanRotate;
    if b != 0 {
      assert KidOK(t', s', b, Left);
      assert KidOK(t', s', b, Right);
      assert ParentOK(t', s', b);
    }
  }

  lemma RotateP(t: Tree, s: Spans, x: nat, d: Side, y: nat, b: nat, p: nat)
    requires Touched(t, s, x, d, y, b, p) && CanRotate(t, x, d)
    ensures NodeOK(Rotate(t, x, d), RotatedSpans(s, x, y, d), p)
  {
    hide Rotate;
    Distinct(t, s, x, d, y, b, p);
    RotateFields(t, s, x, d, y, b, p);
    var t', s' := Rotate(t, x, d), RotatedSpans(s, x, y, d);
    assert NodeOK(t, s, x) && NodeOK(t, s, y) && NodeOK(t, s, p);
    hide Linked, CanRotate;
    if p != 0 {
      assert KidOK(t', s', p, Left);
      assert KidOK(t', s', p, Right);
      assert ParentOK(t', s', p);
    }
  }

  lemma RotateOtherKid(t: Tree, s: Spans, x: nat, d: Side, y: nat, b: nat, p: nat, n: nat, e: Side)
    requires Touched(t, s, x, d, y, b, p) && CanRotate(t, x, d) && n != x && n != y && n != b && n != p && n in t.nodes
    ensures var t', s' := Rotate(t, x, d), RotatedSpans(s, x, y, d);
      n in t'.nodes && n in s'.at && KidOK(t', s', n, e)
  {
    hide Rotate;
    Distinct(t, s, x, d, y, b, p);
    RotateFields(t, s, x, d, y, b, p);
    assert NodeOK(t, s, n) && NodeOK(t, s, x) && NodeOK(t, s, y);
    hide Linked, CanRotate, ParentOK, NodeOK;
    assert KidOK(t, s, n, e) && KidOK(t, s, x, Opp(d)) && KidOK(t, s, y, d);
  }

  lemma RotateOther(t: Tree, s: Spans, x: nat, d: Side, y: nat, b: nat, p: nat, n: nat)
    requires Touched(t, s, x, d, y, b, p) && CanRotate(t, x, d) && n != x && n != y && n != b && n != p
    ensures NodeOK(Rotate(t, x, d), RotatedSpans(s, x, y, d), n)
  {
    hide Rotate;
    Distinct(t, s, x, d, y, b, p);
    RotateFields(t, s, x, d, y, b, p);
    assert NodeOK(t, s, n) && NodeOK(t, s, x) && NodeOK(t, s, y);
    if n in t.nodes {
      RotateOtherKid(t, s, x, d, y, b, p, n, Left);
      RotateOtherKid(t, s, x, d, y, b, p, n, Right);
      hide Linked, CanRotate, KidOK;
      assert ParentOK(Rotate(t, x, d), RotatedSpans(s, x, y, d), n);
    }
  }
}
