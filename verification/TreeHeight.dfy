/** The height of a red-black tree (claimed at the head of include/tree.h). */
module TreeHeight {
  import opened LinkedTree
  import opened Recolour
  import opened RedBlack

  function Pow2(n: nat): nat { if n == 0 then 1 else 2 * Pow2(n - 1) }

  function Size(s: Spans, n: nat): nat {
    if n != 0 && n in s.at && s.at[n].lo <= s.at[n].hi then s.at[n].hi - s.at[n].lo else 0
  }

  /** Nodes on the longest path from n down. */
  ghost function Height(t: Tree, s: Spans, n: nat): nat
    requires Linked(t, s) && (n == 0 || n in t.nodes)
    decreases Size(s, n)
  {
    if n == 0 then 0
    else
      NodeLinks(t, s, n);
      var l, r := Height(t, s, t.nodes[n].left), Height(t, s, t.nodes[n].right);
      1 + if l < r then r else l
  }

  /** A path that goes down from n, from node to kid. */
  ghost predicate PathDown(t: Tree, n: nat, path: seq<nat>)
    decreases |path|
  {
    && path != [] && path[0] == n && n in t.nodes
    && (|path| > 1 ==> (path[1] == t.nodes[n].left || path[1] == t.nodes[n].right) && PathDown(t, path[1], path[1..]))
  }

  /** No path down from n has more nodes than its height, and one has as many. */
  lemma {:induction false} PathsAreShorter(t: Tree, s: Spans, n: nat, path: seq<nat>)
    requires Linked(t, s) && n in t.nodes && PathDown(t, n, path)
    ensures |path| <= Height(t, s, n)
    decreases |path|
  {
    NodeLinks(t, s, n);
    if |path| > 1 { PathsAreShorter(t, s, path[1], path[1..]); }
  }

  lemma {:induction false} LongestPath(t: Tree, s: Spans, n: nat) returns (path: seq<nat>)
    requires Linked(t, s) && n in t.nodes
    ensures PathDown(t, n, path) && |path| == Height(t, s, n)
    decreases Size(s, n)
  {
    NodeLinks(t, s, n);
    var l, r := t.nodes[n].left, t.nodes[n].right;
    path := [n];
    if l != 0 && (r == 0 || Height(t, s, l) >= Height(t, s, r)) {
      var rest := LongestPath(t, s, l);
      path := [n] + rest;
      assert path[1..] == rest;
    } else if r != 0 {
      var rest := LongestPath(t, s, r);
      path := [n] + rest;
      assert path[1..] == rest;
    }
  }

  /** A red node has black kids, so at most every second node of a path is red. */
  lemma {:induction false} HeightBlack(t: Tree, s: Spans, bh: map<nat, nat>, n: nat)
    requires Linked(t, s) && Balanced(t, bh) && (n == 0 || n in t.nodes)
    ensures Height(t, s, n) <= 2 * Black(bh, n) + (if IsRed(t, n) then 1 else 0)
    decreases Size(s, n)
  {
    if n != 0 {
      NodeLinks(t, s, n);
      assert LevelOK(t, bh, n) && EdgeOK(t, n, 0);
      HeightBlack(t, s, bh, t.nodes[n].left);
      HeightBlack(t, s, bh, t.nodes[n].right);
    }
  }

  lemma {:induction false} SizeBlack(t: Tree, s: Spans, bh: map<nat, nat>, n: nat)
    requires Linked(t, s) && Balanced(t, bh) && (n == 0 || n in t.nodes)
    ensures Pow2(Black(bh, n)) <= Size(s, n) + 1
    decreases Size(s, n)
  {
    if n != 0 {
      NodeLinks(t, s, n);
      assert LevelOK(t, bh, n);
      SizeBlack(t, s, bh, t.nodes[n].left);
      SizeBlack(t, s, bh, t.nodes[n].right);
    }
  }

  lemma {:induction false} Pow2Sum(a: nat, b: nat)
    ensures Pow2(a + b) == Pow2(a) * Pow2(b)
  {
    if a > 0 { Pow2Sum(a - 1, b); }
  }

  lemma {:induction false} Pow2Up(a: nat, b: nat)
    requires a <= b
    ensures Pow2(a) <= Pow2(b)
  {
    if a < b { Pow2Up(a, b - 1); }
  }

  lemma SquareUp(a: nat, b: nat)
    requires a <= b
    ensures a * a <= b * b
  {
  }

  /** The height is at most 2 lg (n + 1), and so is the number of nodes on every path. */
  lemma HeightBound(t: Tree, s: Spans, bh: map<nat, nat>)
    requires Linked(t, s) && Balanced(t, bh)
    ensures Pow2(Height(t, s, t.root)) <= (|s.order| + 1) * (|s.order| + 1)
    ensures forall path :: PathDown(t, t.root, path) ==> Pow2(|path|) <= (|s.order| + 1) * (|s.order| + 1)
  {
    var b, n := Black(bh, t.root), |s.order| + 1;
    HeightBlack(t, s, bh, t.root);
    SizeBlack(t, s, bh, t.root);
    if t.root != 0 { UpFrom(t, s, t.root); }
    Pow2Up(Height(t, s, t.root), b + b);
    Pow2Sum(b, b);
    SquareUp(Pow2(b), n);
    forall path | PathDown(t, t.root, path) ensures Pow2(|path|) <= n * n {
      PathsAreShorter(t, s, t.root, path);
      Pow2Up(|path|, Height(t, s, t.root));
    }
  }
}
