/** The red-black tree of include/tree.h over any comparator: insertion, removal and the walk
    from node to node, each proved against the sequence of nodes in order. */
module RedBlack {
  import opened LinkedTree
  import opened TreeEdits
  import opened Recolour

  predicate Opposite(cmp: (nat, nat) -> int, a: nat, b: nat) {
    cmp(a, b) < 0 <==> cmp(b, a) > 0
  }

  predicate Transitive(cmp: (nat, nat) -> int, a: nat, b: nat, c: nat) {
    cmp(a, b) < 0 && cmp(b, c) < 0 ==> cmp(a, c) < 0
  }

  /** cmp is a strict order on a set of nodes. */
  ghost predicate TotalOn(cmp: (nat, nat) -> int, nodes: set<nat>) {
    && (forall a, b {:trigger Opposite(cmp, a, b)} :: a in nodes && b in nodes ==> Opposite(cmp, a, b))
    && (forall a, b, c {:trigger Transitive(cmp, a, b, c)} ::
         a in nodes && b in nodes && c in nodes ==> Transitive(cmp, a, b, c))
  }

  ghost predicate Sorted(cmp: (nat, nat) -> int, order: seq<nat>) {
    forall i, j :: 0 <= i < j < |order| ==> cmp(order[i], order[j]) < 0
  }

  lemma SpansGrow(t: Tree, s: Spans, n: nat)
    requires Linked(t, s) && n in t.nodes && t.nodes[n].parent != 0
    ensures var p := t.nodes[n].parent;
      && n in s.at && p in t.nodes && p in s.at && s.at[n].lo < s.at[n].hi && s.at[n].hi - s.at[n].lo < s.at[p].hi - s.at[p].lo <= |s.order|
  {
    assert NodeOK(t, s, n) && NodeOK(t, s, t.nodes[n].parent);
  }

  lemma NullIsNoNode(t: Tree, s: Spans)
    requires Linked(t, s)
    ensures 0 !in t.nodes
  {
  }

  lemma SpanBounds(t: Tree, s: Spans, n: nat)
    requires Linked(t, s) && n in t.nodes
    ensures n in s.at && s.at[n].lo < s.at[n].hi <= |s.order|
  {
    assert NodeOK(t, s, n);
  }

  lemma NodeLinks(t: Tree, s: Spans, n: nat)
    requires Linked(t, s) && n in t.nodes
    ensures var x := t.nodes[n];
      && (x.left == 0 || (x.left in t.nodes && x.left in s.at && s.at[x.left].lo == s.at[n].lo && s.at[x.left].hi == s.at[n].pos))
      && (x.right == 0 || (x.right in t.nodes && x.right in s.at && s.at[x.right].lo == s.at[n].pos + 1 && s.at[x.right].hi == s.at[n].hi))
      && (x.parent == 0 || x.parent in t.nodes)
      && (x.left == 0 <==> s.at[n].lo == s.at[n].pos) && (x.right == 0 <==> s.at[n].pos + 1 == s.at[n].hi)
      && s.at[n].lo <= s.at[n].pos < s.at[n].hi <= |s.order| && s.order[s.at[n].pos] == n
  {
    assert NodeOK(t, s, n);
  }

  lemma SortedCut(cmp: (nat, nat) -> int, order: seq<nat>, i: nat)
    requires Sorted(cmp, order) && i < |order|
    ensures Sorted(cmp, order[..i] + order[i + 1..])
  {
  }

  /** A node and its successor in the right subtree. */
  ghost predicate Succeeds(t: Tree, s: Spans, o: nat, y: nat, child: nat) {
    && Linked(t, s) && o in t.nodes && y in t.nodes && o in s.at && y in s.at
    && t.nodes[y].left == 0 && t.nodes[y].right == child && s.at[y].pos == s.at[o].pos + 1 == s.at[y].lo
  }

  lemma SuccessorApart(t: Tree, s: Spans, o: nat, y: nat, child: nat)
    requires Succeeds(t, s, o, y, child)
    ensures OneKid(t, s, y, child) && child != o && child != y && y != o && t.nodes[y].parent in t.nodes
    ensures s.at[y].pos < |s.order| && s.order[s.at[y].pos] == y
  {
    assert NodeOK(t, s, y) && NodeOK(t, s, o) && NodeOK(t, s, child);
  }

  lemma SuccessorOrder(s: Spans, o: nat, y: nat)
    requires o in s.at && y in s.at && o != y && s.at[y].pos == s.at[o].pos + 1 < |s.order| && s.order[s.at[y].pos] == y
    ensures var s1 := CutSpans(s, y);
      && o in s1.at && s1.at[o].pos < |s1.order| && y !in s1.at
      && RenamedSpans(s1, o, y).order == s.order[..s.at[o].pos] + s.order[s.at[o].pos + 1..]
  {
  }

  /** Between a node with two kids and its successor there is nothing in the way of the exchange. */
  lemma TwoKids(t: Tree, s: Spans, bh: map<nat, nat>, o: nat, y: nat, child: nat)
    requires Succeeds(t, s, o, y, child) && Balanced(t, bh)
    ensures OneKid(t, s, y, child) && child != o && child != y && y != o && t.nodes[y].parent in t.nodes
    ensures var t1, s1, p := Splice(t, y, child), CutSpans(s, y), t.nodes[y].parent;
      && CanSubstitute(t1, s1, o, y) && t1.nodes.Keys == t.nodes.Keys - {y}
      && (if IsRed(t, y) then Balanced(t1, bh) else Lacking(t1, s1, bh, p, child, if t.nodes[p].left == y then Left else Right))
      && RenamedSpans(s1, o, y).order == s.order[..s.at[o].pos] + s.order[s.at[o].pos + 1..]
  {
    SuccessorApart(t, s, o, y, child);
    SuccessorOrder(s, o, y);
    SpliceColours(t, s, bh, y, child);
    SpliceFields(t, s, y, child);
    SpliceLinked(t, s, y, child);
    OneKidApart(t, s, y, child);
    var t1, s1 := Splice(t, y, child), CutSpans(s, y);
    hide Splice, CutSpans, Linked, Balanced, RenamedSpans;
    SubstituteReady(t1, s1, o, y);
  }

  ghost predicate MaySplice(t: Tree, y: nat, child: nat) {
    y in t.nodes && (child == 0 || child in t.nodes) && (t.nodes[y].parent == 0 || t.nodes[y].parent in t.nodes)
  }

  ghost predicate MaySubstitute(t: Tree, o: nat) {
    && o in t.nodes && (t.nodes[o].parent == 0 || t.nodes[o].parent in t.nodes)
    && (t.nodes[o].left == 0 || t.nodes[o].left in t.nodes) && (t.nodes[o].right == 0 || t.nodes[o].right in t.nodes)
  }

  /** The exchange of a node with its successor leaves a tree without the node, balanced but for
      the place that the successor left. */
  lemma Exchanged(t: Tree, s: Spans, bh: map<nat, nat>, o: nat, y: nat, child: nat) returns (s2: Spans, bh2: map<nat, nat>, d: Side)
    requires Succeeds(t, s, o, y, child) && Balanced(t, bh)
    ensures MaySplice(t, y, child) && MaySubstitute(Splice(t, y, child), o)
    ensures s.at[o].pos < |s.order| && s2.order == s.order[..s.at[o].pos] + s.order[s.at[o].pos + 1..]
    ensures var t2, p2 := Substitute(Splice(t, y, child), o, y), Renamed(t.nodes[y].parent, o, y);
      && t2.nodes.Keys == t.nodes.Keys - {o}
      && (IsRed(t, y) ==> Linked(t2, s2) && Balanced(t2, bh2))
      && (!IsRed(t, y) ==>
           && Lacking(t2, s2, bh2, p2, child, d) && p2 in t2.nodes && child != t2.root
           && d == if t2.nodes[p2].left == child then Left else Right)
  {
    TwoKids(t, s, bh, o, y, child);
    var t1, s1, p := Splice(t, y, child), CutSpans(s, y), t.nodes[y].parent;
    SubstituteFields(t1, s1, o, y, o);
    s2, bh2 := RenamedSpans(s1, o, y), bh[y := Black(bh, o)];
    d := if t.nodes[p].left == y then Left else Right;
    hide Splice, Substitute, CutSpans, RenamedSpans, Linked, Balanced;
    if IsRed(t, y) {
      SubstituteBalanced(t1, s1, bh, o, y);
    } else {
      SubstituteLacking(t1, s1, bh, o, y, p, child, d);
      LackingRemoving(Substitute(t1, o, y), s2, bh2, Renamed(p, o, y), child, d);
    }
  }

  lemma LackingRemoving(t: Tree, s: Spans, bh: map<nat, nat>, p: nat, elm: nat, d: Side)
    requires Lacking(t, s, bh, p, elm, d)
    ensures p in t.nodes && elm != t.root && d == if t.nodes[p].left == elm then Left else Right
  {
    var w := Sibling(t, s, bh, p, elm, d);
  }

  lemma UpFrom(t: Tree, s: Spans, n: nat)
    requires Linked(t, s) && n in t.nodes
    ensures n in s.at && var p := t.nodes[n].parent;
      if p == 0 then s.at[n].lo == 0 && s.at[n].hi == |s.order|
      else p in t.nodes && (t.nodes[p].left == n || t.nodes[p].right == n)
  {
    assert NodeOK(t, s, n);
  }

  // ---------------------------------------------------------------- searching

  /** All nodes before `lo` come before elm, all from `hi` on after it. */
  ghost predicate Between(cmp: (nat, nat) -> int, order: seq<nat>, elm: nat, lo: nat, hi: nat) {
    && lo <= hi <= |order|
    && (forall j :: 0 <= j < lo ==> cmp(elm, order[j]) > 0)
    && (forall j :: hi <= j < |order| ==> cmp(elm, order[j]) < 0)
  }

  lemma Narrow(t: Tree, s: Spans, cmp: (nat, nat) -> int, elm: nat, n: nat, lo: nat, hi: nat)
    requires Linked(t, s) && Sorted(cmp, s.order) && TotalOn(cmp, t.nodes.Keys + {elm})
    requires n in t.nodes && n in s.at && s.at[n].lo == lo && s.at[n].hi == hi && Between(cmp, s.order, elm, lo, hi)
    ensures lo <= s.at[n].pos < hi <= |s.order| && s.order[s.at[n].pos] == n
    ensures cmp(elm, n) < 0 ==> Between(cmp, s.order, elm, lo, s.at[n].pos)
    ensures cmp(elm, n) > 0 ==> Between(cmp, s.order, elm, s.at[n].pos + 1, hi)
  {
    assert NodeOK(t, s, n);
    var i := s.at[n].pos;
    if cmp(elm, n) < 0 {
      forall j | i < j < |s.order| ensures cmp(elm, s.order[j]) < 0 { assert Transitive(cmp, elm, n, s.order[j]); }
    } else if cmp(elm, n) > 0 {
      forall j | 0 <= j < i ensures cmp(elm, s.order[j]) > 0 {
        assert Opposite(cmp, n, elm) && Transitive(cmp, s.order[j], n, elm) && Opposite(cmp, s.order[j], elm);
      }
    }
  }

  /** The search stands at a subtree that covers [lo, hi), on side d of p. */
  ghost predicate StandsAt(t: Tree, s: Spans, p: nat, d: Side, n: nat, lo: nat, hi: nat) {
    && (if n == 0 then lo == hi else n in t.nodes && n in s.at && s.at[n].lo == lo && s.at[n].hi == hi)
    && (if p == 0 then n == t.root && lo == 0 && hi == |s.order|
        else p in t.nodes && p in s.at && Kid(t.nodes[p], d) == n && Part(s.at[p], d) == (lo, hi))
  }

  lemma Descend(t: Tree, s: Spans, n: nat, d: Side)
    requires Linked(t, s) && n in t.nodes
    ensures n in s.at && var (lo, hi) := Part(s.at[n], d); StandsAt(t, s, n, d, Kid(t.nodes[n], d), lo, hi)
  {
    assert NodeOK(t, s, n);
  }

  lemma FromRoot(t: Tree, s: Spans)
    requires Linked(t, s)
    ensures StandsAt(t, s, 0, Left, t.root, 0, |s.order|)
  {
    assert NodeOK(t, s, t.root);
  }

  lemma FoundNone(t: Tree, s: Spans, cmp: (nat, nat) -> int, elm: nat, i: nat)
    requires Linked(t, s) && Sorted(cmp, s.order) && TotalOn(cmp, t.nodes.Keys + {elm}) && Between(cmp, s.order, elm, i, i)
    ensures Sorted(cmp, s.order[..i] + [elm] + s.order[i..])
    ensures forall n :: n in s.order ==> cmp(elm, n) != 0
  {
    forall j | 0 <= j < i ensures cmp(s.order[j], elm) < 0 { assert Opposite(cmp, s.order[j], elm); }
  }

  class RedBlackTree {
    var t: Tree
    ghost var s: Spans
    ghost var bh: map<nat, nat>
    const cmp: (nat, nat) -> int

    ghost predicate Valid()
      reads this
    {
      Linked(t, s) && Balanced(t, bh) && Sorted(cmp, s.order)
    }

    /** The nodes in order. */
    ghost function Order(): seq<nat>
      reads this
    {
      s.order
    }

    constructor (cmp: (nat, nat) -> int)
      ensures Valid() && Order() == [] && this.cmp == cmp
    {
      this.cmp := cmp;
      t := Tree(0, map[]);
      s := Spans([], map[]);
      bh := map[];
    }

    /** Down one side as far as possible. */
    method Extreme(n: nat, d: Side) returns (m: nat)
      requires Valid() && n in t.nodes
      ensures n in s.at && m in t.nodes && m in s.at && Kid(t.nodes[m], d) == 0
      ensures if d == Left then s.at[m].lo == s.at[n].lo == s.at[m].pos else s.at[m].hi == s.at[n].hi == s.at[m].pos + 1
    {
      m := n;
      NodeLinks(t, s, n);
      while Kid(t.nodes[m], d) != 0
        invariant m in t.nodes && m in s.at && n in s.at && s.at[m].lo <= s.at[m].hi
        invariant if d == Left then s.at[m].lo == s.at[n].lo else s.at[m].hi == s.at[n].hi
        decreases s.at[m].hi - s.at[m].lo
      {
        NodeLinks(t, s, m);
        m := Kid(t.nodes[m], d);
        NodeLinks(t, s, m);
      }
      NodeLinks(t, s, m);
    }

    /** RB_MINMAX: the first node for Left, the last one for Right; 0 when there is none. */
    method MinMax(d: Side) returns (m: nat)
      requires Valid()
      ensures if Order() == [] then m == 0 else m == Order()[if d == Left then 0 else |Order()| - 1]
    {
      m := t.root;
      if m != 0 {
        FromRoot(t, s);
        m := Extreme(m, d);
        NodeLinks(t, s, m);
      }
    }

    /** RB_NEXT for Right, RB_PREV for Left: the neighbour in the order; 0 past its end. */
    method Neighbour(elm: nat, d: Side) returns (m: nat)
      requires Valid() && elm in t.nodes
      ensures elm in s.at && var i := s.at[elm].pos;
        && i < |Order()| && Order()[i] == elm
        && m == if d == Left then (if i == 0 then 0 else Order()[i - 1]) else (if i + 1 == |Order()| then 0 else Order()[i + 1])
    {
      NodeLinks(t, s, elm);
      if Kid(t.nodes[elm], d) != 0 {
        m := Extreme(Kid(t.nodes[elm], d), Opp(d));
        NodeLinks(t, s, m);
        return;
      }
      m := elm;
      while t.nodes[m].parent != 0 && m == Kid(t.nodes[t.nodes[m].parent], d)
        invariant m in t.nodes && m in s.at && elm in s.at
        invariant if d == Left then s.at[m].lo == s.at[elm].pos else s.at[m].hi == s.at[elm].pos + 1
        invariant t.nodes[m].parent != 0 ==> t.nodes[m].parent in t.nodes
        decreases |s.order| - (s.at[m].hi - s.at[m].lo)
      {
        SpansGrow(t, s, m);
        NodeLinks(t, s, t.nodes[m].parent);
        m := t.nodes[m].parent;
        NodeLinks(t, s, m);
      }
      UpFrom(t, s, m);
      m := t.nodes[m].parent;
      if m != 0 { NodeLinks(t, s, m); }
    }

    /** RB_FOREACH: every node once, in order. */
    method ForEach() returns (nodes: seq<nat>)
      requires Valid()
      ensures nodes == Order()
    {
      nodes := [];
      var m := MinMax(Left);
      while m != 0
        invariant |nodes| <= |Order()| && nodes == Order()[..|nodes|]
        invariant m == if |nodes| < |Order()| then Order()[|nodes|] else 0
        decreases |Order()| - |nodes|
      {
        NullIsNoNode(t, s);
        nodes := nodes + [m];
        m := Neighbour(m, Right);
      }
      if |nodes| < |Order()| { NullIsNoNode(t, s); }
    }

    /** How far the loop of RB_INSERT_COLOR is from its end. */
    ghost function Above(n: nat): nat
      reads this
    {
      if n in t.nodes && IsRed(t, t.nodes[n].parent) && n in s.at && s.at[n].lo <= s.at[n].hi <= s.at[n].lo + |s.order|
      then 1 + |s.order| - (s.at[n].hi - s.at[n].lo) else 0
    }

    /** RB_INSERT_COLOR. */
    method InsertColour(added: nat)
      requires Inserting(t, s, bh, added)
      modifies this
      ensures Linked(t, s) && Balanced(t, bh) && s.order == old(s.order) && t.nodes.Keys == old(t.nodes.Keys)
    {
      hide Rotate, Linked, Levels, Edges, LevelOK, EdgeOK;
      var elm := added;
      var parent := t.nodes[elm].parent;
      while parent != 0 && IsRed(t, parent)
        invariant Inserting(t, s, bh, elm) && parent == t.nodes[elm].parent
        invariant s.order == old(s.order) && t.nodes.Keys == old(t.nodes.Keys)
        decreases Above(elm)
      {
        Grandparent(t, s, bh, elm);
        var gparent := t.nodes[parent].parent;
        SpansGrow(t, s, elm);
        SpansGrow(t, s, parent);
        var d := if parent == t.nodes[gparent].left then Left else Right;
        var uncle := Kid(t.nodes[gparent], Opp(d));
        if uncle != 0 && IsRed(t, uncle) {
          LiftInserting(t, s, bh, elm, parent, uncle, gparent, d);
          bh := bh[parent := Black(bh, parent) + 1][uncle := Black(bh, uncle) + 1];
          t := SetRed(t, uncle, false);
          t := BlackRed(t, parent, gparent);
          elm := gparent;
        } else {
          if Kid(t.nodes[parent], Opp(d)) == elm {
            ghost var s1 := InnerInserting(t, s, bh, elm, parent, gparent, d);
            t := Rotate(t, parent, d);
            s := s1;
            elm, parent := parent, elm;
          }
          ghost var s2 := OuterInserting(t, s, bh, elm, parent, gparent, d);
          bh := bh[gparent := Black(bh, parent)][parent := Black(bh, parent) + 1];
          t := BlackRed(t, parent, gparent);
          t := Rotate(t, gparent, Opp(d));
          s := s2;
        }
        parent := t.nodes[elm].parent;
      }
      NullIsNoNode(t, s);
      InsertDone(t, s, bh, elm);
      bh := bh[t.root := Black(bh, t.root) + 1 - Weight(t, t.root)];
      t := SetRed(t, t.root, false);
    }

    /** RB_INSERT: the node that compares equal, or 0 once elm is in its place in the order. */
    method Insert(elm: nat) returns (found: nat)
      requires Valid() && elm != 0 && elm !in t.nodes && TotalOn(cmp, t.nodes.Keys + {elm})
      modifies this
      ensures Valid()
      ensures found != 0 ==> unchanged(this) && found in Order() && cmp(elm, found) == 0
      ensures found == 0 ==>
        && (forall n :: n in old(Order()) ==> cmp(elm, n) != 0) && t.nodes.Keys == old(t.nodes.Keys) + {elm}
        && exists i :: 0 <= i <= |old(Order())| && Order() == old(Order()[..i]) + [elm] + old(Order()[i..])
    {
      var tmp, parent, d := t.root, 0, Left;
      ghost var lo: nat, hi: nat := 0, |s.order|;
      FromRoot(t, s);
      while tmp != 0
        invariant unchanged(this) && StandsAt(t, s, parent, d, tmp, lo, hi) && Between(cmp, s.order, elm, lo, hi)
        decreases hi - lo
      {
        parent := tmp;
        Narrow(t, s, cmp, elm, tmp, lo, hi);
        var comp := cmp(elm, parent);
        if comp == 0 {
          return tmp;
        }
        d := if comp < 0 then Left else Right;
        Descend(t, s, parent, d);
        lo, hi := Part(s.at[parent], d).0, Part(s.at[parent], d).1;
        tmp := Kid(t.nodes[parent], d);
      }
      FoundNone(t, s, cmp, elm, lo);
      AddLeafInserting(t, s, bh, parent, d, elm);
      s, bh := LeafSpans(s, lo, elm), bh[elm := 0];
      t := AddLeaf(t, parent, d, elm);
      InsertColour(elm);
      assert Order() == old(Order()[..lo]) + [elm] + old(Order()[lo..]);
      found := 0;
    }

    /** How far the loop of RB_REMOVE_COLOR is from its end. */
    ghost function Over(p: nat, elm: nat): nat
      reads this
    {
      if elm == t.root || IsRed(t, elm) then 0
      else if p in s.at && s.at[p].lo <= s.at[p].hi <= s.at[p].lo + |s.order| then 1 + |s.order| - (s.at[p].hi - s.at[p].lo)
      else 0
    }

    /** elm, below parent, is one black node short, or it is the root and nothing is. */
    ghost predicate Removing(parent: nat, elm: nat)
      reads this
    {
      if elm == t.root then Complete(t, s, bh, elm)
      else parent in t.nodes && Lacking(t, s, bh, parent, elm, if t.nodes[parent].left == elm then Left else Right)
    }

    /** The red-sibling step of RB_REMOVE_COLOR. */
    method TradeWithSibling(parent: nat, elm: nat, d: Side, tmp: nat)
      requires RedSibling(t, s, bh, parent, elm, d, tmp)
      modifies this
      ensures Lacking(t, s, bh, parent, elm, d) && s.order == old(s.order) && t.nodes.Keys == old(t.nodes.Keys)
      ensures IsRed(t, parent) && !IsRed(t, Kid(t.nodes[parent], Opp(d))) && !IsRed(t, elm)
    {
      hide Rotate, Linked, LevelsBut, EdgesBut, ShortAt;
      ghost var w := Sibling(t, s, bh, parent, elm, d);
      ghost var s1 := RedSiblingLacking(t, s, bh, parent, elm, d, tmp);
      bh := bh[parent := Black(bh, tmp)][tmp := Black(bh, tmp) + 1];
      t := BlackRed(t, tmp, parent);
      t := Rotate(t, parent, d);
      s := s1;
    }

    /** The last step of RB_REMOVE_COLOR: a black sibling with a red kid. */
    method BorrowFromSibling(parent: nat, elm: nat, d: Side, sibling: nat)
      requires BlackSibling(t, s, bh, parent, elm, d, sibling) && sibling in t.nodes
      requires IsRed(t, t.nodes[sibling].left) || IsRed(t, t.nodes[sibling].right)
      modifies this
      ensures Complete(t, s, bh, t.root) && s.order == old(s.order) && t.nodes.Keys == old(t.nodes.Keys)
    {
      hide Rotate, Linked, LevelsBut, EdgesBut, ShortAt, Levels;
      var tmp := sibling;
      ghost var w := Sibling(t, s, bh, parent, elm, d);
      NullIsNoNode(t, s);
      if Kid(t.nodes[tmp], Opp(d)) == 0 || !IsRed(t, Kid(t.nodes[tmp], Opp(d))) {
        var near := Kid(t.nodes[tmp], d);
        ghost var s1 := NearRedLacking(t, s, bh, parent, elm, d, tmp, near);
        bh := bh[tmp := Black(bh, near)][near := Black(bh, tmp)];
        t := BlackRed(t, near, tmp);
        t := Rotate(t, tmp, Opp(d));
        s := s1;
        tmp := Kid(t.nodes[parent], Opp(d));
      }
      var far := Kid(t.nodes[tmp], Opp(d));
      ghost var s2 := FarRedComplete(t, s, bh, parent, elm, d, tmp, far);
      bh := bh[parent := Black(bh, tmp)][far := Black(bh, far) + 1][tmp := Black(bh, parent)];
      t := FarColours(t, parent, tmp, far);
      t := Rotate(t, parent, d);
      s := s2;
    }

    /** RB_REMOVE_COLOR. */
    method RemoveColour(parent0: nat, elm0: nat)
      requires Removing(parent0, elm0)
      modifies this
      ensures Linked(t, s) && Balanced(t, bh) && s.order == old(s.order) && t.nodes.Keys == old(t.nodes.Keys)
    {
      hide Rotate, Linked, Levels, LevelsBut, Edges, EdgesBut, LevelOK, EdgeOK, ShortAt;
      var parent, elm := parent0, elm0;
      while (elm == 0 || !IsRed(t, elm)) && elm != t.root
        invariant Removing(parent, elm)
        invariant s.order == old(s.order) && t.nodes.Keys == old(t.nodes.Keys)
        decreases Over(parent, elm)
      {
        NullIsNoNode(t, s);
        var d := if t.nodes[parent].left == elm then Left else Right;
        var tmp := Kid(t.nodes[parent], Opp(d));
        SpanBounds(t, s, parent);
        if IsRed(t, tmp) {
          TradeWithSibling(parent, elm, d, tmp);
          tmp := Kid(t.nodes[parent], Opp(d));
        } else if t.nodes[parent].parent != 0 {
          SpansGrow(t, s, parent);
        }
        ghost var w := Sibling(t, s, bh, parent, elm, d);
        if !IsRed(t, t.nodes[tmp].left) && !IsRed(t, t.nodes[tmp].right) {
          PassUp(t, s, bh, parent, elm, d, tmp);
          bh := bh[tmp := Black(bh, tmp) - 1][parent := Black(bh, parent) - 1];
          t := SetRed(t, tmp, true);
          elm, parent := parent, t.nodes[parent].parent;
        } else {
          BorrowFromSibling(parent, elm, d, tmp);
          elm := t.root;
          break;
        }
      }
      ghost var d := if parent in t.nodes && t.nodes[parent].left == elm then Left else Right;
      bh := RemoveDone(t, s, bh, parent, elm, d);
      if elm != 0 { t := SetRed(t, elm, false); }
    }

    /** RB_REMOVE of a node with at most one kid. */
    method RemoveOne(elm: nat, child: nat)
      requires Valid() && OneKid(t, s, elm, child)
      modifies this
      ensures Linked(t, s) && Balanced(t, bh) && t.nodes.Keys == old(t.nodes.Keys) - {elm}
      ensures s.order == old(s.order[..s.at[elm].pos] + s.order[s.at[elm].pos + 1..])
    {
      var parent, red := t.nodes[elm].parent, t.nodes[elm].red;
      SpliceColours(t, s, bh, elm, child);
      SpliceFields(t, s, elm, child);
      OneKidApart(t, s, elm, child);
      ghost var s1 := CutSpans(s, elm);
      t := Splice(t, elm, child);
      s := s1;
      if !red { RemoveColour(parent, child); }
    }

    /** RB_REMOVE of a node with two kids: its successor takes its place. */
    method RemoveTwo(elm: nat)
      requires Valid() && elm in t.nodes && t.nodes[elm].left != 0 && t.nodes[elm].right != 0
      modifies this
      ensures Linked(t, s) && Balanced(t, bh) && t.nodes.Keys == old(t.nodes.Keys) - {elm}
      ensures elm in old(s.at.Keys) && var i := old(s.at[elm].pos);
        i < |old(s.order)| && s.order == old(s.order[..i]) + old(s.order[i + 1..])
    {
      NodeLinks(t, s, elm);
      var next := Extreme(t.nodes[elm].right, Left);
      NodeLinks(t, s, next);
      var child, parent, red := t.nodes[next].right, t.nodes[next].parent, t.nodes[next].red;
      ghost var s2, bh2, d := Exchanged(t, s, bh, elm, next, child);
      hide Linked, Balanced, Splice, Substitute, Lacking, Sorted;
      t := Splice(t, next, child);
      if parent == elm { parent := next; }
      t := Substitute(t, elm, next);
      s, bh := s2, bh2;
      if !red { RemoveColour(parent, child); }
    }

    /** RB_REMOVE: elm leaves its place in the order. */
    method Remove(elm: nat) returns (removed: nat)
      requires Valid() && elm in t.nodes
      modifies this
      ensures Valid() && removed == elm && t.nodes.Keys == old(t.nodes.Keys) - {elm}
      ensures elm in old(s.at.Keys) && var i := old(s.at[elm].pos);
        i < |old(Order())| && old(Order())[i] == elm && Order() == old(Order()[..i]) + old(Order()[i + 1..])
    {
      removed := elm;
      ghost var i := s.at[elm].pos;
      SpanBounds(t, s, elm);
      NodeLinks(t, s, elm);
      SortedCut(cmp, s.order, i);
      var x := t.nodes[elm];
      if x.left == 0 || x.right == 0 {
        RemoveOne(elm, if x.left == 0 then x.right else x.left);
      } else {
        RemoveTwo(elm);
      }
      assert Order() == old(Order()[..i]) + old(Order()[i + 1..]);
    }
  }
}
