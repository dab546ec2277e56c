/** How the operations change the trie, and that its shape is kept (src/extend.c,
    src/replace.c, src/del.c). */
module TrieUpdates {
  import opened Layout
  import opened FreeProgram
  import opened TrieShape

  // ---------------------------------------------------------------- mount into an empty slot

  ghost function Mount(t: Trie, h: Hash, d: nat, r: Rec): Trie
    requires d <= HASH_LENGTH
  {
    t.(at := t.at[h[..d] := h], leaves := t.leaves[h := Leaf(d, [r])])
  }

  ghost predicate FreeSlotAt(t: Trie, h: Hash, d: nat) {
    && d <= HASH_LENGTH && h[..d] !in t.bars && h[..d] !in t.at && h !in t.leaves
    && (d > 0 ==> h[..d - 1] in t.bars)
  }

  lemma MountShape(t: Trie, hash: Bytes -> Hash, h: Hash, d: nat, r: Rec)
    requires Shape(t, hash) && FreeSlotAt(t, h, d) && RecOK(r) && hash(r.key) == h
    ensures Shape(Mount(t, h, d, r), hash)
  {
    var t' := Mount(t, h, d, r);
    forall p ensures ChainPath(t', p) { assert ChainPath(t, p); }
    forall p ensures BarPath(t', p) { assert BarPath(t, p); }
    forall x ensures LeafPath(t', hash, x) { assert LeafPath(t, hash, x); }
    assert Rooted(t') by { if d > 0 { Snoc(h, d - 1); } }
  }

  lemma MountPtr(t: Trie, hash: Bytes -> Hash, h: Hash, d: nat, r: Rec, q: Bytes)
    requires Shape(t, hash) && FreeSlotAt(t, h, d)
    ensures Ptr(Mount(t, h, d, r), q) == if q == h[..d] then r.addr else Ptr(t, q)
  {
    assert ChainPath(t, q);
  }

  // ---------------------------------------------------------------- change the records of a hash

  ghost function Rerec(t: Trie, h: Hash, recs: seq<Rec>): Trie
    requires h in t.leaves
  {
    t.(leaves := t.leaves[h := Leaf(t.leaves[h].depth, recs)])
  }

  lemma RerecShape(t: Trie, hash: Bytes -> Hash, h: Hash, recs: seq<Rec>)
    requires Shape(t, hash) && h in t.leaves && LeafOK(Leaf(t.leaves[h].depth, recs), h, hash)
    ensures Shape(Rerec(t, h, recs), hash)
  {
    var t' := Rerec(t, h, recs);
    forall p ensures ChainPath(t', p) { assert ChainPath(t, p); }
    forall p ensures BarPath(t', p) { assert BarPath(t, p); }
    forall x ensures LeafPath(t', hash, x) { assert LeafPath(t, hash, x); }
  }

  lemma RerecPtr(t: Trie, hash: Bytes -> Hash, h: Hash, recs: seq<Rec>, q: Bytes)
    requires Shape(t, hash) && h in t.leaves && |recs| > 0
    ensures t.leaves[h].depth <= HASH_LENGTH
    ensures Ptr(Rerec(t, h, recs), q) == if q == h[..t.leaves[h].depth] then recs[0].addr else Ptr(t, q)
  {
    assert LeafPath(t, hash, h) && ChainPath(t, q) && ChainPath(t, h[..t.leaves[h].depth]);
  }

  // ---------------------------------------------------------------- split a path

  /** New bars at the paths of h of lengths from to upto. */
  ghost predicate NewBars(nb: map<Bytes, nat>, h: Hash, from: nat, upto: nat) {
    && upto < HASH_LENGTH
    && (forall i :: from <= i <= upto ==> h[..i] in nb)
    && (forall q :: q in nb ==> from <= |q| <= upto && q == h[..|q|] && nb[q] != 0)
  }

  /** The chain of g hangs at depth k of the path of h; the paths part after depth D, or, for
      equal hashes, at the last bar. */
  ghost predicate SplitOK(t: Trie, h: Hash, g: Hash, k: nat, D: nat) {
    && k <= D < HASH_LENGTH
    && h[..k] in t.at && t.at[h[..k]] == g && g in t.leaves && |t.leaves[g].recs| == 1
    && g[..D] == h[..D]
    && (if g == h then D + 1 == HASH_LENGTH else g[D] != h[D] && h !in t.leaves)
  }

  ghost function Split(t: Trie, h: Hash, g: Hash, k: nat, D: nat, nb: map<Bytes, nat>, r: Rec): Trie
    requires k <= D < HASH_LENGTH && g in t.leaves
  {
    var was := t.leaves[g].recs;
    Trie(t.bars + nb,
         (t.at - {h[..k]})[g[..D + 1] := g][h[..D + 1] := h],
         t.leaves[g := Leaf(D + 1, was)][h := Leaf(D + 1, if g == h then [r] + was else [r])])
  }

  /** What was below the split point before: nothing but the chain itself. */
  lemma BelowSplit(t: Trie, hash: Bytes -> Hash, h: Hash, k: nat, q: Bytes)
    requires Shape(t, hash) && k <= HASH_LENGTH && h[..k] in t.at
    requires k <= |q| <= HASH_LENGTH && q[..k] == h[..k]
    ensures q !in t.bars && (q in t.at ==> q == h[..k])
  {
    assert ChainPath(t, h[..k]);
    if |q| > k { NothingBelow(t, hash, h[..k], q); } else { assert q[..k] == q; }
  }

  lemma OldPathsApart(t: Trie, hash: Bytes -> Hash, h: Hash, k: nat, D: nat, nb: map<Bytes, nat>, q: Bytes)
    requires Shape(t, hash) && k <= D < HASH_LENGTH && h[..k] in t.at && NewBars(nb, h, k, D)
    requires q in t.bars || q in t.at
    ensures q in nb ==> q == h[..k]
  {
    if q in nb {
      assert q[..k] == h[..|q|][..k] == h[..k];
      BelowSplit(t, hash, h, k, q);
    }
  }

  lemma SplitAt(t: Trie, hash: Bytes -> Hash, h: Hash, g: Hash, k: nat, D: nat, nb: map<Bytes, nat>, r: Rec, q: Bytes)
    requires Shape(t, hash) && SplitOK(t, h, g, k, D) && NewBars(nb, h, k, D)
    ensures var t' := Split(t, h, g, k, D, nb, r);
      && (q in t'.at <==> (q in t.at && q != h[..k]) || q == h[..D + 1] || q == g[..D + 1])
      && (q in t.at && q != h[..k] ==>
           && q != h[..D + 1] && q != g[..D + 1] && q !in nb && t'.at[q] == t.at[q] != g && t.at[q] != h)
      && h[..D + 1] !in t.bars && g[..D + 1] !in t.bars && h[..D + 1] !in nb && g[..D + 1] !in nb
  {
    var hd, gd := h[..D + 1], g[..D + 1];
    assert hd[..k] == h[..k];
    assert gd[..k] == g[..D][..k] == h[..D][..k] == h[..k];
    BelowSplit(t, hash, h, k, hd);
    BelowSplit(t, hash, h, k, gd);
    assert ChainPath(t, q) && ChainPath(t, h[..k]);
    if q in t.at && q != h[..k] {
      OldPathsApart(t, hash, h, k, D, nb, q);
    }
  }

  lemma SplitChains(t: Trie, hash: Bytes -> Hash, h: Hash, g: Hash, k: nat, D: nat, nb: map<Bytes, nat>, r: Rec)
    requires Shape(t, hash) && SplitOK(t, h, g, k, D) && NewBars(nb, h, k, D)
    ensures forall p :: ChainPath(Split(t, h, g, k, D, nb, r), p)
  {
    var t' := Split(t, h, g, k, D, nb, r);
    forall p ensures ChainPath(t', p) {
      SplitAt(t, hash, h, g, k, D, nb, r, p);
      assert ChainPath(t, p);
      assert p in t.at && p != h[..k] ==> t'.leaves[t.at[p]] == t.leaves[t.at[p]];
    }
  }

  lemma SplitLeaves(t: Trie, hash: Bytes -> Hash, h: Hash, g: Hash, k: nat, D: nat, nb: map<Bytes, nat>, r: Rec)
    requires Shape(t, hash) && SplitOK(t, h, g, k, D) && NewBars(nb, h, k, D)
    requires RecOK(r) && hash(r.key) == h && (g == h ==> r.key != t.leaves[g].recs[0].key)
    ensures forall x :: LeafPath(Split(t, h, g, k, D, nb, r), hash, x)
  {
    var t' := Split(t, h, g, k, D, nb, r);
    assert LeafPath(t, hash, g);
    forall x ensures LeafPath(t', hash, x) {
      assert LeafPath(t, hash, x);
      if x in t.leaves && x != h && x != g {
        var p := x[..t.leaves[x].depth];
        assert p in t.at && t.at[p] == x;
        SplitAt(t, hash, h, g, k, D, nb, r, p);
      } else if x in t'.leaves && g != h {
        assert g[..D + 1] != h[..D + 1] by { assert g[..D + 1][D] != h[..D + 1][D]; }
      }
    }
  }

  lemma SplitRooted(t: Trie, hash: Bytes -> Hash, h: Hash, g: Hash, k: nat, D: nat, nb: map<Bytes, nat>, r: Rec)
    requires Shape(t, hash) && SplitOK(t, h, g, k, D) && NewBars(nb, h, k, D)
    ensures Rooted(Split(t, h, g, k, D, nb, r))
  {
    var t' := Split(t, h, g, k, D, nb, r);
    forall p | |p| > 0 && (p in t'.bars || p in t'.at) ensures Parent(p) in t'.bars {
      SplitAt(t, hash, h, g, k, D, nb, r, p);
      if p in nb {
        Snoc(h, |p| - 1);
        if |p| == k { assert Parent(h[..k]) in t.bars; }
      } else if p == h[..D + 1] {
        Snoc(h, D);
      } else if p == g[..D + 1] {
        Snoc(g, D);
      } else {
        assert Parent(p) in t.bars;
      }
    }
  }

  lemma SplitShape(t: Trie, hash: Bytes -> Hash, h: Hash, g: Hash, k: nat, D: nat, nb: map<Bytes, nat>, r: Rec)
    requires Shape(t, hash) && SplitOK(t, h, g, k, D) && NewBars(nb, h, k, D)
    requires RecOK(r) && hash(r.key) == h && (g == h ==> r.key != t.leaves[g].recs[0].key)
    ensures Shape(Split(t, h, g, k, D, nb, r), hash)
  {
    SplitChains(t, hash, h, g, k, D, nb, r);
    SplitLeaves(t, hash, h, g, k, D, nb, r);
    SplitRooted(t, hash, h, g, k, D, nb, r);
    forall p ensures BarPath(Split(t, h, g, k, D, nb, r), p) { assert BarPath(t, p); }
  }

  /** Pointers after a split: along the new bars, at their end, and elsewhere as before. */
  lemma SplitPtr(t: Trie, hash: Bytes -> Hash, h: Hash, g: Hash, k: nat, D: nat, nb: map<Bytes, nat>, r: Rec, q: Bytes)
    requires Shape(t, hash) && SplitOK(t, h, g, k, D) && NewBars(nb, h, k, D)
    ensures Ptr(Split(t, h, g, k, D, nb, r), q) ==
      if q in nb then nb[q]
      else if q == h[..D + 1] then r.addr
      else if q == g[..D + 1] then t.leaves[g].recs[0].addr
      else Ptr(t, q)
    ensures h[..k] in nb && h[..D + 1] !in nb && g[..D + 1] !in nb
  {
    var t' := Split(t, h, g, k, D, nb, r);
    SplitAt(t, hash, h, g, k, D, nb, r, q);
    if q in nb {
      if q in t.bars { OldPathsApart(t, hash, h, k, D, nb, q); }
    } else if q != h[..D + 1] && q != g[..D + 1] && q in t.at {
      assert q != h[..k] && ChainPath(t, q);
      assert t'.leaves[t.at[q]] == t.leaves[t.at[q]];
    }
  }

  /** Every pointer there was before, in the root or in a slot of an old bar, stays, except the
      one that led to the chain. */
  lemma SplitPointers(t: Trie, hash: Bytes -> Hash, h: Hash, g: Hash, k: nat, D: nat, nb: map<Bytes, nat>, r: Rec, q: Bytes)
    requires Shape(t, hash) && SplitOK(t, h, g, k, D) && NewBars(nb, h, k, D) && nb[h[..k]] != t.leaves[g].recs[0].addr
    requires q == [] || Parent(q) in t.bars
    ensures Ptr(Split(t, h, g, k, D, nb, r), q) != Ptr(t, q) <==> q == h[..k]
  {
    SplitPtr(t, hash, h, g, k, D, nb, r, q);
    assert ChainPath(t, h[..k]);
    if q != h[..k] && (q in nb || q == h[..D + 1] || q == g[..D + 1]) { SplitBelow(t, hash, h, g, k, D, nb, q); }
  }

  lemma SplitBelow(t: Trie, hash: Bytes -> Hash, h: Hash, g: Hash, k: nat, D: nat, nb: map<Bytes, nat>, q: Bytes)
    requires Shape(t, hash) && SplitOK(t, h, g, k, D) && NewBars(nb, h, k, D)
    requires q != h[..k] && (q in nb || q == h[..D + 1] || q == g[..D + 1])
    ensures q != [] && Parent(q) !in t.bars
  {
    assert |q| > k;
    var p := Parent(q);
    assert g[..D + 1][..D] == g[..D];
    assert h[..|q|][..|p|] == h[..|p|];
    assert h[..D + 1][..|p|] == h[..|p|] by { if q == h[..D + 1] {} }
    assert p == h[..|p|];
    assert p[..k] == h[..k];
    BelowSplit(t, hash, h, k, p);
  }

  function PathSet(h: Hash, from: nat, upto: nat): set<Bytes>
    requires upto <= HASH_LENGTH
  {
    set j | from <= j < upto :: h[..j]
  }

  lemma {:induction false} PathSetSize(h: Hash, from: nat, upto: nat)
    requires from <= upto <= HASH_LENGTH
    ensures |PathSet(h, from, upto)| == upto - from
    decreases upto
  {
    if from < upto {
      PathSetSize(h, from, upto - 1);
      assert PathSet(h, from, upto) == PathSet(h, from, upto - 1) + {h[..upto - 1]};
      assert h[..upto - 1] !in PathSet(h, from, upto - 1);
    } else {
      assert PathSet(h, from, upto) == {};
    }
  }

  lemma NewBarPaths(nb: map<Bytes, nat>, h: Hash, k: nat, D: nat)
    requires NewBars(nb, h, k, D) && k <= D
    ensures nb.Keys == PathSet(h, k, D + 1) && |nb| == D + 1 - k
  {
    forall q | q in nb ensures q in PathSet(h, k, D + 1) { assert q == h[..|q|]; }
    PathSetSize(h, k, D + 1);
  }

  lemma NewBarsApart(t: Trie, hash: Bytes -> Hash, h: Hash, g: Hash, k: nat, D: nat, nb: map<Bytes, nat>)
    requires Shape(t, hash) && SplitOK(t, h, g, k, D) && NewBars(nb, h, k, D)
    ensures t.bars.Keys !! nb.Keys
  {
    assert ChainPath(t, h[..k]);
    forall q | q in t.bars ensures q !in nb { OldPathsApart(t, hash, h, k, D, nb, q); }
  }

  lemma UnionSize(a: map<Bytes, nat>, b: map<Bytes, nat>)
    requires a.Keys !! b.Keys
    ensures (a + b).Keys == a.Keys + b.Keys && |a + b| == |a| + |b|
  {
  }

  /** One new bar for every level from the end of the old path to the first difference. */
  lemma SplitCount(t: Trie, hash: Bytes -> Hash, h: Hash, g: Hash, k: nat, D: nat, nb: map<Bytes, nat>, r: Rec)
    requires Shape(t, hash) && SplitOK(t, h, g, k, D) && NewBars(nb, h, k, D)
    ensures |Split(t, h, g, k, D, nb, r).bars| == |t.bars| + (D + 1 - k)
    ensures Split(t, h, g, k, D, nb, r).bars.Keys == t.bars.Keys + PathSet(h, k, D + 1)
  {
    NewBarPaths(nb, h, k, D);
    NewBarsApart(t, hash, h, g, k, D, nb);
    UnionSize(t.bars, nb);
  }

  /** A path of which k bars exist is extended to the first difference i of two hashes: exactly
      the missing bars are new, and of all pointers that were there before, in the root or in a
      slot of an old bar, exactly one changes, the one that led to the old chain. */
  ghost predicate PathSplit(t: Trie, t': Trie, h: Hash, k: nat, i: nat) {
    var D := if i == HASH_LENGTH then HASH_LENGTH - 1 else i;
    && i <= HASH_LENGTH && k <= D + 1
    && |t'.bars| == |t.bars| + (D + 1 - k) && t'.bars.Keys == t.bars.Keys + PathSet(h, k, D + 1)
    && forall q {:trigger Ptr(t', q)} :: q == [] || Parent(q) in t.bars ==> (Ptr(t', q) != Ptr(t, q) <==> q == h[..k])
  }

  lemma SplitIsPathSplit(t: Trie, hash: Bytes -> Hash, h: Hash, g: Hash, k: nat, i: nat, D: nat, nb: map<Bytes, nat>, r: Rec)
    requires i <= HASH_LENGTH && D == if i == HASH_LENGTH then HASH_LENGTH - 1 else i
    requires Shape(t, hash) && SplitOK(t, h, g, k, D) && NewBars(nb, h, k, D) && nb[h[..k]] != t.leaves[g].recs[0].addr
    ensures PathSplit(t, Split(t, h, g, k, D, nb, r), h, k, i)
  {
    SplitCount(t, hash, h, g, k, D, nb, r);
    var t' := Split(t, h, g, k, D, nb, r);
    forall q | q == [] || Parent(q) in t.bars ensures Ptr(t', q) != Ptr(t, q) <==> q == h[..k] {
      SplitPointers(t, hash, h, g, k, D, nb, r, q);
    }
  }

  lemma RerecIsPathSplit(t: Trie, hash: Bytes -> Hash, h: Hash, recs: seq<Rec>)
    requires Shape(t, hash) && h in t.leaves && t.leaves[h].depth == HASH_LENGTH && |t.leaves[h].recs| > 0
    requires |recs| > 0 && recs[0].addr != t.leaves[h].recs[0].addr
    ensures PathSplit(t, Rerec(t, h, recs), h, HASH_LENGTH, HASH_LENGTH)
  {
    var t' := Rerec(t, h, recs);
    assert PathSet(h, HASH_LENGTH, HASH_LENGTH) == {};
    assert LeafPath(t, hash, h) && ChainPath(t, h[..HASH_LENGTH]);
    forall q ensures Ptr(t', q) != Ptr(t, q) <==> q == h[..HASH_LENGTH] { RerecPtr(t, hash, h, recs, q); }
  }

  // ---------------------------------------------------------------- prune a path

  /** The chain of h hangs at depth d, and every bar on its path deeper than keep has no
      other child; keep is -1 when no bar stays. */
  ghost predicate PruneOK(t: Trie, h: Hash, d: nat, keep: int) {
    && d <= HASH_LENGTH && -1 <= keep < d
    && h in t.leaves && t.leaves[h].depth == d
    && forall q, i :: keep < i < d && (q in t.bars || q in t.at) && |q| == i + 1 && q[..i] == h[..i] ==> q == h[..i + 1]
  }

  ghost function Prune(t: Trie, h: Hash, d: nat, keep: int): Trie
    requires d <= HASH_LENGTH
  {
    Trie(map p | p in t.bars && !(keep < |p| < d && p == h[..|p|]) :: t.bars[p],
         t.at - {h[..d]}, t.leaves - {h})
  }

  /** Everything on the path of h below the bar that stays is gone. */
  lemma PruneGone(t: Trie, hash: Bytes -> Hash, h: Hash, d: nat, keep: int, n: nat)
    requires Shape(t, hash) && PruneOK(t, h, d, keep) && keep < n <= d
    ensures h[..n] !in Prune(t, h, d, keep).bars && h[..n] !in Prune(t, h, d, keep).at
  {
    assert LeafPath(t, hash, h) && ChainPath(t, h[..d]) && ChainPath(t, h[..n]);
    if n < d && h[..n] in t.at {
      assert h[..d][..n] == h[..n];
      NothingBelow(t, hash, h[..n], h[..d]);
    }
  }

  lemma PruneParent(t: Trie, hash: Bytes -> Hash, h: Hash, d: nat, keep: int, p: Bytes)
    requires Shape(t, hash) && PruneOK(t, h, d, keep) && |p| > 0
    requires p in Prune(t, h, d, keep).bars || p in Prune(t, h, d, keep).at
    ensures Parent(p) in Prune(t, h, d, keep).bars
  {
    var n := |p| - 1;
    var q := Parent(p);
    assert q in t.bars;
    if keep < n < d && q == h[..n] {
      assert p[..n] == h[..n];
      PruneGone(t, hash, h, d, keep, n + 1);
    }
  }

  lemma PruneRooted(t: Trie, hash: Bytes -> Hash, h: Hash, d: nat, keep: int)
    requires Shape(t, hash) && PruneOK(t, h, d, keep)
    ensures Rooted(Prune(t, h, d, keep))
  {
    forall p | |p| > 0 && (p in Prune(t, h, d, keep).bars || p in Prune(t, h, d, keep).at)
      ensures Parent(p) in Prune(t, h, d, keep).bars
    {
      PruneParent(t, hash, h, d, keep, p);
    }
  }

  lemma PruneShape(t: Trie, hash: Bytes -> Hash, h: Hash, d: nat, keep: int)
    requires Shape(t, hash) && PruneOK(t, h, d, keep)
    ensures Shape(Prune(t, h, d, keep), hash)
  {
    var t' := Prune(t, h, d, keep);
    PruneRooted(t, hash, h, d, keep);
    assert LeafPath(t, hash, h) && ChainPath(t, h[..d]);
    forall p ensures ChainPath(t', p) { assert ChainPath(t, p); }
    forall p ensures BarPath(t', p) { assert BarPath(t, p); }
    forall x ensures LeafPath(t', hash, x) {
      assert LeafPath(t, hash, x);
      if x in t.leaves { assert t.at[x[..t.leaves[x].depth]] == x; }
    }
  }

  lemma PrunePtr(t: Trie, hash: Bytes -> Hash, h: Hash, d: nat, keep: int, q: Bytes)
    requires Shape(t, hash) && PruneOK(t, h, d, keep)
    ensures Ptr(Prune(t, h, d, keep), q) ==
      if keep < |q| <= d && q == h[..|q|] then 0 else Ptr(t, q)
  {
    assert LeafPath(t, hash, h) && ChainPath(t, h[..d]);
    assert ChainPath(t, q);
    if keep < |q| < d && q == h[..|q|] && q in t.at {
      NothingBelow(t, hash, q, h[..d]);
    }
    if q in t.at && t.at[q] == h { assert q == h[..d]; }
  }

  /** The bars that a delete takes away are on no path of another chain. */
  lemma PruneSpares(t: Trie, hash: Bytes -> Hash, h: Hash, d: nat, keep: int, g: Hash, j: nat)
    requires Shape(t, hash) && PruneOK(t, h, d, keep) && g in t.leaves && g != h && j < t.leaves[g].depth
    ensures j <= HASH_LENGTH && g[..j] in t.bars && g[..j] in Prune(t, h, d, keep).bars
  {
    PruneShape(t, hash, h, d, keep);
    var t', p := Prune(t, h, d, keep), g[..t.leaves[g].depth];
    assert LeafPath(t, hash, g) && LeafPath(t', hash, g);
    Closed(t', hash, p, j);
    assert p[..j] == g[..j];
  }
}
