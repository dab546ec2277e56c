/** The paths of a trie in depth-first order, and the order of hashes that they give. */
module TrieOrder {
  import opened Layout
  import opened TrieShape
  import opened StoreModel

  predicate Used(t: Trie, p: Bytes) {
    p in t.bars || p in t.at
  }

  /** The paths in use at or below p: a bar before what hangs in its slots, slots ascending. */
  function Preorder(t: Trie, p: Bytes): seq<Bytes>
    requires |p| <= HASH_LENGTH
    decreases HASH_LENGTH - |p|, SLOTS + 1
  {
    if p in t.bars && |p| < HASH_LENGTH then [p] + PreorderFrom(t, p, 0)
    else if p in t.at then [p]
    else []
  }

  /** The paths in use below the slots of the bar at p from slot i on. */
  function PreorderFrom(t: Trie, p: Bytes, i: nat): seq<Bytes>
    requires |p| < HASH_LENGTH && i <= SLOTS
    decreases HASH_LENGTH - |p|, SLOTS - i
  {
    if i == SLOTS then [] else Preorder(t, p + [i]) + PreorderFrom(t, p, i + 1)
  }

  /** q lies at or below p. */
  predicate Under(p: Bytes, q: Bytes) {
    |p| <= |q| && q[..|p|] == p
  }

  /** First difference of two paths: the smaller byte, or the end of a prefix, comes first. */
  ghost predicate Before(p: Bytes, q: Bytes) {
    exists i :: BeforeAt(p, q, i)
  }

  predicate BeforeAt(p: Bytes, q: Bytes, i: nat) {
    i <= |p| && i < |q| && p[..i] == q[..i] && (i == |p| || p[i] < q[i])
  }

  ghost predicate AscendingPaths(s: seq<Bytes>) {
    forall i, j :: 0 <= i < j < |s| ==> Before(s[i], s[j])
  }

  lemma BeforeIrreflexive(p: Bytes)
    ensures !Before(p, p)
  {
  }

  lemma AscendingConcat(a: seq<Bytes>, b: seq<Bytes>)
    requires AscendingPaths(a) && AscendingPaths(b)
    requires forall p, q :: p in a && q in b ==> Before(p, q)
    ensures AscendingPaths(a + b)
  {
  }

  lemma UnderSlot(p: Bytes, i: Byte, q: Bytes)
    requires Under(p + [i], q)
    ensures |q| > |p| && Under(p, q) && q[|p|] == i && BeforeAt(p, q, |p|)
  {
  }

  lemma SlotUnder(p: Bytes, q: Bytes)
    requires Under(p, q) && |q| > |p|
    ensures Under(p + [q[|p|]], q)
  {
  }

  /** Paths under different slots of a bar. */
  lemma SlotsApart(p: Bytes, q: Bytes, r: Bytes)
    requires Under(p, q) && Under(p, r) && |q| > |p| && |r| > |p| && q[|p|] < r[|p|]
    ensures Before(q, r)
  {
    assert BeforeAt(q, r, |p|);
  }

  ghost predicate Slotted(p: Bytes, q: Bytes, i: nat) {
    Under(p, q) && |q| > |p| && i <= q[|p|]
  }

  /** The preorder has exactly the paths in use at or below p, in ascending order. */
  lemma {:induction false} PreorderFacts(t: Trie, hash: Bytes -> Hash, p: Bytes)
    requires Shape(t, hash) && |p| <= HASH_LENGTH
    ensures AscendingPaths(Preorder(t, p))
    ensures forall q :: q in Preorder(t, p) <==> Used(t, q) && Under(p, q)
    decreases HASH_LENGTH - |p|, SLOTS + 1
  {
    assert BarPath(t, p) && ChainPath(t, p);
    if p in t.bars {
      PreorderFromFacts(t, hash, p, 0);
      forall q | q in PreorderFrom(t, p, 0) ensures Before(p, q) { assert BeforeAt(p, q, |p|); }
      AscendingConcat([p], PreorderFrom(t, p, 0));
      forall q ensures q in Preorder(t, p) <==> Used(t, q) && Under(p, q) {
        if Under(p, q) && |q| == |p| { assert q == p; }
        assert q in Preorder(t, p) <==> q == p || q in PreorderFrom(t, p, 0);
      }
    } else {
      forall q | Used(t, q) && Under(p, q) ensures q == p {
        if |q| > |p| { NothingBelow(t, hash, p, q); } else { assert q == p; }
      }
    }
  }

  lemma {:induction false} PreorderFromFacts(t: Trie, hash: Bytes -> Hash, p: Bytes, i: nat)
    requires Shape(t, hash) && |p| < HASH_LENGTH && i <= SLOTS
    ensures AscendingPaths(PreorderFrom(t, p, i))
    ensures forall q :: q in PreorderFrom(t, p, i) <==> Used(t, q) && Slotted(p, q, i)
    decreases HASH_LENGTH - |p|, SLOTS - i
  {
    if i < SLOTS {
      var head, tail := Preorder(t, p + [i]), PreorderFrom(t, p, i + 1);
      PreorderFacts(t, hash, p + [i]);
      PreorderFromFacts(t, hash, p, i + 1);
      forall q | q in head ensures Slotted(p, q, i) && q[|p|] == i { UnderSlot(p, i, q); }
      forall q, r | q in head && r in tail ensures Before(q, r) { SlotsApart(p, q, r); }
      AscendingConcat(head, tail);
      forall q ensures q in PreorderFrom(t, p, i) <==> Used(t, q) && Slotted(p, q, i) {
        assert q in PreorderFrom(t, p, i) <==> q in head || q in tail;
        if Slotted(p, q, i) && q[|p|] == i { SlotUnder(p, q); }
      }
    }
  }

  /** Slots not in use add nothing. */
  lemma {:induction false} PreorderSkip(t: Trie, hash: Bytes -> Hash, p: Bytes, i: nat, k: nat)
    requires Shape(t, hash) && |p| < HASH_LENGTH && i <= k <= SLOTS
    requires forall j: Byte :: i <= j < k ==> Ptr(t, p + [j]) == 0
    ensures PreorderFrom(t, p, i) == PreorderFrom(t, p, k)
    decreases k - i
  {
    if i < k {
      assert Ptr(t, p + [i]) == 0;
      PtrUsed(t, hash, p + [i]);
      PreorderSkip(t, hash, p, i + 1, k);
    }
  }

  /** A slot is in use exactly when something hangs there. */
  lemma PtrUsed(t: Trie, hash: Bytes -> Hash, p: Bytes)
    requires Shape(t, hash)
    ensures Ptr(t, p) != 0 <==> Used(t, p)
  {
    assert BarPath(t, p) && ChainPath(t, p);
    if p in t.at { assert LeafPath(t, hash, t.at[p]); }
  }

  // ---------------------------------------------------------------- records in order

  /** The records of the chains among a list of paths. */
  function RecordsOf(t: Trie, ps: seq<Bytes>): seq<KV> {
    if ps == [] then []
    else (if ps[0] in t.at && t.at[ps[0]] in t.leaves then KVs(t.leaves[t.at[ps[0]]].recs) else []) + RecordsOf(t, ps[1..])
  }

  lemma {:induction false} RecordsConcat(t: Trie, a: seq<Bytes>, b: seq<Bytes>)
    ensures RecordsOf(t, a + b) == RecordsOf(t, a) + RecordsOf(t, b)
  {
    if a == [] { assert a + b == b; } else {
      assert (a + b)[1..] == a[1..] + b;
      RecordsConcat(t, a[1..], b);
    }
  }

  function BarsOf(t: Trie, ps: seq<Bytes>): seq<Bytes> {
    if ps == [] then [] else (if ps[0] in t.bars then [ps[0]] else []) + BarsOf(t, ps[1..])
  }

  lemma {:induction false} BarsConcat(t: Trie, a: seq<Bytes>, b: seq<Bytes>)
    ensures BarsOf(t, a + b) == BarsOf(t, a) + BarsOf(t, b)
  {
    if a == [] { assert a + b == b; } else {
      assert (a + b)[1..] == a[1..] + b;
      BarsConcat(t, a[1..], b);
    }
  }

  /** The hashes of the chains among a list of paths. */
  function HashesOf(t: Trie, ps: seq<Bytes>): seq<Hash> {
    if ps == [] then [] else (if ps[0] in t.at then [t.at[ps[0]]] else []) + HashesOf(t, ps[1..])
  }

  ghost predicate AscendingHashes(s: seq<Hash>) {
    forall i, j :: 0 <= i < j < |s| ==> Before(s[i], s[j])
  }

  /** The records of a list of hashes. */
  function GroupsOf(m: Model, hs: seq<Hash>): seq<KV> {
    if hs == [] then [] else Group(m, hs[0]) + GroupsOf(m, hs[1..])
  }

  lemma {:induction false} HashFrom(t: Trie, ps: seq<Bytes>, h: Hash)
    ensures h in HashesOf(t, ps) <==> exists q :: q in ps && q in t.at && t.at[q] == h
  {
    if ps != [] {
      HashFrom(t, ps[1..], h);
      assert forall q :: q in ps <==> q == ps[0] || q in ps[1..];
    }
  }

  /** Chains in the order of their paths are in the order of their hashes. */
  lemma ChainOrder(t: Trie, hash: Bytes -> Hash, p: Bytes, q: Bytes)
    requires Shape(t, hash) && p in t.at && q in t.at && Before(p, q)
    ensures Before(t.at[p], t.at[q])
  {
    assert ChainPath(t, p) && ChainPath(t, q);
    var i: nat :| BeforeAt(p, q, i);
    if i == |p| { NothingBelow(t, hash, p, q); }
    var h, g := t.at[p], t.at[q];
    assert h[..i] == h[..|p|][..i] && g[..i] == g[..|q|][..i] && h[..|p|][i] == p[i] && g[..|q|][i] == q[i];
    assert BeforeAt(h, g, i);
  }

  lemma {:induction false} HashesAscend(t: Trie, hash: Bytes -> Hash, ps: seq<Bytes>)
    requires Shape(t, hash) && AscendingPaths(ps)
    ensures AscendingHashes(HashesOf(t, ps))
  {
    if ps != [] {
      var tail := HashesOf(t, ps[1..]);
      HashesAscend(t, hash, ps[1..]);
      if ps[0] in t.at {
        forall g | g in tail ensures Before(t.at[ps[0]], g) {
          HashFrom(t, ps[1..], g);
          var q :| q in ps[1..] && q in t.at && t.at[q] == g;
          ChainOrder(t, hash, ps[0], q);
        }
      }
    }
  }

  lemma {:induction false} RecordsAreGroups(t: Trie, hash: Bytes -> Hash, ps: seq<Bytes>)
    requires Shape(t, hash)
    ensures RecordsOf(t, ps) == GroupsOf(ModelOf(t), HashesOf(t, ps))
  {
    if ps != [] {
      var tail := HashesOf(t, ps[1..]);
      RecordsAreGroups(t, hash, ps[1..]);
      assert ChainPath(t, ps[0]);
      if ps[0] in t.at { assert ([t.at[ps[0]]] + tail)[1..] == tail; } else { assert HashesOf(t, ps) == tail; }
    }
  }

  /** Every hash in use has its chain among the paths. */
  lemma ChainOfHash(t: Trie, hash: Bytes -> Hash, h: Hash)
    requires Shape(t, hash)
    ensures h in t.leaves <==> exists q :: Used(t, q) && Under([], q) && q in t.at && t.at[q] == h
  {
    assert LeafPath(t, hash, h);
    if h in t.leaves { assert Used(t, h[..t.leaves[h].depth]) && Under([], h[..t.leaves[h].depth]); }
    forall q | q in t.at ensures t.at[q] in t.leaves { assert ChainPath(t, q); }
  }

  function AllRecords(t: Trie): seq<KV> {
    RecordsOf(t, Preorder(t, []))
  }

  /** The order of the enumeration in terms of the contents: the groups of all hashes in use,
      each once, ascending. */
  lemma RecordsInOrder(t: Trie, hash: Bytes -> Hash)
    requires Shape(t, hash)
    ensures var hs := HashesOf(t, Preorder(t, []));
      && AllRecords(t) == GroupsOf(ModelOf(t), hs)
      && AscendingHashes(hs)
      && forall h :: h in hs <==> h in ModelOf(t)
  {
    var ps := Preorder(t, []);
    PreorderFacts(t, hash, []);
    RecordsAreGroups(t, hash, ps);
    HashesAscend(t, hash, ps);
    forall h ensures h in HashesOf(t, ps) <==> h in ModelOf(t) {
      HashFrom(t, ps, h);
      ChainOfHash(t, hash, h);
    }
  }

  lemma {:induction false} BarFrom(t: Trie, ps: seq<Bytes>, p: Bytes)
    ensures p in BarsOf(t, ps) <==> p in ps && p in t.bars
  {
    if ps != [] {
      BarFrom(t, ps[1..], p);
      assert p in ps <==> p == ps[0] || p in ps[1..];
    }
  }

  lemma {:induction false} BarsAscend(t: Trie, ps: seq<Bytes>)
    requires AscendingPaths(ps)
    ensures AscendingPaths(BarsOf(t, ps))
  {
    if ps != [] {
      BarsAscend(t, ps[1..]);
      forall q | q in BarsOf(t, ps[1..]) ensures Before(ps[0], q) { BarFrom(t, ps[1..], q); }
    }
  }

  lemma {:induction false} AscendingSize(s: seq<Bytes>)
    requires AscendingPaths(s)
    ensures |set p | p in s| == |s|
  {
    if s != [] {
      var n := |s| - 1;
      AscendingSize(s[..n]);
      assert (set p | p in s) == (set p | p in s[..n]) + {s[n]};
      if s[n] in s[..n] { BeforeIrreflexive(s[n]); }
    }
  }

  /** All bars, each once. */
  lemma AllBars(t: Trie, hash: Bytes -> Hash)
    requires Shape(t, hash)
    ensures var bs := BarsOf(t, Preorder(t, [])); |bs| == |t.bars| && forall p :: p in bs <==> p in t.bars
  {
    var ps := Preorder(t, []);
    var bs := BarsOf(t, ps);
    PreorderFacts(t, hash, []);
    forall p ensures p in bs <==> p in t.bars { BarFrom(t, ps, p); assert p in t.bars ==> Used(t, p) && Under([], p); }
    BarsAscend(t, ps);
    AscendingSize(bs);
    assert (set p | p in bs) == t.bars.Keys;
  }
}
