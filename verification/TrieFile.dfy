/** The trie on the file: what keeps it readable, and the one write that changes it. */
module TrieFiles {
  import opened Layout
  import opened FreeProgram
  import opened TrieShape

  // ---------------------------------------------------------------- untouched blocks

  ghost predicate BarLives(live: map<nat, nat>, a: nat) {
    a in live && live[a] == BAR_SIZE
  }

  ghost predicate RecLives(live: map<nat, nat>, recs: seq<Rec>, i: nat)
    requires i < |recs|
  {
    recs[i].addr in live && live[recs[i].addr] == recs[i].len && Written(BlockOf(recs, i)) <= recs[i].len
  }

  /** Every bar and record of the trie has its live extent. */
  ghost predicate Lives(t: Trie, live: map<nat, nat>) {
    && (forall p {:trigger BarLives(live, t.bars[p])} :: p in t.bars ==> BarLives(live, t.bars[p]))
    && (forall h, i {:trigger RecLives(live, t.leaves[h].recs, i)} ::
         h in t.leaves && 0 <= i < |t.leaves[h].recs| ==> RecLives(live, t.leaves[h].recs, i))
  }

  lemma OwnedLives(img: Image, t: Trie, own: map<nat, Owner>, live: map<nat, nat>, hash: Bytes -> Hash)
    requires Owned(img, t, own, live, hash)
    ensures Lives(t, live)
  {
    forall p | p in t.bars ensures BarLives(live, t.bars[p]) { assert BarOwned(t, own, live, p); }
    forall h, i | h in t.leaves && 0 <= i < |t.leaves[h].recs| ensures RecLives(live, t.leaves[h].recs, i) {
      assert RecOwned(own, live, t.leaves[h].recs, i);
    }
  }

  /** Whatever keeps the live blocks keeps the trie and its counters. */
  lemma KeepsTrie(img: Image, img': Image, t: Trie, live: map<nat, nat>)
    requires Holds(img, t) && Lives(t, live) && Keeps(img, img', live)
    ensures Holds(img', t)
    ensures Counted(img, t) ==> Counted(img', t)
  {
    forall p | p in t.bars ensures BarHolds(img', t, p, t.bars[p]) && (CntOK(img, t.bars[p]) ==> CntOK(img', t.bars[p])) {
      assert BarHolds(img, t, p, t.bars[p]) && BarLives(live, t.bars[p]) && KeptAt(img, img', live, t.bars[p]);
    }
    forall h, i | h in t.leaves && 0 <= i < |t.leaves[h].recs| ensures RecHolds(img', t.leaves[h].recs, i) {
      assert RecHolds(img, t.leaves[h].recs, i) && RecLives(live, t.leaves[h].recs, i);
      assert KeptAt(img, img', live, t.leaves[h].recs[i].addr);
    }
  }

  // ---------------------------------------------------------------- the mounting write

  predicate CanPoke(img: Image, bar: nat, k: nat) {
    k > 0 ==> IsBar(img, bar)
  }

  /** Write the pointer at depth k of the path of h: the root for k == 0, a slot of the given
      bar otherwise. */
  function PokePath(img: Image, bar: nat, h: Hash, k: nat, target: nat): Image
    requires k <= HASH_LENGTH && CanPoke(img, bar, k)
  {
    if k == 0 then img.(treeRoot := target) else SetBarSlot(img, bar, h[k - 1], target)
  }

  /** bar is the bar at depth k - 1 of the path of h, in the old and in the new trie, and of
      no other path. */
  ghost predicate PokeTarget(t: Trie, t': Trie, h: Hash, k: nat, bar: nat) {
    && k <= HASH_LENGTH
    && (k > 0 ==>
         && h[..k - 1] in t.bars && h[..k - 1] in t'.bars && t.bars[h[..k - 1]] == bar == t'.bars[h[..k - 1]]
         && forall q :: q in t'.bars && q != h[..k - 1] ==> t'.bars[q] != bar)
  }

  /** Besides the pointer at depth k everything the new trie needs is on the file. */
  ghost predicate ReadyBut(img: Image, t: Trie, t': Trie, h: Hash, k: nat)
    requires k <= HASH_LENGTH
  {
    && (forall q :: q in t'.bars ==>
         if q in t.bars then t'.bars[q] == t.bars[q] else BarHolds(img, t', q, t'.bars[q]))
    && (forall q, b: Byte :: q in t.bars && q in t'.bars && q + [b] != h[..k] ==> Ptr(t', q + [b]) == Ptr(t, q + [b]))
    && (k > 0 ==> Ptr(t', []) == Ptr(t, []))
    && (forall x, i :: x in t'.leaves && 0 <= i < |t'.leaves[x].recs| ==> RecHolds(img, t'.leaves[x].recs, i))
  }

  lemma SnocInj(h: Bytes, k: nat, q: Bytes, b: Byte)
    requires 0 < k <= |h| && q + [b] == h[..k]
    ensures q == h[..k - 1] && b == h[k - 1]
  {
  }

  lemma RepointBar(img: Image, t: Trie, t': Trie, h: Hash, k: nat, bar: nat, q: Bytes)
    requires Holds(img, t) && PokeTarget(t, t', h, k, bar) && ReadyBut(img, t, t', h, k)
    requires CanPoke(img, bar, k) && q in t'.bars
    ensures BarHolds(PokePath(img, bar, h, k, Ptr(t', h[..k])), t', q, t'.bars[q])
  {
    var img' := PokePath(img, bar, h, k, Ptr(t', h[..k]));
    var a := t'.bars[q];
    if q in t.bars {
      assert BarHolds(img, t, q, a);
      forall b: Byte ensures img'.blocks[a].jump[b] == Ptr(t', q + [b]) {
        if q + [b] == h[..k] {
          if k > 0 { SnocInj(h, k, q, b); }
        } else {
          assert img.blocks[a].jump[b] == Ptr(t, q + [b]);
          if k > 0 && q == h[..k - 1] && b == h[k - 1] { Snoc(h, k - 1); }
        }
      }
    }
  }

  /** The commit point: one pointer write turns a file that holds t into one that holds t'. */
  lemma Repoint(img: Image, t: Trie, t': Trie, h: Hash, k: nat, bar: nat)
    requires Holds(img, t) && PokeTarget(t, t', h, k, bar) && ReadyBut(img, t, t', h, k)
    ensures CanPoke(img, bar, k)
    ensures Holds(PokePath(img, bar, h, k, Ptr(t', h[..k])), t')
  {
    if k > 0 { assert BarHolds(img, t, h[..k - 1], bar); }
    var img' := PokePath(img, bar, h, k, Ptr(t', h[..k]));
    forall q | q in t'.bars ensures BarHolds(img', t', q, t'.bars[q]) { RepointBar(img, t, t', h, k, bar, q); }
    forall x, i | x in t'.leaves && 0 <= i < |t'.leaves[x].recs| ensures RecHolds(img', t'.leaves[x].recs, i) {
      assert RecHolds(img, t'.leaves[x].recs, i);
    }
    assert h[..0] == [];
  }
}
