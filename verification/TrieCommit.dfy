/** The commit of every operation, whole: the invariant of the tree before its last write
    gives the invariant of the changed tree after it. */
module TrieCommits {
  import opened Layout
  import opened FreeProgram
  import opened VolumeManager
  import opened TrieShape
  import opened TrieUpdates
  import opened TrieFiles

  /** The invariant outlives every write outside the extents of the tree. */
  lemma KeepsTreeOK(img: Image, img': Image, t: Trie, own: map<nat, Owner>, live: map<nat, nat>, hash: Bytes -> Hash)
    requires TreeOK(img, t, own, live, hash) && Keeps(img, img', live)
    ensures TreeOK(img', t, own, live, hash)
  {
    OwnedLives(img, t, own, live, hash);
    KeepsTrie(img, img', t, live);
    forall a | a in own ensures OwnerOK(img', t, live, a, own[a], hash) {
      assert OwnerOK(img, t, live, a, own[a], hash) && KeptAt(img, img', live, a);
    }
  }

  /** Bars of different paths have different addresses. */
  lemma BarsApart(img: Image, t: Trie, own: map<nat, Owner>, live: map<nat, nat>, hash: Bytes -> Hash, p: Bytes, q: Bytes)
    requires Owned(img, t, own, live, hash) && p in t.bars && q in t.bars && p != q
    ensures t.bars[p] != t.bars[q]
  {
    assert BarOwned(t, own, live, p) && BarOwned(t, own, live, q);
  }

  // ---------------------------------------------------------------- owners

  /** Blocks left behind by chain replaces survive. */
  ghost predicate LeaksKept(img: Image, img': Image, own: map<nat, Owner>) {
    forall a :: a in own && own[a].Leaked? && a in img.blocks ==> a in img'.blocks && img'.blocks[a] == img.blocks[a]
  }

  ghost predicate OwnsRecs(own: map<nat, Owner>, live: map<nat, nat>, recs: seq<Rec>) {
    forall i :: 0 <= i < |recs| ==> RecOwned(own, live, recs, i)
  }

  /** New bars and changed chains get their owners. */
  lemma OwnedMore(img: Image, img': Image, t: Trie, t': Trie, own: map<nat, Owner>, own': map<nat, Owner>,
                  live: map<nat, nat>, live': map<nat, nat>, hash: Bytes -> Hash)
    requires Owned(img, t, own, live, hash) && LeaksKept(img, img', own)
    requires own'.Keys == live'.Keys
    requires forall a :: a in own ==> a in own' && a in live' && live'[a] == live[a] && (own'[a] == own[a] || own'[a].Leaked?)
    requires forall p :: p in t'.bars ==> BarOwned(t', own', live', p)
    requires forall x :: x in t'.leaves ==> OwnsRecs(own', live', t'.leaves[x].recs)
    requires forall a :: a in own' && !(a in own && own[a].Leaked?) ==> OwnerOK(img', t', live', a, own'[a], hash)
    ensures Owned(img', t', own', live', hash)
  {
    forall a | a in own' ensures OwnerOK(img', t', live', a, own'[a], hash) {
      if a in own && own[a].Leaked? { assert OwnerOK(img, t, live, a, own[a], hash); }
    }
    forall x, i | x in t'.leaves && 0 <= i < |t'.leaves[x].recs| ensures RecOwned(own', live', t'.leaves[x].recs, i) {
      assert OwnsRecs(own', live', t'.leaves[x].recs);
    }
  }

  // ---------------------------------------------------------------- counters after a poke

  /** The counter of the poked bar is right for its slots after the poke; all others were. */
  lemma CountedAfter(img: Image, t': Trie, h: Hash, k: nat, bar: nat, target: nat)
    requires k <= HASH_LENGTH && CanPoke(img, bar, k)
    requires k > 0 ==> h[..k - 1] in t'.bars && t'.bars[h[..k - 1]] == bar
    requires forall q :: q in t'.bars && !(k > 0 && t'.bars[q] == bar) ==> CntOK(img, t'.bars[q])
    requires k > 0 ==> CntOK(PokePath(img, bar, h, k, target), bar)
    ensures Counted(PokePath(img, bar, h, k, target), t')
  {
  }

  // ---------------------------------------------------------------- mount

  lemma MountReady(img: Image, t: Trie, hash: Bytes -> Hash, h: Hash, d: nat, r: Rec)
    requires Shape(t, hash) && Holds(img, t) && FreeSlotAt(t, h, d) && RecHolds(img, [r], 0)
    ensures ReadyBut(img, t, Mount(t, h, d, r), h, d)
  {
    var t' := Mount(t, h, d, r);
    forall q, b: Byte | q in t.bars && q in t'.bars && q + [b] != h[..d] ensures Ptr(t', q + [b]) == Ptr(t, q + [b]) {
      MountPtr(t, hash, h, d, r, q + [b]);
    }
    MountPtr(t, hash, h, d, r, []);
    forall x, i | x in t'.leaves && 0 <= i < |t'.leaves[x].recs| ensures RecHolds(img, t'.leaves[x].recs, i) {
      if x != h { assert RecHolds(img, t.leaves[x].recs, i); }
    }
  }

  /** Nothing that was owned changes hands. */
  ghost predicate Grows(own: map<nat, Owner>, live: map<nat, nat>, own': map<nat, Owner>, live': map<nat, nat>) {
    && own'.Keys == live'.Keys
    && forall a :: a in own ==> a in own' && own'[a] == own[a] && a in live && a in live' && live'[a] == live[a]
  }

  lemma OldRecsOwned(img: Image, t: Trie, own: map<nat, Owner>, live: map<nat, nat>, hash: Bytes -> Hash,
                     own': map<nat, Owner>, live': map<nat, nat>, x: Hash)
    requires Owned(img, t, own, live, hash) && Grows(own, live, own', live') && x in t.leaves
    ensures OwnsRecs(own', live', t.leaves[x].recs)
  {
    var recs := t.leaves[x].recs;
    forall i | 0 <= i < |recs| ensures RecOwned(own', live', recs, i) { assert RecOwned(own, live, recs, i); }
  }

  lemma OldBarOwned(img: Image, t: Trie, own: map<nat, Owner>, live: map<nat, nat>, hash: Bytes -> Hash,
                    t': Trie, own': map<nat, Owner>, live': map<nat, nat>, p: Bytes)
    requires Owned(img, t, own, live, hash) && Grows(own, live, own', live')
    requires p in t.bars && p in t'.bars && t'.bars[p] == t.bars[p]
    ensures BarOwned(t', own', live', p)
  {
    assert BarOwned(t, own, live, p);
  }

  lemma MountOwned(img: Image, img': Image, t: Trie, own: map<nat, Owner>, live: map<nat, nat>, hash: Bytes -> Hash,
                   h: Hash, d: nat, r: Rec)
    requires Owned(img, t, own, live, hash) && LeaksKept(img, img', own)
    requires FreeSlotAt(t, h, d) && RecOK(r) && hash(r.key) == h && r.addr !in live
    ensures Owned(img', Mount(t, h, d, r), own[r.addr := OwnRec(r.key)], live[r.addr := r.len], hash)
  {
    var t' := Mount(t, h, d, r);
    var own', live' := own[r.addr := OwnRec(r.key)], live[r.addr := r.len];
    forall p | p in t'.bars ensures BarOwned(t', own', live', p) { OldBarOwned(img, t, own, live, hash, t', own', live', p); }
    forall x | x in t'.leaves ensures OwnsRecs(own', live', t'.leaves[x].recs) {
      if x != h { OldRecsOwned(img, t, own, live, hash, own', live', x); }
    }
    forall a | a in own' && !(a in own && own[a].Leaked?) ensures OwnerOK(img', t', live', a, own'[a], hash) {
      MountOwner(img, img', t, own, live, hash, h, d, r, a);
    }
    OwnedMore(img, img', t, t', own, own', live, live', hash);
  }

  lemma MountOwner(img: Image, img': Image, t: Trie, own: map<nat, Owner>, live: map<nat, nat>, hash: Bytes -> Hash,
                   h: Hash, d: nat, r: Rec, a: nat)
    requires Owned(img, t, own, live, hash) && FreeSlotAt(t, h, d) && hash(r.key) == h && r.addr !in live
    requires a == r.addr || (a in own && !own[a].Leaked?)
    ensures OwnerOK(img', Mount(t, h, d, r), live[r.addr := r.len], a, own[r.addr := OwnRec(r.key)][a], hash)
  {
    if a == r.addr {
      assert Mount(t, h, d, r).leaves[h].recs[0] == r;
    } else {
      assert OwnerOK(img, t, live, a, own[a], hash);
    }
  }

  ghost predicate BarAbove(t: Trie, h: Hash, d: nat, bar: nat) {
    d <= HASH_LENGTH && (d > 0 ==> h[..d - 1] in t.bars && t.bars[h[..d - 1]] == bar)
  }

  lemma PokeTargetKept(img: Image, t: Trie, own: map<nat, Owner>, live: map<nat, nat>, hash: Bytes -> Hash,
                       t': Trie, h: Hash, d: nat, bar: nat)
    requires Owned(img, t, own, live, hash) && BarAbove(t, h, d, bar) && t'.bars == t.bars
    ensures PokeTarget(t, t', h, d, bar)
  {
    if d > 0 {
      forall q | q in t'.bars && q != h[..d - 1] ensures t'.bars[q] != bar {
        BarsApart(img, t, own, live, hash, q, h[..d - 1]);
      }
    }
  }

  /** The slot of a bar on the path of h holds the pointer of the next path. */
  lemma SlotOnPath(img: Image, t: Trie, h: Hash, d: nat, bar: nat)
    requires Holds(img, t) && BarAbove(t, h, d, bar) && d > 0
    ensures IsBar(img, bar) && img.blocks[bar].jump[h[d - 1]] == Ptr(t, h[..d])
  {
    assert BarHolds(img, t, h[..d - 1], bar);
    Snoc(h, d - 1);
  }

  lemma CntUp(img: Image, t: Trie, bar: nat, cnt: nat)
    requires Holds(img, t) && IsBar(img, bar)
    ensures Holds(SetBarCnt(img, bar, cnt), t)
  {
    var img' := SetBarCnt(img, bar, cnt);
    forall p | p in t.bars ensures BarHolds(img', t, p, t.bars[p]) { assert BarHolds(img, t, p, t.bars[p]); }
    forall x, i | x in t.leaves && 0 <= i < |t.leaves[x].recs| ensures RecHolds(img', t.leaves[x].recs, i) {
      assert RecHolds(img, t.leaves[x].recs, i);
    }
  }

  function WithCnt(img: Image, bar: nat, d: nat): Image
    requires CanPoke(img, bar, d)
  {
    if d > 0 then SetBarCnt(img, bar, img.blocks[bar].cnt + 1) else img
  }

  /** One more slot in use, and counted. */
  lemma SlotFilled(img: Image, bar: nat, s: Byte, target: nat)
    requires CntOK(img, bar) && img.blocks[bar].jump[s] == 0 && target != 0
    ensures CntOK(SetBarSlot(SetBarCnt(img, bar, img.blocks[bar].cnt + 1), bar, s, target), bar)
  {
    NonZeroSet(img.blocks[bar].jump, s, target, 0);
  }

  /** The blocks besides one bar are the same in both images. */
  ghost predicate SameBut(img: Image, img': Image, bar: nat, d: nat) {
    forall a :: a in img.blocks && !(d > 0 && a == bar) ==> a in img'.blocks && img'.blocks[a] == img.blocks[a]
  }

  lemma OthersCounted(img: Image, img': Image, t: Trie, bar: nat, d: nat)
    requires Counted(img, t) && SameBut(img, img', bar, d)
    ensures forall q :: q in t.bars && !(d > 0 && t.bars[q] == bar) ==> CntOK(img', t.bars[q])
  {
    forall q | q in t.bars && !(d > 0 && t.bars[q] == bar) ensures CntOK(img', t.bars[q]) { assert CntOK(img, t.bars[q]); }
  }

  lemma MountCounted(img: Image, t: Trie, h: Hash, d: nat, r: Rec, bar: nat)
    requires Counted(img, t) && d <= HASH_LENGTH && r.addr != 0
    requires d > 0 ==> h[..d - 1] in t.bars && t.bars[h[..d - 1]] == bar
    requires d > 0 ==> CntOK(img, bar) && img.blocks[bar].jump[h[d - 1]] == 0
    ensures Counted(PokePath(WithCnt(img, bar, d), bar, h, d, r.addr), Mount(t, h, d, r))
  {
    if d > 0 { SlotFilled(img, bar, h[d - 1], r.addr); }
    OthersCounted(img, WithCnt(img, bar, d), t, bar, d);
    CountedAfter(WithCnt(img, bar, d), Mount(t, h, d, r), h, d, bar, r.addr);
  }

  lemma MountHolds(img: Image, t: Trie, own: map<nat, Owner>, live: map<nat, nat>, hash: Bytes -> Hash,
                   h: Hash, d: nat, r: Rec, bar: nat)
    requires Shape(t, hash) && Holds(img, t) && Owned(img, t, own, live, hash)
    requires FreeSlotAt(t, h, d) && BarAbove(t, h, d, bar) && RecHolds(img, [r], 0)
    ensures CanPoke(img, bar, d) && Holds(PokePath(img, bar, h, d, r.addr), Mount(t, h, d, r))
  {
    var t' := Mount(t, h, d, r);
    MountReady(img, t, hash, h, d, r);
    PokeTargetKept(img, t, own, live, hash, t', h, d, bar);
    MountPtr(t, hash, h, d, r, h[..d]);
    Repoint(img, t, t', h, d, bar);
  }

  lemma WithCntHolds(img: Image, t: Trie, own: map<nat, Owner>, live: map<nat, nat>, hash: Bytes -> Hash,
                     h: Hash, d: nat, r: Rec, bar: nat)
    requires Holds(img, t) && Owned(img, t, own, live, hash) && BarAbove(t, h, d, bar) && RecHolds(img, [r], 0)
    ensures CanPoke(img, bar, d)
    ensures var img1 := WithCnt(img, bar, d);
      Holds(img1, t) && RecHolds(img1, [r], 0) && Owned(img1, t, own, live, hash)
  {
    if d > 0 {
      SlotOnPath(img, t, h, d, bar);
      CntUp(img, t, bar, img.blocks[bar].cnt + 1);
      PokeLeaks(img, WithCnt(img, bar, d), own, live, t, hash, bar, d);
      OwnedSame(img, WithCnt(img, bar, d), t, own, live, hash);
    }
  }

  lemma MountBar(img: Image, t: Trie, h: Hash, d: nat, bar: nat)
    requires Holds(img, t) && Counted(img, t) && FreeSlotAt(t, h, d) && BarAbove(t, h, d, bar)
    ensures d > 0 ==> CntOK(img, bar) && img.blocks[bar].jump[h[d - 1]] == 0
  {
    if d > 0 {
      SlotOnPath(img, t, h, d, bar);
      assert CntOK(img, t.bars[h[..d - 1]]);
    }
  }

  /** Set of a key whose slot is empty: counter, then slot. */
  lemma MountCommit(img: Image, t: Trie, own: map<nat, Owner>, live: map<nat, nat>, hash: Bytes -> Hash,
                    h: Hash, d: nat, r: Rec, bar: nat)
    requires TreeOK(img, t, own, live, hash) && FreeSlotAt(t, h, d) && BarAbove(t, h, d, bar)
    requires RecOK(r) && hash(r.key) == h && r.addr !in live && RecHolds(img, [r], 0)
    ensures CanPoke(img, bar, d) && Holds(WithCnt(img, bar, d), t)
    ensures TreeOK(PokePath(WithCnt(img, bar, d), bar, h, d, r.addr), Mount(t, h, d, r),
                   own[r.addr := OwnRec(r.key)], live[r.addr := r.len], hash)
  {
    WithCntHolds(img, t, own, live, hash, h, d, r, bar);
    var img1 := WithCnt(img, bar, d);
    MountHolds(img1, t, own, live, hash, h, d, r, bar);
    MountShape(t, hash, h, d, r);
    MountBar(img, t, h, d, bar);
    MountCounted(img, t, h, d, r, bar);
    PokeLeaks(img1, PokePath(img1, bar, h, d, r.addr), own, live, t, hash, bar, d);
    MountOwned(img1, PokePath(img1, bar, h, d, r.addr), t, own, live, hash, h, d, r);
  }

  lemma OwnedSame(img: Image, img': Image, t: Trie, own: map<nat, Owner>, live: map<nat, nat>, hash: Bytes -> Hash)
    requires Owned(img, t, own, live, hash) && LeaksKept(img, img', own)
    ensures Owned(img', t, own, live, hash)
  {
    forall a | a in own ensures OwnerOK(img', t, live, a, own[a], hash) { assert OwnerOK(img, t, live, a, own[a], hash); }
  }

  /** Poking a bar or the root leaves the leaked blocks alone. */
  lemma PokeLeaks(img: Image, img': Image, own: map<nat, Owner>, live: map<nat, nat>, t: Trie, hash: Bytes -> Hash, bar: nat, d: nat)
    requires Owned(img, t, own, live, hash) && CanPoke(img, bar, d) && SameBut(img, img', bar, d)
    ensures LeaksKept(img, img', own)
  {
    forall a | a in own && own[a].Leaked? && a in img.blocks ensures a in img'.blocks && img'.blocks[a] == img.blocks[a] {
      assert OwnerOK(img, t, live, a, own[a], hash);
    }
  }

  // ---------------------------------------------------------------- change the records of a hash

  ghost predicate ChainHolds(img: Image, recs: seq<Rec>) {
    forall i :: 0 <= i < |recs| ==> RecHolds(img, recs, i)
  }

  lemma RerecReady(img: Image, t: Trie, hash: Bytes -> Hash, h: Hash, recs: seq<Rec>)
    requires Shape(t, hash) && Holds(img, t) && h in t.leaves && |recs| > 0 && ChainHolds(img, recs)
    requires t.leaves[h].depth <= HASH_LENGTH
    ensures ReadyBut(img, t, Rerec(t, h, recs), h, t.leaves[h].depth)
  {
    var t' := Rerec(t, h, recs);
    var d := t.leaves[h].depth;
    forall q, b: Byte | q in t.bars && q in t'.bars && q + [b] != h[..d] ensures Ptr(t', q + [b]) == Ptr(t, q + [b]) {
      RerecPtr(t, hash, h, recs, q + [b]);
    }
    RerecPtr(t, hash, h, recs, []);
    forall x, i | x in t'.leaves && 0 <= i < |t'.leaves[x].recs| ensures RecHolds(img, t'.leaves[x].recs, i) {
      if x != h { assert RecHolds(img, t.leaves[x].recs, i); }
    }
  }

  /** The new head of a chain is mounted. */
  lemma RerecHolds(img: Image, t: Trie, own: map<nat, Owner>, live: map<nat, nat>, hash: Bytes -> Hash,
                   h: Hash, recs: seq<Rec>, bar: nat)
    requires Shape(t, hash) && Holds(img, t) && Owned(img, t, own, live, hash)
    requires h in t.leaves && |recs| > 0 && ChainHolds(img, recs) && BarAbove(t, h, t.leaves[h].depth, bar)
    ensures CanPoke(img, bar, t.leaves[h].depth)
    ensures Holds(PokePath(img, bar, h, t.leaves[h].depth, recs[0].addr), Rerec(t, h, recs))
  {
    var t' := Rerec(t, h, recs);
    var d := t.leaves[h].depth;
    RerecReady(img, t, hash, h, recs);
    PokeTargetKept(img, t, own, live, hash, t', h, d, bar);
    assert t.at[h[..d]] == h by { assert LeafPath(t, hash, h); }
    RerecPtr(t, hash, h, recs, h[..d]);
    Repoint(img, t, t', h, d, bar);
  }

  /** A slot in use stays in use. */
  lemma SlotSwapped(img: Image, bar: nat, s: Byte, target: nat)
    requires CntOK(img, bar) && img.blocks[bar].jump[s] != 0 && target != 0
    ensures CntOK(SetBarSlot(img, bar, s, target), bar)
  {
    NonZeroSet(img.blocks[bar].jump, s, target, 0);
  }

  lemma SwapCounted(img: Image, t: Trie, t': Trie, h: Hash, d: nat, bar: nat, target: nat)
    requires Holds(img, t) && Counted(img, t) && BarAbove(t, h, d, bar) && target != 0 && t'.bars == t.bars
    requires Ptr(t, h[..d]) != 0 && CanPoke(img, bar, d)
    ensures Counted(PokePath(img, bar, h, d, target), t')
  {
    if d > 0 {
      SlotOnPath(img, t, h, d, bar);
      assert CntOK(img, t.bars[h[..d - 1]]);
      SlotSwapped(img, bar, h[d - 1], target);
    }
    OthersCounted(img, img, t, bar, d);
    CountedAfter(img, t', h, d, bar, target);
  }

  lemma LeafPtr(t: Trie, hash: Bytes -> Hash, h: Hash)
    requires Shape(t, hash) && h in t.leaves
    ensures t.leaves[h].depth <= HASH_LENGTH && |t.leaves[h].recs| > 0
    ensures Ptr(t, h[..t.leaves[h].depth]) == t.leaves[h].recs[0].addr != 0
  {
    assert LeafPath(t, hash, h);
    assert ChainPath(t, h[..t.leaves[h].depth]);
    assert RecOK(t.leaves[h].recs[0]);
  }

  // ---- owners of the changed chain

  /** r takes the place of record i of the chain of h, whose block goes to gone: freed (None)
      or leaked. */
  ghost function ReplaceOwn(own: map<nat, Owner>, r: Rec, was: nat, leak: bool): map<nat, Owner> {
    if leak then own[r.addr := OwnRec(r.key)][was := Leaked] else (own - {was})[r.addr := OwnRec(r.key)]
  }

  ghost function ReplaceLive(live: map<nat, nat>, r: Rec, was: nat, leak: bool): map<nat, nat> {
    if leak then live[r.addr := r.len] else (live - {was})[r.addr := r.len]
  }

  lemma ReplaceRecs(img: Image, t: Trie, own: map<nat, Owner>, live: map<nat, nat>, hash: Bytes -> Hash,
                    h: Hash, i: nat, r: Rec, leak: bool)
    requires Shape(t, hash) && Owned(img, t, own, live, hash) && h in t.leaves && i < |t.leaves[h].recs|
    requires r.addr !in live && r.key == t.leaves[h].recs[i].key
    requires Written(BlockOf(t.leaves[h].recs[i := r], i)) <= r.len
    ensures OwnsRecs(ReplaceOwn(own, r, t.leaves[h].recs[i].addr, leak), ReplaceLive(live, r, t.leaves[h].recs[i].addr, leak),
                     t.leaves[h].recs[i := r])
  {
    var recs := t.leaves[h].recs;
    assert LeafPath(t, hash, h);
    var own', live', recs' := ReplaceOwn(own, r, recs[i].addr, leak), ReplaceLive(live, r, recs[i].addr, leak), recs[i := r];
    forall j | 0 <= j < |recs'| ensures RecOwned(own', live', recs', j) {
      assert RecOwned(own, live, recs, j) && RecOwned(own, live, recs, i);
    }
  }

  lemma ReplaceOthers(img: Image, t: Trie, own: map<nat, Owner>, live: map<nat, nat>, hash: Bytes -> Hash,
                      h: Hash, i: nat, r: Rec, leak: bool, x: Hash)
    requires Shape(t, hash) && Owned(img, t, own, live, hash) && h in t.leaves && i < |t.leaves[h].recs|
    requires r.addr !in live && x in t.leaves && x != h
    ensures OwnsRecs(ReplaceOwn(own, r, t.leaves[h].recs[i].addr, leak), ReplaceLive(live, r, t.leaves[h].recs[i].addr, leak),
                     t.leaves[x].recs)
  {
    var recs := t.leaves[x].recs;
    assert RecOwned(own, live, t.leaves[h].recs, i);
    assert LeafPath(t, hash, h) && LeafPath(t, hash, x);
    var was := t.leaves[h].recs[i].addr;
    var own', live' := ReplaceOwn(own, r, was, leak), ReplaceLive(live, r, was, leak);
    forall j | 0 <= j < |recs| ensures RecOwned(own', live', recs, j) {
      assert RecOwned(own, live, recs, j);
    }
  }

  /** What a replace needs: r for the same key, in a new extent, with room for its block. */
  ghost predicate Replaces(t: Trie, live: map<nat, nat>, hash: Bytes -> Hash, h: Hash, i: nat, r: Rec) {
    && h in t.leaves && i < |t.leaves[h].recs|
    && r.addr !in live && r.key == t.leaves[h].recs[i].key && RecOK(r)
    && Written(BlockOf(t.leaves[h].recs[i := r], i)) <= r.len
  }

  lemma ReplaceOwner(img: Image, img': Image, t: Trie, own: map<nat, Owner>, live: map<nat, nat>, hash: Bytes -> Hash,
                     h: Hash, i: nat, r: Rec, leak: bool, a: nat)
    requires Shape(t, hash) && Owned(img, t, own, live, hash) && Replaces(t, live, hash, h, i, r)
    requires var was := t.leaves[h].recs[i].addr; a in own || a == r.addr
    requires a in own ==> !own[a].Leaked?
    requires a != t.leaves[h].recs[i].addr
    ensures var was := t.leaves[h].recs[i].addr;
      OwnerOK(img', Rerec(t, h, t.leaves[h].recs[i := r]), ReplaceLive(live, r, was, leak), a,
              if a == r.addr then OwnRec(r.key) else own[a], hash)
  {
    var recs := t.leaves[h].recs;
    var recs' := recs[i := r];
    assert LeafPath(t, hash, h);
    if a == r.addr {
      assert recs'[i] == r && RecAt(recs', r.key, a);
    } else {
      assert OwnerOK(img, t, live, a, own[a], hash);
      if own[a].OwnRec? && hash(own[a].key) == h {
        var j :| 0 <= j < |recs| && recs[j].key == own[a].key && recs[j].addr == a;
        assert recs'[j] == recs[j];
        assert RecAt(recs', own[a].key, a);
      }
    }
  }

  lemma ReplaceOwned(img: Image, img': Image, t: Trie, own: map<nat, Owner>, live: map<nat, nat>, hash: Bytes -> Hash,
                     h: Hash, i: nat, r: Rec, leak: bool)
    requires Shape(t, hash) && Owned(img, t, own, live, hash) && Replaces(t, live, hash, h, i, r)
    requires LeaksKept(img, img', own)
    requires leak ==> RecHolds(img', t.leaves[h].recs, i)
    ensures var was := t.leaves[h].recs[i].addr;
      Owned(img', Rerec(t, h, t.leaves[h].recs[i := r]), ReplaceOwn(own, r, was, leak), ReplaceLive(live, r, was, leak), hash)
  {
    var recs := t.leaves[h].recs;
    var was := recs[i].addr;
    var t' := Rerec(t, h, recs[i := r]);
    var own', live' := ReplaceOwn(own, r, was, leak), ReplaceLive(live, r, was, leak);
    assert RecOwned(own, live, recs, i);
    forall p | p in t'.bars ensures BarOwned(t', own', live', p) { assert BarOwned(t, own, live, p); }
    forall x, j | x in t'.leaves && 0 <= j < |t'.leaves[x].recs| ensures RecOwned(own', live', t'.leaves[x].recs, j) {
      if x == h { ReplaceRecs(img, t, own, live, hash, h, i, r, leak); }
      else { ReplaceOthers(img, t, own, live, hash, h, i, r, leak, x); }
      assert OwnsRecs(own', live', t'.leaves[x].recs);
    }
    forall a | a in own' ensures OwnerOK(img', t', live', a, own'[a], hash) {
      if a in own && own[a].Leaked? {
        assert OwnerOK(img, t, live, a, own[a], hash);
      } else if a == was {
        assert LeafPath(t, hash, h) && RecOK(recs[i]);
      } else {
        ReplaceOwner(img, img', t, own, live, hash, h, i, r, leak, a);
      }
    }
  }

  lemma ReplaceLeafOK(t: Trie, live: map<nat, nat>, hash: Bytes -> Hash, h: Hash, i: nat, r: Rec)
    requires Shape(t, hash) && Replaces(t, live, hash, h, i, r)
    ensures LeafOK(Leaf(t.leaves[h].depth, t.leaves[h].recs[i := r]), h, hash)
  {
    assert LeafPath(t, hash, h);
  }

  /** Set of a key that is the head of its chain, or alone: the slot or the root is pointed
      to the new block; the old one can go. */
  lemma ReplaceHeadCommit(img: Image, t: Trie, own: map<nat, Owner>, live: map<nat, nat>, hash: Bytes -> Hash,
                          h: Hash, r: Rec, bar: nat)
    requires TreeOK(img, t, own, live, hash) && Replaces(t, live, hash, h, 0, r)
    requires BarAbove(t, h, t.leaves[h].depth, bar)
    requires r.addr in img.blocks && img.blocks[r.addr] == BlockOf(t.leaves[h].recs[0 := r], 0)
    ensures CanPoke(img, bar, t.leaves[h].depth)
    ensures var was := t.leaves[h].recs[0].addr;
      TreeOK(PokePath(img, bar, h, t.leaves[h].depth, r.addr), Rerec(t, h, t.leaves[h].recs[0 := r]),
             ReplaceOwn(own, r, was, false), ReplaceLive(live, r, was, false), hash)
  {
    var recs := t.leaves[h].recs;
    var recs' := recs[0 := r];
    var d := t.leaves[h].depth;
    ReplaceLeafOK(t, live, hash, h, 0, r);
    forall j | 0 <= j < |recs'| ensures RecHolds(img, recs', j) { if j > 0 { assert RecHolds(img, recs, j); } }
    RerecHolds(img, t, own, live, hash, h, recs', bar);
    RerecShape(t, hash, h, recs');
    LeafPtr(t, hash, h);
    SwapCounted(img, t, Rerec(t, h, recs'), h, d, bar, r.addr);
    var img' := PokePath(img, bar, h, d, r.addr);
    PokeLeaks(img, img', own, live, t, hash, bar, d);
    ReplaceOwned(img, img', t, own, live, hash, h, 0, r, false);
  }

  lemma RelinkHolds(img: Image, t: Trie, own: map<nat, Owner>, live: map<nat, nat>, hash: Bytes -> Hash, h: Hash, i: nat, r: Rec)
    requires Shape(t, hash) && Holds(img, t) && Owned(img, t, own, live, hash) && Replaces(t, live, hash, h, i, r) && 0 < i
    requires r.addr in img.blocks && img.blocks[r.addr] == BlockOf(t.leaves[h].recs[i := r], i)
    ensures var prev := t.leaves[h].recs[i - 1].addr;
      IsDataEx(img, prev) && Holds(SetExNext(img, prev, r.addr), Rerec(t, h, t.leaves[h].recs[i := r]))
  {
    var recs := t.leaves[h].recs;
    var recs' := recs[i := r];
    var prev := recs[i - 1].addr;
    var t' := Rerec(t, h, recs');
    assert RecHolds(img, recs, i - 1);
    var img' := SetExNext(img, prev, r.addr);
    LeafPtr(t, hash, h);
    forall p | p in t'.bars ensures BarHolds(img', t', p, t'.bars[p]) {
      assert BarHolds(img, t, p, t.bars[p]);
      forall b: Byte ensures Ptr(t', p + [b]) == Ptr(t, p + [b]) { RerecPtr(t, hash, h, recs', p + [b]); }
    }
    RerecPtr(t, hash, h, recs', []);
    assert RecOwned(own, live, recs, i - 1);
    assert LeafPath(t, hash, h);
    forall x, j | x in t'.leaves && 0 <= j < |t'.leaves[x].recs| ensures RecHolds(img', t'.leaves[x].recs, j) {
      assert RecHolds(img, t.leaves[x].recs, j) && RecOwned(own, live, t.leaves[x].recs, j);
      if x != h { assert LeafPath(t, hash, x); }
    }
  }

  /** Set of a key inside a chain: the predecessor is pointed to the new block, which has the
      kind and the successor of the old one; the old one is left behind. */
  lemma ReplaceInsideCommit(img: Image, t: Trie, own: map<nat, Owner>, live: map<nat, nat>, hash: Bytes -> Hash, h: Hash, i: nat, r: Rec)
    requires TreeOK(img, t, own, live, hash) && Replaces(t, live, hash, h, i, r) && 0 < i
    requires r.addr in img.blocks && img.blocks[r.addr] == BlockOf(t.leaves[h].recs[i := r], i)
    ensures var prev, was := t.leaves[h].recs[i - 1].addr, t.leaves[h].recs[i].addr;
      IsDataEx(img, prev)
      && TreeOK(SetExNext(img, prev, r.addr), Rerec(t, h, t.leaves[h].recs[i := r]),
                ReplaceOwn(own, r, was, true), ReplaceLive(live, r, was, true), hash)
  {
    var recs := t.leaves[h].recs;
    var prev := recs[i - 1].addr;
    RelinkHolds(img, t, own, live, hash, h, i, r);
    ReplaceLeafOK(t, live, hash, h, i, r);
    RerecShape(t, hash, h, recs[i := r]);
    var img' := SetExNext(img, prev, r.addr);
    assert RecOwned(own, live, recs, i - 1) && RecOwned(own, live, recs, i) && RecHolds(img, recs, i);
    assert LeafPath(t, hash, h);
    forall p | p in t.bars ensures CntOK(img', t.bars[p]) { assert CntOK(img, t.bars[p]); }
    ReplaceOwned(img, img', t, own, live, hash, h, i, r, true);
  }

  // ---------------------------------------------------------------- a new key of a chained hash

  ghost predicate Prepends(t: Trie, live: map<nat, nat>, hash: Bytes -> Hash, h: Hash, r: Rec) {
    && h in t.leaves && t.leaves[h].depth == HASH_LENGTH && |t.leaves[h].recs| <= HASH_COLLISION_MAX + 1
    && r.addr !in live && RecOK(r) && hash(r.key) == h
    && (forall i :: 0 <= i < |t.leaves[h].recs| ==> t.leaves[h].recs[i].key != r.key)
    && Written(DataEx(r.len, 0, r.key, r.value)) <= r.len
  }

  lemma PrependChain(img: Image, t: Trie, h: Hash, r: Rec)
    requires Holds(img, t) && h in t.leaves && |t.leaves[h].recs| > 0
    requires r.addr in img.blocks && img.blocks[r.addr] == DataEx(r.len, t.leaves[h].recs[0].addr, r.key, r.value)
    ensures ChainHolds(img, [r] + t.leaves[h].recs)
  {
    var recs := t.leaves[h].recs;
    var recs' := [r] + recs;
    forall i | 0 <= i < |recs'| ensures RecHolds(img, recs', i) {
      if i > 0 { assert RecHolds(img, recs, i - 1); }
    }
  }

  lemma PrependRecs(img: Image, t: Trie, own: map<nat, Owner>, live: map<nat, nat>, hash: Bytes -> Hash, h: Hash, r: Rec,
                    own': map<nat, Owner>, live': map<nat, nat>)
    requires Owned(img, t, own, live, hash) && Grows(own, live, own', live') && h in t.leaves && |t.leaves[h].recs| > 0
    requires r.addr in own' && own'[r.addr] == OwnRec(r.key) && live'[r.addr] == r.len
    requires Written(DataEx(r.len, 0, r.key, r.value)) <= r.len
    ensures OwnsRecs(own', live', [r] + t.leaves[h].recs)
  {
    var recs := t.leaves[h].recs;
    var recs' := [r] + recs;
    forall i | 0 <= i < |recs'| ensures RecOwned(own', live', recs', i) {
      if i > 0 { assert RecOwned(own, live, recs, i - 1); }
    }
  }

  lemma PrependOwner(img: Image, img': Image, t: Trie, own: map<nat, Owner>, live: map<nat, nat>, hash: Bytes -> Hash,
                     h: Hash, r: Rec, live': map<nat, nat>, a: nat)
    requires Owned(img, t, own, live, hash) && h in t.leaves && hash(r.key) == h
    requires a in own && !own[a].Leaked?
    ensures OwnerOK(img', Rerec(t, h, [r] + t.leaves[h].recs), live', a, own[a], hash)
  {
    var recs := t.leaves[h].recs;
    assert OwnerOK(img, t, live, a, own[a], hash);
    if own[a].OwnRec? && hash(own[a].key) == h {
      var j :| 0 <= j < |recs| && recs[j].key == own[a].key && recs[j].addr == a;
      assert ([r] + recs)[j + 1] == recs[j];
    }
  }

  lemma PrependOwned(img: Image, img': Image, t: Trie, own: map<nat, Owner>, live: map<nat, nat>, hash: Bytes -> Hash, h: Hash, r: Rec)
    requires Shape(t, hash) && Owned(img, t, own, live, hash) && Prepends(t, live, hash, h, r) && LeaksKept(img, img', own)
    ensures Owned(img', Rerec(t, h, [r] + t.leaves[h].recs), own[r.addr := OwnRec(r.key)], live[r.addr := r.len], hash)
  {
    var t' := Rerec(t, h, [r] + t.leaves[h].recs);
    var own', live' := own[r.addr := OwnRec(r.key)], live[r.addr := r.len];
    LeafPtr(t, hash, h);
    forall p | p in t'.bars ensures BarOwned(t', own', live', p) { OldBarOwned(img, t, own, live, hash, t', own', live', p); }
    forall x | x in t'.leaves ensures OwnsRecs(own', live', t'.leaves[x].recs) {
      if x == h { PrependRecs(img, t, own, live, hash, h, r, own', live'); }
      else { OldRecsOwned(img, t, own, live, hash, own', live', x); }
    }
    forall a | a in own' && !(a in own && own[a].Leaked?) ensures OwnerOK(img', t', live', a, own'[a], hash) {
      if a == r.addr { assert t'.leaves[h].recs[0] == r; }
      else { PrependOwner(img, img', t, own, live, hash, h, r, live', a); }
    }
    OwnedMore(img, img', t, t', own, own', live, live', hash);
  }

  lemma PrependLeafOK(t: Trie, live: map<nat, nat>, hash: Bytes -> Hash, h: Hash, r: Rec)
    requires Shape(t, hash) && Prepends(t, live, hash, h, r)
    ensures LeafOK(Leaf(HASH_LENGTH, [r] + t.leaves[h].recs), h, hash)
  {
    var recs := t.leaves[h].recs;
    assert LeafPath(t, hash, h);
    assert forall i :: 1 <= i < |recs| + 1 ==> ([r] + recs)[i] == recs[i - 1];
  }

  /** Set of a new key whose hash hangs at the last level already: it becomes the head of
      the chain. */
  lemma PrependCommit(img: Image, t: Trie, own: map<nat, Owner>, live: map<nat, nat>, hash: Bytes -> Hash, h: Hash, r: Rec, bar: nat)
    requires TreeOK(img, t, own, live, hash) && Prepends(t, live, hash, h, r) && BarAbove(t, h, HASH_LENGTH, bar)
    requires |t.leaves[h].recs| > 0
    requires r.addr in img.blocks && img.blocks[r.addr] == DataEx(r.len, t.leaves[h].recs[0].addr, r.key, r.value)
    ensures CanPoke(img, bar, HASH_LENGTH)
    ensures TreeOK(PokePath(img, bar, h, HASH_LENGTH, r.addr), Rerec(t, h, [r] + t.leaves[h].recs),
                   own[r.addr := OwnRec(r.key)], live[r.addr := r.len], hash)
  {
    var recs' := [r] + t.leaves[h].recs;
    PrependChain(img, t, h, r);
    PrependLeafOK(t, live, hash, h, r);
    RerecHolds(img, t, own, live, hash, h, recs', bar);
    RerecShape(t, hash, h, recs');
    LeafPtr(t, hash, h);
    SwapCounted(img, t, Rerec(t, h, recs'), h, HASH_LENGTH, bar, r.addr);
    var img' := PokePath(img, bar, h, HASH_LENGTH, r.addr);
    PokeLeaks(img, img', own, live, t, hash, bar, HASH_LENGTH);
    PrependOwned(img, img', t, own, live, hash, h, r);
  }

  // ---------------------------------------------------------------- split

  /** The bar written at depth i of the split: at the deepest level it holds both chains, or
      the one of an equal hash; above, the next new bar. */
  function SplitBar(h: Hash, g: Hash, i: nat, D: nat, newAddr: nat, oldAddr: nat, below: nat): Block
    requires i < HASH_LENGTH
  {
    if i < D then Bar(1, NoSlots()[h[i] := below])
    else if g == h then Bar(1, NoSlots()[h[i] := newAddr])
    else Bar(2, NoSlots()[g[i] := oldAddr][h[i] := newAddr])
  }

  ghost predicate SplitBarsWritten(img: Image, t: Trie, h: Hash, g: Hash, from: nat, D: nat, nb: map<Bytes, nat>, r: Rec) {
    && D < HASH_LENGTH && g in t.leaves && |t.leaves[g].recs| > 0
    && forall i :: from <= i <= D ==> SplitBarWritten(img, t, h, g, D, nb, r, i)
  }

  ghost predicate SplitBarWritten(img: Image, t: Trie, h: Hash, g: Hash, D: nat, nb: map<Bytes, nat>, r: Rec, i: nat)
    requires i <= D < HASH_LENGTH && g in t.leaves && |t.leaves[g].recs| > 0
  {
    && h[..i] in nb && nb[h[..i]] in img.blocks
    && (i < D ==> h[..i + 1] in nb)
    && img.blocks[nb[h[..i]]] ==
         SplitBar(h, g, i, D, r.addr, t.leaves[g].recs[0].addr, if i < D then nb[h[..i + 1]] else 0)
  }

  lemma SplitBarHolds(img: Image, t: Trie, hash: Bytes -> Hash, h: Hash, g: Hash, k: nat, D: nat, nb: map<Bytes, nat>, r: Rec, i: nat)
    requires Shape(t, hash) && SplitOK(t, h, g, k, D) && NewBars(nb, h, k, D) && k <= i <= D
    requires SplitBarWritten(img, t, h, g, D, nb, r, i)
    ensures BarHolds(img, Split(t, h, g, k, D, nb, r), h[..i], nb[h[..i]])
  {
    var t' := Split(t, h, g, k, D, nb, r);
    var p := h[..i];
    var a := nb[p];
    forall b: Byte ensures img.blocks[a].jump[b] == Ptr(t', p + [b]) {
      SplitChild(t, hash, h, g, k, D, nb, r, i, b);
    }
  }

  lemma SplitChild(t: Trie, hash: Bytes -> Hash, h: Hash, g: Hash, k: nat, D: nat, nb: map<Bytes, nat>, r: Rec, i: nat, b: Byte)
    requires Shape(t, hash) && SplitOK(t, h, g, k, D) && NewBars(nb, h, k, D) && k <= i <= D
    ensures Ptr(Split(t, h, g, k, D, nb, r), h[..i] + [b]) ==
      if b == h[i] then (if i < D then nb[h[..i + 1]] else r.addr)
      else if i == D && b == g[i] then t.leaves[g].recs[0].addr
      else 0
  {
    var q := h[..i] + [b];
    SplitPtr(t, hash, h, g, k, D, nb, r, q);
    Snoc(h, i);
    Snoc(g, i);
    assert q[i] == b && q[..i] == h[..i];
    assert q[..k] == h[..k];
    BelowSplit(t, hash, h, k, q);
    if i == D { assert g[..D] == h[..D]; }
  }

  lemma SplitElsewhere(t: Trie, hash: Bytes -> Hash, h: Hash, g: Hash, k: nat, D: nat, nb: map<Bytes, nat>, r: Rec, q: Bytes, b: Byte)
    requires Shape(t, hash) && SplitOK(t, h, g, k, D) && NewBars(nb, h, k, D)
    requires q in t.bars && q + [b] != h[..k]
    ensures Ptr(Split(t, h, g, k, D, nb, r), q + [b]) == Ptr(t, q + [b])
  {
    var c := q + [b];
    SplitPtr(t, hash, h, g, k, D, nb, r, c);
    assert c[..|q|] == q;
    assert BarPath(t, q) && ChainPath(t, h[..k]);
    if |q| >= k && q[..k] == h[..k] { BelowSplit(t, hash, h, k, q); }
  }

  lemma SplitReady(img: Image, t: Trie, hash: Bytes -> Hash, h: Hash, g: Hash, k: nat, D: nat, nb: map<Bytes, nat>, r: Rec)
    requires Shape(t, hash) && Holds(img, t) && SplitOK(t, h, g, k, D) && NewBars(nb, h, k, D)
    requires SplitBarsWritten(img, t, h, g, k, D, nb, r)
    requires ChainHolds(img, if g == h then [r] + t.leaves[g].recs else [r])
    ensures ReadyBut(img, t, Split(t, h, g, k, D, nb, r), h, k)
  {
    var t' := Split(t, h, g, k, D, nb, r);
    forall q | q in t'.bars ensures if q in t.bars then t'.bars[q] == t.bars[q] else BarHolds(img, t', q, t'.bars[q]) {
      assert ChainPath(t, h[..k]);
      if q in t.bars {
        OldPathsApart(t, hash, h, k, D, nb, q);
      } else {
        assert SplitBarWritten(img, t, h, g, D, nb, r, |q|);
        SplitBarHolds(img, t, hash, h, g, k, D, nb, r, |q|);
      }
    }
    forall q, b: Byte | q in t.bars && q in t'.bars && q + [b] != h[..k] ensures Ptr(t', q + [b]) == Ptr(t, q + [b]) {
      SplitElsewhere(t, hash, h, g, k, D, nb, r, q, b);
    }
    SplitPtr(t, hash, h, g, k, D, nb, r, []);
    forall x, i | x in t'.leaves && 0 <= i < |t'.leaves[x].recs| ensures RecHolds(img, t'.leaves[x].recs, i) {
      if x != h { assert RecHolds(img, t.leaves[x].recs, i); }
    }
  }

  // ---- owners

  /** The new record and the new bars, and no others, joined the owners. */
  ghost predicate SplitOwners(own: map<nat, Owner>, live: map<nat, nat>, own': map<nat, Owner>, live': map<nat, nat>,
                              nb: map<Bytes, nat>, r: Rec) {
    && Grows(own, live, own', live')
    && r.addr in own' && own'[r.addr] == OwnRec(r.key) && live'[r.addr] == r.len
    && (forall q :: q in nb ==> nb[q] in own' && nb[q] !in own && own'[nb[q]] == OwnBar(q) && live'[nb[q]] == BAR_SIZE)
    && (forall a :: a in own' && a !in own ==> a == r.addr || (own'[a].OwnBar? && own'[a].path in nb && nb[own'[a].path] == a))
  }

  lemma SplitOwner(img: Image, img': Image, t: Trie, own: map<nat, Owner>, live: map<nat, nat>, hash: Bytes -> Hash,
                   h: Hash, g: Hash, k: nat, D: nat, nb: map<Bytes, nat>, r: Rec, live': map<nat, nat>, a: nat)
    requires Shape(t, hash) && Owned(img, t, own, live, hash) && SplitOK(t, h, g, k, D) && NewBars(nb, h, k, D)
    requires hash(r.key) == h && a in own && !own[a].Leaked?
    ensures OwnerOK(img', Split(t, h, g, k, D, nb, r), live', a, own[a], hash)
  {
    var t' := Split(t, h, g, k, D, nb, r);
    assert OwnerOK(img, t, live, a, own[a], hash) && ChainPath(t, h[..k]);
    match own[a]
    case OwnBar(p) => OldPathsApart(t, hash, h, k, D, nb, p);
    case OwnRec(key) =>
      var x := hash(key);
      if x == h && g == h {
        var recs := t.leaves[g].recs;
        var j :| 0 <= j < |recs| && recs[j].key == key && recs[j].addr == a;
        assert ([r] + recs)[j + 1] == recs[j];
      }
    case Leaked =>
  }

  lemma SplitRecs(img: Image, t: Trie, own: map<nat, Owner>, live: map<nat, nat>, hash: Bytes -> Hash,
                  h: Hash, g: Hash, k: nat, D: nat, nb: map<Bytes, nat>, r: Rec, own': map<nat, Owner>, live': map<nat, nat>, x: Hash)
    requires Owned(img, t, own, live, hash) && SplitOK(t, h, g, k, D)
    requires SplitOwners(own, live, own', live', nb, r)
    requires Written(if g == h then DataEx(r.len, 0, r.key, r.value) else Data(r.len, r.key, r.value)) <= r.len
    requires x in Split(t, h, g, k, D, nb, r).leaves
    ensures OwnsRecs(own', live', Split(t, h, g, k, D, nb, r).leaves[x].recs)
  {
    if x == h {
      if g == h { PrependRecs(img, t, own, live, hash, h, r, own', live'); }
    } else {
      OldRecsOwned(img, t, own, live, hash, own', live', x);
    }
  }

  lemma SplitOwned(img: Image, img': Image, t: Trie, own: map<nat, Owner>, live: map<nat, nat>, hash: Bytes -> Hash,
                   h: Hash, g: Hash, k: nat, D: nat, nb: map<Bytes, nat>, r: Rec, own': map<nat, Owner>, live': map<nat, nat>)
    requires Shape(t, hash) && Owned(img, t, own, live, hash) && SplitOK(t, h, g, k, D) && NewBars(nb, h, k, D)
    requires SplitOwners(own, live, own', live', nb, r) && LeaksKept(img, img', own)
    requires RecOK(r) && hash(r.key) == h
    requires Written(if g == h then DataEx(r.len, 0, r.key, r.value) else Data(r.len, r.key, r.value)) <= r.len
    ensures Owned(img', Split(t, h, g, k, D, nb, r), own', live', hash)
  {
    var t' := Split(t, h, g, k, D, nb, r);
    forall p | p in t'.bars ensures BarOwned(t', own', live', p) {
      if p !in nb { OldBarOwned(img, t, own, live, hash, t', own', live', p); }
    }
    forall x | x in t'.leaves ensures OwnsRecs(own', live', t'.leaves[x].recs) {
      SplitRecs(img, t, own, live, hash, h, g, k, D, nb, r, own', live', x);
    }
    forall a | a in own' && !(a in own && own[a].Leaked?) ensures OwnerOK(img', t', live', a, own'[a], hash) {
      if a in own { SplitOwner(img, img', t, own, live, hash, h, g, k, D, nb, r, live', a); }
      else if a == r.addr { assert t'.leaves[h].recs[0] == r; }
    }
    OwnedMore(img, img', t, t', own, own', live, live', hash);
  }

  // ---- counters

  lemma SplitBarCounted(img: Image, t: Trie, h: Hash, g: Hash, k: nat, D: nat, nb: map<Bytes, nat>, r: Rec, i: nat)
    requires SplitOK(t, h, g, k, D) && NewBars(nb, h, k, D) && k <= i <= D
    requires SplitBarWritten(img, t, h, g, D, nb, r, i)
    requires r.addr != 0 && t.leaves[g].recs[0].addr != 0
    ensures CntOK(img, nb[h[..i]])
  {
    NonZeroNone(0);
    if i < D {
      NonZeroSet(NoSlots(), h[i], nb[h[..i + 1]], 0);
    } else if g == h {
      NonZeroSet(NoSlots(), h[i], r.addr, 0);
    } else {
      NonZeroSet(NoSlots(), g[i], t.leaves[g].recs[0].addr, 0);
      NonZeroSet(NoSlots()[g[i] := t.leaves[g].recs[0].addr], h[i], r.addr, 0);
    }
  }

  lemma SplitCounted(img: Image, t: Trie, own: map<nat, Owner>, live: map<nat, nat>, hash: Bytes -> Hash,
                     h: Hash, g: Hash, k: nat, D: nat, nb: map<Bytes, nat>, r: Rec, bar: nat, target: nat)
    requires TreeOK(img, t, own, live, hash) && SplitOK(t, h, g, k, D) && NewBars(nb, h, k, D)
    requires SplitBarsWritten(img, t, h, g, k, D, nb, r) && r.addr != 0
    requires BarAbove(t, h, k, bar) && CanPoke(img, bar, k) && target != 0
    requires forall q :: q in nb ==> nb[q] !in own
    ensures Counted(PokePath(img, bar, h, k, target), Split(t, h, g, k, D, nb, r))
  {
    var t' := Split(t, h, g, k, D, nb, r);
    LeafPtr(t, hash, g);
    assert ChainPath(t, h[..k]);
    if k > 0 {
      SlotOnPath(img, t, h, k, bar);
      assert CntOK(img, t.bars[h[..k - 1]]);
      SlotSwapped(img, bar, h[k - 1], target);
      OldPathsApart(t, hash, h, k, D, nb, h[..k - 1]);
    }
    forall q | q in t'.bars && !(k > 0 && t'.bars[q] == bar) ensures CntOK(img, t'.bars[q]) {
      if q in nb {
        assert SplitBarWritten(img, t, h, g, D, nb, r, |q|);
        SplitBarCounted(img, t, h, g, k, D, nb, r, |q|);
      } else {
        assert CntOK(img, t.bars[q]);
      }
    }
    CountedAfter(img, t', h, k, bar, target);
  }

  ghost predicate SplitStaged(img: Image, t: Trie, own: map<nat, Owner>, live: map<nat, nat>, hash: Bytes -> Hash,
                              h: Hash, g: Hash, k: nat, D: nat, nb: map<Bytes, nat>, r: Rec,
                              own': map<nat, Owner>, live': map<nat, nat>) {
    && TreeOK(img, t, own, live, hash) && SplitOK(t, h, g, k, D) && NewBars(nb, h, k, D)
    && SplitBarsWritten(img, t, h, g, k, D, nb, r)
    && ChainHolds(img, if g == h then [r] + t.leaves[g].recs else [r])
    && SplitOwners(own, live, own', live', nb, r)
    && RecOK(r) && hash(r.key) == h && (g == h ==> r.key != t.leaves[g].recs[0].key)
    && Written(if g == h then DataEx(r.len, 0, r.key, r.value) else Data(r.len, r.key, r.value)) <= r.len
  }

  lemma SplitTarget(img: Image, t: Trie, own: map<nat, Owner>, live: map<nat, nat>, hash: Bytes -> Hash,
                    h: Hash, g: Hash, k: nat, D: nat, nb: map<Bytes, nat>, r: Rec, bar: nat)
    requires Shape(t, hash) && Owned(img, t, own, live, hash) && SplitOK(t, h, g, k, D) && NewBars(nb, h, k, D)
    requires BarAbove(t, h, k, bar)
    requires forall q :: q in nb ==> nb[q] !in own
    ensures PokeTarget(t, Split(t, h, g, k, D, nb, r), h, k, bar)
  {
    var t' := Split(t, h, g, k, D, nb, r);
    if k > 0 {
      var p := h[..k - 1];
      assert BarOwned(t, own, live, p);
      OldPathsApart(t, hash, h, k, D, nb, p);
      forall q | q in t'.bars && q != p ensures t'.bars[q] != bar {
        if q !in nb { BarsApart(img, t, own, live, hash, p, q); }
      }
    }
  }

  /** Set of a key whose path is taken by another chain: the new bars are all on the file, and
      one pointer, that at depth k, mounts them. */
  lemma SplitCommit(img: Image, t: Trie, own: map<nat, Owner>, live: map<nat, nat>, hash: Bytes -> Hash,
                    h: Hash, g: Hash, k: nat, D: nat, nb: map<Bytes, nat>, r: Rec,
                    own': map<nat, Owner>, live': map<nat, nat>, bar: nat)
    requires SplitStaged(img, t, own, live, hash, h, g, k, D, nb, r, own', live') && BarAbove(t, h, k, bar)
    ensures CanPoke(img, bar, k) && h[..k] in nb
    ensures TreeOK(PokePath(img, bar, h, k, nb[h[..k]]), Split(t, h, g, k, D, nb, r), own', live', hash)
  {
    var t' := Split(t, h, g, k, D, nb, r);
    SplitReady(img, t, hash, h, g, k, D, nb, r);
    SplitTarget(img, t, own, live, hash, h, g, k, D, nb, r, bar);
    SplitPtr(t, hash, h, g, k, D, nb, r, h[..k]);
    Repoint(img, t, t', h, k, bar);
    SplitShape(t, hash, h, g, k, D, nb, r);
    SplitCounted(img, t, own, live, hash, h, g, k, D, nb, r, bar, nb[h[..k]]);
    var img' := PokePath(img, bar, h, k, nb[h[..k]]);
    PokeLeaks(img, img', own, live, t, hash, bar, k);
    SplitOwned(img, img', t, own, live, hash, h, g, k, D, nb, r, own', live');
  }

  // ---------------------------------------------------------------- prune

  /** The chain of h is one record at depth d; the bars of its path deeper than keep count one
      slot, and that at keep, if any, more. */
  ghost predicate PruneAt(img: Image, t: Trie, h: Hash, d: nat, keep: int) {
    && h in t.leaves && t.leaves[h].depth == d <= HASH_LENGTH && |t.leaves[h].recs| == 1 && -1 <= keep < d
    && (forall i :: keep < i < d ==> CountsOne(img, t, h, i))
    && (keep >= 0 ==> h[..keep] in t.bars && IsBar(img, t.bars[h[..keep]]) && img.blocks[t.bars[h[..keep]]].cnt > 1)
  }

  ghost predicate CountsOne(img: Image, t: Trie, h: Hash, i: nat)
    requires i <= HASH_LENGTH
  {
    h[..i] in t.bars && IsBar(img, t.bars[h[..i]]) && img.blocks[t.bars[h[..i]]].cnt == 1
  }

  lemma PtrNonZero(t: Trie, hash: Bytes -> Hash, q: Bytes)
    requires Shape(t, hash) && (q in t.bars || q in t.at)
    ensures Ptr(t, q) != 0
  {
    assert BarPath(t, q);
    if q !in t.bars {
      var x := t.at[q];
      assert ChainPath(t, q) && LeafPath(t, hash, x);
      assert RecOK(t.leaves[x].recs[0]);
    }
  }

  /** A path below a bar that counts one is the path of h. */
  lemma OnlyChild(img: Image, t: Trie, hash: Bytes -> Hash, h: Hash, d: nat, keep: int, q: Bytes, i: nat)
    requires Shape(t, hash) && Holds(img, t) && Counted(img, t) && PruneAt(img, t, h, d, keep)
    requires keep < i < d && (q in t.bars || q in t.at) && |q| == i + 1 && q[..i] == h[..i]
    ensures q == h[..i + 1]
  {
    var p := h[..i];
    assert CountsOne(img, t, h, i);
    assert BarHolds(img, t, p, t.bars[p]) && CntOK(img, t.bars[p]);
    assert q == p + [q[i]];
    PtrNonZero(t, hash, q);
    PathInUse(t, hash, h, i + 1);
    Snoc(h, i);
    PtrNonZero(t, hash, h[..i + 1]);
    OnlySlot(img.blocks[t.bars[p]].jump, q[i], h[i]);
  }

  lemma PathInUse(t: Trie, hash: Bytes -> Hash, h: Hash, i: nat)
    requires Shape(t, hash) && h in t.leaves && i <= t.leaves[h].depth <= HASH_LENGTH
    ensures h[..i] in t.bars || h[..i] in t.at
  {
    var d := t.leaves[h].depth;
    assert h[..d] in t.at by { assert LeafPath(t, hash, h); }
    if i < d {
      Closed(t, hash, h[..d], i);
      assert h[..d][..i] == h[..i];
    }
  }

  lemma PruneIsOK(img: Image, t: Trie, hash: Bytes -> Hash, h: Hash, d: nat, keep: int)
    requires Shape(t, hash) && Holds(img, t) && Counted(img, t) && PruneAt(img, t, h, d, keep)
    ensures PruneOK(t, h, d, keep)
  {
    forall q, i | keep < i < d && (q in t.bars || q in t.at) && |q| == i + 1 && q[..i] == h[..i] ensures q == h[..i + 1] {
      OnlyChild(img, t, hash, h, d, keep, q, i);
    }
  }

  lemma PruneReady(img: Image, t: Trie, hash: Bytes -> Hash, h: Hash, d: nat, keep: int)
    requires Shape(t, hash) && Holds(img, t) && PruneOK(t, h, d, keep)
    ensures ReadyBut(img, t, Prune(t, h, d, keep), h, keep + 1)
    ensures Ptr(Prune(t, h, d, keep), h[..keep + 1]) == 0
  {
    var t' := Prune(t, h, d, keep);
    PrunePtr(t, hash, h, d, keep, h[..keep + 1]);
    PrunePtr(t, hash, h, d, keep, []);
    forall q, b: Byte | q in t.bars && q in t'.bars && q + [b] != h[..keep + 1] ensures Ptr(t', q + [b]) == Ptr(t, q + [b]) {
      var c := q + [b];
      PrunePtr(t, hash, h, d, keep, c);
      if keep < |c| <= d && c == h[..|c|] { SnocInj(h, |c|, q, b); }
    }
    forall x, i | x in t'.leaves && 0 <= i < |t'.leaves[x].recs| ensures RecHolds(img, t'.leaves[x].recs, i) {
      assert RecHolds(img, t.leaves[x].recs, i);
    }
  }

  /** The addresses a delete sets free: the bars of the path below keep, and the record. */
  ghost function Gone(t: Trie, h: Hash, d: nat, keep: int): set<nat>
    requires d <= HASH_LENGTH && h in t.leaves && |t.leaves[h].recs| > 0
    requires forall i :: keep < i < d && 0 <= i ==> h[..i] in t.bars
  {
    (set i: nat | i < d && keep < i :: t.bars[h[..i]]) + {t.leaves[h].recs[0].addr}
  }

  lemma PruneBarsOnPath(img: Image, t: Trie, h: Hash, d: nat, keep: int)
    requires PruneAt(img, t, h, d, keep)
    ensures forall i :: keep < i < d && 0 <= i ==> h[..i] in t.bars
  {
    forall i | keep < i < d && 0 <= i ensures h[..i] in t.bars { assert CountsOne(img, t, h, i); }
  }

  lemma PruneOwned(img: Image, img': Image, t: Trie, own: map<nat, Owner>, live: map<nat, nat>, hash: Bytes -> Hash,
                   h: Hash, d: nat, keep: int)
    requires Shape(t, hash) && Owned(img, t, own, live, hash) && PruneAt(img, t, h, d, keep) && LeaksKept(img, img', own)
    requires forall i :: keep < i < d && 0 <= i ==> h[..i] in t.bars
    ensures Owned(img', Prune(t, h, d, keep), own - Gone(t, h, d, keep), live - Gone(t, h, d, keep), hash)
  {
    var t' := Prune(t, h, d, keep);
    var gone := Gone(t, h, d, keep);
    var own', live' := own - gone, live - gone;
    var key := t.leaves[h].recs[0].key;
    assert LeafPath(t, hash, h);
    assert RecOwned(own, live, t.leaves[h].recs, 0);
    forall a | a in gone 
      ensures a in own && (own[a] == OwnRec(key) || (own[a].OwnBar? && own[a].path !in t'.bars))
    {
      if a != t.leaves[h].recs[0].addr {
        var i: nat :| i < d && keep < i && t.bars[h[..i]] == a;
        assert BarOwned(t, own, live, h[..i]);
      }
    }
    forall p | p in t'.bars ensures BarOwned(t', own', live', p) { assert BarOwned(t, own, live, p); }
    forall x, i | x in t'.leaves && 0 <= i < |t'.leaves[x].recs| ensures RecOwned(own', live', t'.leaves[x].recs, i) {
      assert RecOwned(own, live, t.leaves[x].recs, i);
      assert LeafPath(t, hash, x);
    }
    forall a | a in own' ensures OwnerOK(img', t', live', a, own'[a], hash) {
      assert OwnerOK(img, t, live, a, own[a], hash);
    }
  }

  function WithCntDown(img: Image, bar: nat, k: nat): Image
    requires k > 0 ==> IsBar(img, bar) && img.blocks[bar].cnt > 0
  {
    if k > 0 then SetBarCnt(img, bar, img.blocks[bar].cnt - 1) else img
  }

  /** One slot less in use, and counted. */
  lemma SlotEmptied(img: Image, bar: nat, s: Byte)
    requires CntOK(img, bar) && img.blocks[bar].jump[s] != 0 && img.blocks[bar].cnt > 1
    ensures var img1 := SetBarSlot(img, bar, s, 0); CntOK(SetBarCnt(img1, bar, img.blocks[bar].cnt - 1), bar)
  {
    NonZeroSet(img.blocks[bar].jump, s, 0, 0);
  }

  lemma PruneCounted(img: Image, t: Trie, hash: Bytes -> Hash, h: Hash, d: nat, keep: int, bar: nat)
    requires Shape(t, hash) && Holds(img, t) && Counted(img, t) && PruneAt(img, t, h, d, keep)
    requires keep >= 0 ==> h[..keep] in t.bars && t.bars[h[..keep]] == bar
    requires CanPoke(img, bar, keep + 1)
    ensures var img1 := PokePath(img, bar, h, keep + 1, 0);
      && (keep >= 0 ==> IsBar(img1, bar) && img1.blocks[bar].cnt > 0)
      && Counted(WithCntDown(img1, bar, keep + 1), Prune(t, h, d, keep))
  {
    var t' := Prune(t, h, d, keep);
    var img1 := PokePath(img, bar, h, keep + 1, 0);
    if keep >= 0 {
      assert CntOK(img, t.bars[h[..keep]]);
      SlotOnPath(img, t, h, keep + 1, bar);
      PathInUse(t, hash, h, keep + 1);
      PtrNonZero(t, hash, h[..keep + 1]);
      SlotEmptied(img, bar, h[keep]);
    }
    var img2 := WithCntDown(img1, bar, keep + 1);
    forall q | q in t'.bars ensures CntOK(img2, t'.bars[q]) { assert CntOK(img, t.bars[q]); }
  }

  lemma PruneHolds(img: Image, t: Trie, own: map<nat, Owner>, live: map<nat, nat>, hash: Bytes -> Hash,
                   h: Hash, d: nat, keep: int, bar: nat)
    requires Shape(t, hash) && Holds(img, t) && Counted(img, t) && Owned(img, t, own, live, hash) && PruneAt(img, t, h, d, keep)
    requires keep >= 0 ==> h[..keep] in t.bars && t.bars[h[..keep]] == bar
    ensures CanPoke(img, bar, keep + 1)
    ensures Shape(Prune(t, h, d, keep), hash)
    ensures Holds(PokePath(img, bar, h, keep + 1, 0), Prune(t, h, d, keep))
  {
    var t' := Prune(t, h, d, keep);
    PruneIsOK(img, t, hash, h, d, keep);
    PruneShape(t, hash, h, d, keep);
    PruneReady(img, t, hash, h, d, keep);
    if keep >= 0 {
      forall q | q in t'.bars && q != h[..keep] ensures t'.bars[q] != bar {
        BarsApart(img, t, own, live, hash, q, h[..keep]);
      }
    }
    Repoint(img, t, t', h, keep + 1, bar);
  }

  /** Delete of a key that is alone in its chain: the slot of the deepest bar with another
      child is cleared, or the root; then that bar counts one less. */
  lemma PruneCommit(img: Image, t: Trie, own: map<nat, Owner>, live: map<nat, nat>, hash: Bytes -> Hash,
                    h: Hash, d: nat, keep: int, bar: nat)
    requires TreeOK(img, t, own, live, hash) && PruneAt(img, t, h, d, keep)
    requires keep >= 0 ==> h[..keep] in t.bars && t.bars[h[..keep]] == bar
    ensures CanPoke(img, bar, keep + 1)
    ensures forall i :: keep < i < d && 0 <= i ==> h[..i] in t.bars
    ensures var img1 := PokePath(img, bar, h, keep + 1, 0);
      && Shape(Prune(t, h, d, keep), hash) && Holds(img1, Prune(t, h, d, keep))
      && (keep >= 0 ==> IsBar(img1, bar) && img1.blocks[bar].cnt > 0)
      && var gone := Gone(t, h, d, keep);
         TreeOK(WithCntDown(img1, bar, keep + 1), Prune(t, h, d, keep), own - gone, live - gone, hash)
  {
    PruneBarsOnPath(img, t, h, d, keep);
    PruneHolds(img, t, own, live, hash, h, d, keep, bar);
    PruneCounted(img, t, hash, h, d, keep, bar);
    var img1 := PokePath(img, bar, h, keep + 1, 0);
    var img2 := WithCntDown(img1, bar, keep + 1);
    if keep >= 0 { CntUp(img1, Prune(t, h, d, keep), bar, img1.blocks[bar].cnt - 1); }
    PokeLeaks(img, img2, own, live, t, hash, bar, keep + 1);
    PruneOwned(img, img2, t, own, live, hash, h, d, keep);
  }
}
