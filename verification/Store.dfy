/** The store (src/set.c, src/write-data-blk.c, src/extend.c, src/replace.c, src/get.c,
    src/del.c): set, get and delete over one volume. */
module StoreManager {
  import opened Layout
  import opened Extents
  import opened FreeProgram
  import opened VolumeManager
  import opened TrieShape
  import opened Lookups
  import opened StoreModel
  import opened TrieLookups
  import opened TrieUpdates
  import opened TrieFiles
  import opened TrieCommits

  // ---------------------------------------------------------------- images between writes

  /** No bar counts too few slots. */
  ghost predicate Covered(img: Image, t: Trie) {
    forall p {:trigger CoverOK(img, t.bars[p])} :: p in t.bars ==> CoverOK(img, t.bars[p])
  }

  ghost predicate CoverOK(img: Image, a: nat) {
    IsBar(img, a) && NonZero(img.blocks[a].jump) <= img.blocks[a].cnt
  }

  lemma CountedCovers(img: Image, t: Trie)
    requires Counted(img, t)
    ensures Covered(img, t)
  {
    forall p | p in t.bars ensures CoverOK(img, t.bars[p]) { assert CntOK(img, t.bars[p]); }
  }

  /** Every image in a stretch of the history holds t, with no counter too low. */
  ghost predicate Shown(log: seq<Image>, from: nat, to: nat, t: Trie) {
    from <= to <= |log| && forall i :: from <= i < to ==> Holds(log[i], t) && Covered(log[i], t)
  }

  /** The history since `from` shows t0 up to one write, and t1 from that write on. */
  ghost predicate Switches(log: seq<Image>, from: nat, t0: Trie, t1: Trie) {
    exists cut :: from <= cut && Shown(log, from, cut, t0) && Shown(log, cut, |log|, t1)
  }

  lemma ProgressShown(img0: Image, from: nat, img: Image, log: seq<Image>, t: Trie, own: map<nat, Owner>, live: map<nat, nat>,
                      hash: Bytes -> Hash)
    requires TreeOK(img0, t, own, live, hash) && Progress(img0, from, img, log, live)
    ensures TreeOK(img, t, own, live, hash) && Shown(log, from, |log|, t)
  {
    KeepsTreeOK(img0, img, t, own, live, hash);
    forall i | from <= i < |log| ensures Holds(log[i], t) && Covered(log[i], t) {
      KeepsTreeOK(img0, log[i], t, own, live, hash);
      CountedCovers(log[i], t);
    }
  }

  lemma ShownReads(log: seq<Image>, from: nat, to: nat, t: Trie, hash: Bytes -> Hash)
    requires Shown(log, from, to, t) && Shape(t, hash)
    ensures ReadsAll(log, from, to, ModelOf(t), hash)
  {
    forall i | from <= i < to ensures Reads(log[i], ModelOf(t), hash) { HoldsReads(log[i], t, hash); }
  }

  lemma SwitchesAtomic(log: seq<Image>, from: nat, t0: Trie, t1: Trie, hash: Bytes -> Hash)
    requires Switches(log, from, t0, t1) && Shape(t0, hash) && Shape(t1, hash)
    ensures Atomic(log, from, ModelOf(t0), ModelOf(t1), hash)
  {
    var cut :| from <= cut && Shown(log, from, cut, t0) && Shown(log, cut, |log|, t1);
    ShownReads(log, from, cut, t0, hash);
    ShownReads(log, cut, |log|, t1, hash);
  }

  // ---------------------------------------------------------------- the model follows the trie

  lemma MountModel(t: Trie, h: Hash, d: nat, r: Rec)
    requires d <= HASH_LENGTH
    ensures ModelOf(Mount(t, h, d, r)) == ModelOf(t)[h := [KV(r.key, r.value)]]
  {
    assert KVs([r]) == [KV(r.key, r.value)];
  }

  lemma RerecModel(t: Trie, h: Hash, recs: seq<Rec>)
    requires h in t.leaves
    ensures ModelOf(Rerec(t, h, recs)) == ModelOf(t)[h := KVs(recs)]
  {
  }

  lemma PrependKVs(r: Rec, recs: seq<Rec>)
    ensures KVs([r] + recs) == [KV(r.key, r.value)] + KVs(recs)
  {
  }

  lemma UpdateKVs(recs: seq<Rec>, i: nat, r: Rec)
    requires i < |recs|
    ensures KVs(recs[i := r]) == KVs(recs)[i := KV(r.key, r.value)]
  {
  }

  lemma SplitModel(t: Trie, h: Hash, g: Hash, k: nat, D: nat, nb: map<Bytes, nat>, r: Rec)
    requires k <= D < HASH_LENGTH && g in t.leaves
    ensures ModelOf(Split(t, h, g, k, D, nb, r)) ==
      ModelOf(t)[h := [KV(r.key, r.value)] + (if g == h then KVs(t.leaves[g].recs) else [])]
  {
    assert KVs([r]) == [KV(r.key, r.value)] + [];
    if g == h { PrependKVs(r, t.leaves[g].recs); }
  }

  lemma PruneModel(t: Trie, h: Hash, d: nat, keep: int)
    requires d <= HASH_LENGTH
    ensures ModelOf(Prune(t, h, d, keep)) == ModelOf(t) - {h}
  {
  }

  // ---------------------------------------------------------------- the new block

  /** Whether the record goes into a DataEx block. */
  predicate NeedsEx(info: Info, conflict: bool) {
    if info.matched then info.isEx else info.dKey.Some? && conflict
  }

  function NewNext(info: Info): nat {
    if info.firstEx != 0 then (if info.matched then info.dNext else info.firstEx) else info.dStart
  }

  function NewBlock(info: Info, conflict: bool, length: nat, key: Bytes, value: Bytes): Block {
    if NeedsEx(info, conflict) then DataEx(length, NewNext(info), key, value) else Data(length, key, value)
  }

  /** The blocks that chain replaces left behind. */
  ghost function LeaksOf(own: map<nat, Owner>): set<nat> {
    set a | a in own && own[a].Leaked?
  }

  lemma LeaksOfHas(own: map<nat, Owner>, a: nat)
    ensures a in LeaksOf(own) <==> a in own && own[a] == Leaked
  {
  }

  /** An upper bound of the extent that a record takes. */
  function Need(key: Bytes, value: Bytes): nat {
    Max(DISK_SIZE_UNIT, DATA_EX_SIZE + |key| + |value| + 3)
  }

  lemma ShownMore(log: seq<Image>, from: nat, t: Trie, img: Image)
    requires Shown(log, from, |log|, t) && Holds(img, t) && Covered(img, t)
    ensures Shown(log + [img], from, |log| + 1, t)
  {
  }

  /** The write of the switch, and what follows it. */
  lemma SwitchAt(log0: seq<Image>, from: nat, t0: Trie, t1: Trie, log: seq<Image>)
    requires Shown(log0, from, |log0|, t0) && log0 <= log && Shown(log, |log0|, |log|, t1)
    ensures Switches(log, from, t0, t1)
  {
  }

  /** A slot of a bar that is not in use leaves room for one more. */
  lemma RoomForOne(jump: Slots, s: Byte)
    requires jump[s] == 0
    ensures NonZero(jump) < SLOTS
  {
    NonZeroBounds(jump, 0);
    assert !(forall i :: 0 <= i < SLOTS ==> jump[i] != 0);
  }

  /** Fewer than all slots are counted in a bar with an empty slot. */
  lemma SlotCounts(img: Image, t: Trie, h: Hash, d: nat, bar: nat)
    requires Holds(img, t) && Counted(img, t) && FreeSlotAt(t, h, d) && BarAbove(t, h, d, bar) && d > 0
    ensures IsBar(img, bar) && img.blocks[bar].cnt + 1 <= SLOTS
  {
    SlotOnPath(img, t, h, d, bar);
    assert CntOK(img, t.bars[h[..d - 1]]);
    RoomForOne(img.blocks[bar].jump, h[d - 1]);
  }

  /** A counter written ahead of its slot covers it. */
  lemma CountedAhead(img: Image, t: Trie, bar: nat, d: nat)
    requires Counted(img, t) && CanPoke(img, bar, d)
    ensures Covered(WithCnt(img, bar, d), t)
  {
    forall p | p in t.bars ensures CoverOK(WithCnt(img, bar, d), t.bars[p]) { assert CntOK(img, t.bars[p]); }
  }

  /** A slot cleared ahead of its counter stays covered. */
  lemma ClearedAhead(img: Image, t: Trie, t': Trie, bar: nat, h: Hash, k: nat)
    requires Counted(img, t) && CanPoke(img, bar, k) && k <= HASH_LENGTH
    requires forall p :: p in t'.bars ==> p in t.bars && t'.bars[p] == t.bars[p]
    ensures Covered(PokePath(img, bar, h, k, 0), t')
  {
    forall p | p in t'.bars ensures CoverOK(PokePath(img, bar, h, k, 0), t'.bars[p]) {
      assert CntOK(img, t.bars[p]);
      if k > 0 && t.bars[p] == bar { NonZeroSet(img.blocks[bar].jump, h[k - 1], 0, 0); }
    }
  }

  /** The two writes of a mount, the counter of the bar first. */
  lemma MountOutcome(img0: Image, from: nat, img: Image, log: seq<Image>, t: Trie, own: map<nat, Owner>, live: map<nat, nat>,
                     hash: Bytes -> Hash, h: Hash, d: nat, r: Rec, bar: nat)
    requires TreeOK(img0, t, own, live, hash) && Progress(img0, from, img, log, live)
    requires FreeSlotAt(t, h, d) && BarAbove(t, h, d, bar) && d > 0
    requires RecOK(r) && hash(r.key) == h && r.addr !in live && RecHolds(img, [r], 0)
    ensures IsBar(img, bar) && img.blocks[bar].cnt + 1 <= SLOTS
    ensures var img1 := WithCnt(img, bar, d);
      var img2 := PokePath(img1, bar, h, d, r.addr);
      && TreeOK(img2, Mount(t, h, d, r), own[r.addr := OwnRec(r.key)], live[r.addr := r.len], hash)
      && Switches(log + [img1] + [img2], from, t, Mount(t, h, d, r))
  {
    ProgressShown(img0, from, img, log, t, own, live, hash);
    SlotCounts(img, t, h, d, bar);
    MountCommit(img, t, own, live, hash, h, d, r, bar);
    var img1 := WithCnt(img, bar, d);
    var img2 := PokePath(img1, bar, h, d, r.addr);
    CountedAhead(img, t, bar, d);
    ShownMore(log, from, t, img1);
    var t' := Mount(t, h, d, r);
    CountedCovers(img2, t');
    assert Shown(log + [img1] + [img2], |log| + 1, |log| + 2, t');
    SwitchAt(log + [img1], from, t, t', log + [img1] + [img2]);
  }

  /** One write switches the tree, and what follows keeps the new one. */
  lemma SwitchThen(img0: Image, from: nat, img: Image, log: seq<Image>, t: Trie, own: map<nat, Owner>, live: map<nat, nat>,
                   hash: Bytes -> Hash, img2: Image, t': Trie, own': map<nat, Owner>, live': map<nat, nat>,
                   img3: Image, log3: seq<Image>)
    requires TreeOK(img0, t, own, live, hash) && Progress(img0, from, img, log, live)
    requires TreeOK(img2, t', own', live', hash)
    requires log + [img2] <= log3 && Progress(img2, |log| + 1, img3, log3, live')
    ensures TreeOK(img3, t', own', live', hash) && Switches(log3, from, t, t')
  {
    ProgressShown(img0, from, img, log, t, own, live, hash);
    ProgressShown(img2, |log| + 1, img3, log3, t', own', live', hash);
    CountedCovers(img2, t');
    assert log3[|log|] == img2;
    assert Shown(log3, |log|, |log3|, t');
    assert log <= log3;
    SwitchAt(log, from, t, t', log3);
  }

  lemma NoProgress(img: Image, log: seq<Image>, live: map<nat, nat>)
    ensures Progress(img, |log|, img, log, live)
  {
  }

  // ---------------------------------------------------------------- replace

  /** The block written for a key that lookup found takes the place of the old one. */
  lemma ReplacingBlock(info: Info, conflict: bool, t: Trie, hash: Bytes -> Hash, h: Hash, key: Bytes, value: Bytes, r: Rec)
    requires Shape(t, hash) && FoundChain(info, t, h, key, true) && info.matched
    requires r.key == key && r.value == value
    ensures var recs := t.leaves[h].recs;
      var i := IndexOf(recs, key);
      && i < |recs| && recs[i].key == key && info.dStart == recs[i].addr && info.blkLength == recs[i].len
      && NewBlock(info, conflict, r.len, key, value) == BlockOf(recs[i := r], i)
      && info.dPrev == (if i > 0 then recs[i - 1].addr else 0)
      && (info.dPrev != 0 <==> i > 0)
  {
    var recs := t.leaves[h].recs;
    var i := IndexOf(recs, key);
    assert KVs(recs)[i].key == recs[i].key;
    LeafPtr(t, hash, h);
    assert LeafPath(t, hash, h);
    if i > 0 { assert RecOK(recs[i - 1]); }
  }

  lemma ReplaceHeadOutcome(img0: Image, from: nat, img: Image, log: seq<Image>, t: Trie, own: map<nat, Owner>, live: map<nat, nat>,
                           hash: Bytes -> Hash, h: Hash, r: Rec, bar: nat)
    requires TreeOK(img0, t, own, live, hash) && Progress(img0, from, img, log, live)
    requires Replaces(t, live, hash, h, 0, r) && BarAbove(t, h, t.leaves[h].depth, bar)
    requires r.addr in img.blocks && img.blocks[r.addr] == BlockOf(t.leaves[h].recs[0 := r], 0)
    ensures CanPoke(img, bar, t.leaves[h].depth)
    ensures var was := t.leaves[h].recs[0].addr;
      TreeOK(PokePath(img, bar, h, t.leaves[h].depth, r.addr), Rerec(t, h, t.leaves[h].recs[0 := r]),
             ReplaceOwn(own, r, was, false), ReplaceLive(live, r, was, false), hash)
  {
    ProgressShown(img0, from, img, log, t, own, live, hash);
    ReplaceHeadCommit(img, t, own, live, hash, h, r, bar);
  }

  lemma ReplaceLiveFacts(t: Trie, own: map<nat, Owner>, live: map<nat, nat>, hash: Bytes -> Hash, img: Image, h: Hash, i: nat, r: Rec)
    requires TreeOK(img, t, own, live, hash) && Replaces(t, live, hash, h, i, r)
    ensures var was := t.leaves[h].recs[i].addr;
      && was in live && live[was] == t.leaves[h].recs[i].len && was != r.addr
      && live[r.addr := r.len] - {was} == ReplaceLive(live, r, was, false)
  {
    assert RecOwned(own, live, t.leaves[h].recs, i);
  }

  lemma ReplaceInsideOutcome(img0: Image, from: nat, img: Image, log: seq<Image>, t: Trie, own: map<nat, Owner>, live: map<nat, nat>,
                             hash: Bytes -> Hash, h: Hash, i: nat, r: Rec)
    requires TreeOK(img0, t, own, live, hash) && Progress(img0, from, img, log, live)
    requires Replaces(t, live, hash, h, i, r) && 0 < i
    requires r.addr in img.blocks && img.blocks[r.addr] == BlockOf(t.leaves[h].recs[i := r], i)
    ensures var prev, was := t.leaves[h].recs[i - 1].addr, t.leaves[h].recs[i].addr;
      var t' := Rerec(t, h, t.leaves[h].recs[i := r]);
      && IsDataEx(img, prev) && prev in live
      && TreeOK(SetExNext(img, prev, r.addr), t', ReplaceOwn(own, r, was, true), live[r.addr := r.len], hash)
      && Switches(log + [SetExNext(img, prev, r.addr)], from, t, t')
  {
    ProgressShown(img0, from, img, log, t, own, live, hash);
    ReplaceInsideCommit(img, t, own, live, hash, h, i, r);
    var prev := t.leaves[h].recs[i - 1].addr;
    assert RecOwned(own, live, t.leaves[h].recs, i - 1);
    var img2 := SetExNext(img, prev, r.addr);
    NoProgress(img2, log + [img2], live[r.addr := r.len]);
    SwitchThen(img0, from, img, log, t, own, live, hash, img2, Rerec(t, h, t.leaves[h].recs[i := r]),
               ReplaceOwn(own, r, t.leaves[h].recs[i].addr, true), live[r.addr := r.len], img2, log + [img2]);
  }

  // ---------------------------------------------------------------- new bars

  /** Bars written earlier outlive the writing of the next one. */
  lemma BarsKept(img: Image, img': Image, t: Trie, h: Hash, g: Hash, from: nat, D: nat, nb: map<Bytes, nat>, r: Rec,
                 own: map<nat, Owner>, live0: map<nat, nat>, own1: map<nat, Owner>, live1: map<nat, nat>)
    requires SplitBarsWritten(img, t, h, g, from, D, nb, r) && SplitOwners(own, live0, own1, live1, nb, r)
    requires Keeps(img, img', live1)
    ensures SplitBarsWritten(img', t, h, g, from, D, nb, r)
  {
    forall i | from <= i <= D ensures SplitBarWritten(img', t, h, g, D, nb, r, i) {
      assert SplitBarWritten(img, t, h, g, D, nb, r, i) && KeptAt(img, img', live1, nb[h[..i]]);
    }
  }

  lemma BarAdded(img: Image, t: Trie, h: Hash, g: Hash, j: nat, D: nat, nb: map<Bytes, nat>, r: Rec, last: nat, start: nat)
    requires j <= D < HASH_LENGTH && NewBars(nb, h, j + 1, D) && start != 0
    requires SplitBarsWritten(img, t, h, g, j + 1, D, nb, r)
    requires j < D ==> last == nb[h[..j + 1]]
    requires start in img.blocks && img.blocks[start] == SplitBar(h, g, j, D, r.addr, t.leaves[g].recs[0].addr, last)
    ensures h[..j] !in nb && NewBars(nb[h[..j] := start], h, j, D)
    ensures SplitBarsWritten(img, t, h, g, j, D, nb[h[..j] := start], r)
  {
    var nb' := nb[h[..j] := start];
    forall i | j <= i <= D ensures SplitBarWritten(img, t, h, g, D, nb', r, i) {
      if i > j {
        assert SplitBarWritten(img, t, h, g, D, nb, r, i);
        assert |h[..i]| == i;
      }
      if i < D { assert |h[..i + 1]| == i + 1; }
    }
  }

  /** The bars of levels from .. D are written and owned, and last is what the level above
      will point to. */
  ghost predicate BarsBuilt(img: Image, live: map<nat, nat>, t: Trie, h: Hash, g: Hash, from: nat, D: nat, nb: map<Bytes, nat>, r: Rec,
                            own: map<nat, Owner>, live0: map<nat, nat>, own1: map<nat, Owner>, last: nat, blk: Block) {
    && from <= D + 1 <= HASH_LENGTH && NewBars(nb, h, from, D)
    && last == (if from == D + 1 then r.addr else nb[h[..from]])
    && SplitBarsWritten(img, t, h, g, from, D, nb, r)
    && SplitOwners(own, live0, own1, live, nb, r)
    && r.addr in img.blocks && img.blocks[r.addr] == blk && Written(blk) <= r.len
  }

  lemma NoBarsBuilt(img: Image, t: Trie, own: map<nat, Owner>, live0: map<nat, nat>, hash: Bytes -> Hash, img0: Image,
                    h: Hash, g: Hash, D: nat, r: Rec)
    requires TreeOK(img0, t, own, live0, hash) && r.addr !in live0
    requires D < HASH_LENGTH && g in t.leaves && |t.leaves[g].recs| > 0
    requires r.addr in img.blocks && Written(img.blocks[r.addr]) <= r.len
    ensures BarsBuilt(img, live0[r.addr := r.len], t, h, g, D + 1, D, map[], r, own, live0, own[r.addr := OwnRec(r.key)], r.addr,
                      img.blocks[r.addr])
  {
  }

  lemma BarBuilt(img1: Image, live1: map<nat, nat>, img2: Image, t: Trie, h: Hash, g: Hash, j: nat, D: nat, nb: map<Bytes, nat>, r: Rec,
                 own: map<nat, Owner>, live0: map<nat, nat>, own1: map<nat, Owner>, last: nat, blk: Block, start: nat)
    requires j <= D && BarsBuilt(img1, live1, t, h, g, j + 1, D, nb, r, own, live0, own1, last, blk)
    requires Keeps(img1, img2, live1) && start != 0 && start !in live1
    requires start in img2.blocks && img2.blocks[start] == SplitBar(h, g, j, D, r.addr, t.leaves[g].recs[0].addr, last)
    ensures BarsBuilt(img2, live1[start := BAR_SIZE], t, h, g, j, D, nb[h[..j] := start], r, own, live0,
                      own1[start := OwnBar(h[..j])], start, blk)
  {
    assert KeptAt(img1, img2, live1, r.addr);
    BarsKept(img1, img2, t, h, g, j + 1, D, nb, r, own, live0, own1, live1);
    BarAdded(img2, t, h, g, j, D, nb, r, last, start);
    OwnersAdded(own, live0, own1, live1, nb, r, h[..j], start);
  }

  lemma OwnersAdded(own: map<nat, Owner>, live: map<nat, nat>, own1: map<nat, Owner>, live1: map<nat, nat>,
                    nb: map<Bytes, nat>, r: Rec, p: Bytes, start: nat)
    requires SplitOwners(own, live, own1, live1, nb, r) && start !in live1 && p !in nb
    ensures SplitOwners(own, live, own1[start := OwnBar(p)], live1[start := BAR_SIZE], nb[p := start], r)
  {
  }

  // ---------------------------------------------------------------- a taken path

  /** A chain of hash g hangs at depth k of the path of h. */
  ghost predicate Taken(t: Trie, h: Hash, k: nat, g: Hash) {
    && k <= HASH_LENGTH && h[..k] in t.at && t.at[h[..k]] == g && g in t.leaves && |t.leaves[g].recs| > 0
    && (g != h ==> h !in t.leaves && |t.leaves[g].recs| == 1 && k < HASH_LENGTH)
  }

  /** r is a record for a key that is not stored yet, in a chain that can take it. */
  ghost predicate NewRecord(t: Trie, live: map<nat, nat>, hash: Bytes -> Hash, h: Hash, g: Hash, r: Rec) {
    && g in t.leaves && RecOK(r) && hash(r.key) == h && r.addr !in live
    && Written(if g == h then DataEx(r.len, 0, r.key, r.value) else Data(r.len, r.key, r.value)) <= r.len
    && (g == h ==> |t.leaves[g].recs| <= HASH_COLLISION_MAX + 1
                   && forall i :: 0 <= i < |t.leaves[g].recs| ==> t.leaves[g].recs[i].key != r.key)
  }

  lemma PrefixAgrees(h: Bytes, g: Bytes, k: nat, i: nat)
    requires i < k <= |h| && k <= |g| && g[..k] == h[..k]
    ensures g[i] == h[i]
  {
  }

  /** The block of a new record: for an equal hash it goes in front of the chain. */
  function NewRecordBlock(t: Trie, h: Hash, g: Hash, r: Rec): Block
    requires g in t.leaves && |t.leaves[g].recs| > 0
  {
    if g == h then DataEx(r.len, t.leaves[g].recs[0].addr, r.key, r.value) else Data(r.len, r.key, r.value)
  }

  /** The bars of the path never reach below the first difference: the "deeper than expected"
      error of the source does not happen. */
  lemma TakenBelow(t: Trie, hash: Bytes -> Hash, h: Hash, k: nat, g: Hash, i: nat)
    requires Shape(t, hash) && Taken(t, h, k, g)
    requires i <= HASH_LENGTH && h[..i] == g[..i] && (i < HASH_LENGTH ==> h[i] != g[i])
    ensures k <= i && (i == HASH_LENGTH <==> g == h)
    ensures k < HASH_LENGTH ==> SplitOK(t, h, g, k, if i == HASH_LENGTH then HASH_LENGTH - 1 else i)
    ensures k == HASH_LENGTH ==> g == h && t.leaves[h].depth == HASH_LENGTH
  {
    assert ChainPath(t, h[..k]) && LeafPath(t, hash, g);
    assert g[..k] == h[..k];
    if i < k { PrefixAgrees(h, g, k, i); }
    if i == HASH_LENGTH {
      assert h[..HASH_LENGTH] == h && g[..HASH_LENGTH] == g;
      assert g[..HASH_LENGTH - 1] == h[..HASH_LENGTH - 1];
    }
  }

  lemma SplitOutcome(img0: Image, from: nat, img: Image, log: seq<Image>, t: Trie, own: map<nat, Owner>, live0: map<nat, nat>,
                     hash: Bytes -> Hash, h: Hash, g: Hash, k: nat, D: nat, nb: map<Bytes, nat>, r: Rec,
                     own1: map<nat, Owner>, live1: map<nat, nat>, bar: nat, last: nat)
    requires TreeOK(img0, t, own, live0, hash) && Progress(img0, from, img, log, live0)
    requires SplitOK(t, h, g, k, D) && NewRecord(t, live0, hash, h, g, r) && BarAbove(t, h, k, bar)
    requires BarsBuilt(img, live1, t, h, g, k, D, nb, r, own, live0, own1, last, NewRecordBlock(t, h, g, r))
    ensures CanPoke(img, bar, k)
    ensures var img2 := PokePath(img, bar, h, k, last);
      var t' := Split(t, h, g, k, D, nb, r);
      && TreeOK(img2, t', own1, live1, hash) && Switches(log + [img2], from, t, t')
      && ModelOf(t') == ModelOf(t)[h := [KV(r.key, r.value)] + Group(ModelOf(t), h)]
      && LeaksOf(own1) == LeaksOf(own)
  {
    ProgressShown(img0, from, img, log, t, own, live0, hash);
    if g == h { PrependChain(img, t, h, r); }
    SplitCommit(img, t, own, live0, hash, h, g, k, D, nb, r, own1, live1, bar);
    var img2 := PokePath(img, bar, h, k, last);
    var t' := Split(t, h, g, k, D, nb, r);
    NoProgress(img2, log + [img2], live1);
    SwitchThen(img0, from, img, log, t, own, live0, hash, img2, t', own1, live1, img2, log + [img2]);
    SplitModel(t, h, g, k, D, nb, r);
    SplitLeaks(own, live0, own1, live1, nb, r);
  }

  /** The address of a new record or bar is none of an old record. */
  lemma NewAddress(t: Trie, own: map<nat, Owner>, live0: map<nat, nat>, hash: Bytes -> Hash, img0: Image, h: Hash, r: Rec)
    requires TreeOK(img0, t, own, live0, hash) && h in t.leaves && r.addr !in live0
    ensures |t.leaves[h].recs| > 0 && t.leaves[h].recs[0].addr in live0 && r.addr != t.leaves[h].recs[0].addr
  {
    assert LeafPath(t, hash, h) && RecOwned(own, live0, t.leaves[h].recs, 0);
  }

  lemma BarsAreNew(img: Image, live: map<nat, nat>, t: Trie, h: Hash, g: Hash, k: nat, D: nat, nb: map<Bytes, nat>, r: Rec,
                   own: map<nat, Owner>, live0: map<nat, nat>, own1: map<nat, Owner>, last: nat, blk: Block, img0: Image, hash: Bytes -> Hash)
    requires TreeOK(img0, t, own, live0, hash) && SplitOK(t, h, g, k, D)
    requires BarsBuilt(img, live, t, h, g, k, D, nb, r, own, live0, own1, last, blk)
    ensures nb[h[..k]] != t.leaves[g].recs[0].addr
  {
    assert LeafPath(t, hash, g) && RecOwned(own, live0, t.leaves[g].recs, 0);
  }

  lemma SplitLeaks(own: map<nat, Owner>, live: map<nat, nat>, own1: map<nat, Owner>, live1: map<nat, nat>, nb: map<Bytes, nat>, r: Rec)
    requires SplitOwners(own, live, own1, live1, nb, r) && r.addr !in own
    ensures LeaksOf(own1) == LeaksOf(own)
  {
  }

  lemma PrependOutcome(img0: Image, from: nat, img: Image, log: seq<Image>, t: Trie, own: map<nat, Owner>, live0: map<nat, nat>,
                       hash: Bytes -> Hash, h: Hash, r: Rec, bar: nat)
    requires TreeOK(img0, t, own, live0, hash) && Progress(img0, from, img, log, live0)
    requires NewRecord(t, live0, hash, h, h, r) && t.leaves[h].depth == HASH_LENGTH && BarAbove(t, h, HASH_LENGTH, bar)
    requires |t.leaves[h].recs| > 0
    requires r.addr in img.blocks && img.blocks[r.addr] == DataEx(r.len, t.leaves[h].recs[0].addr, r.key, r.value)
    ensures CanPoke(img, bar, HASH_LENGTH)
    ensures var img2 := PokePath(img, bar, h, HASH_LENGTH, r.addr);
      var t' := Rerec(t, h, [r] + t.leaves[h].recs);
      && TreeOK(img2, t', own[r.addr := OwnRec(r.key)], live0[r.addr := r.len], hash) && Switches(log + [img2], from, t, t')
      && ModelOf(t') == ModelOf(t)[h := [KV(r.key, r.value)] + Group(ModelOf(t), h)]
      && LeaksOf(own[r.addr := OwnRec(r.key)]) == LeaksOf(own)
  {
    ProgressShown(img0, from, img, log, t, own, live0, hash);
    PrependCommit(img, t, own, live0, hash, h, r, bar);
    var img2 := PokePath(img, bar, h, HASH_LENGTH, r.addr);
    var t' := Rerec(t, h, [r] + t.leaves[h].recs);
    var own', live' := own[r.addr := OwnRec(r.key)], live0[r.addr := r.len];
    NoProgress(img2, log + [img2], live');
    SwitchThen(img0, from, img, log, t, own, live0, hash, img2, t', own', live', img2, log + [img2]);
    RerecModel(t, h, [r] + t.leaves[h].recs);
    PrependKVs(r, t.leaves[h].recs);
  }

  lemma ReplaceModel(info: Info, t: Trie, own: map<nat, Owner>, live0: map<nat, nat>, hash: Bytes -> Hash, img0: Image,
                     h: Hash, key: Bytes, i: nat, r: Rec)
    requires TreeOK(img0, t, own, live0, hash) && FoundChain(info, t, h, key, true) && info.matched
    requires i == IndexOf(t.leaves[h].recs, key) && i < |t.leaves[h].recs| && t.leaves[h].recs[i].key == key == r.key
    requires r.addr !in live0 && RecOK(r) && info.dStart == t.leaves[h].recs[i].addr
    requires Written(BlockOf(t.leaves[h].recs[i := r], i)) <= r.len
    ensures Replaces(t, live0, hash, h, i, r)
    ensures ModelOf(Rerec(t, h, t.leaves[h].recs[i := r])) == SpecSet(ModelOf(t), h, key, r.value).1
    ensures LeaksOf(ReplaceOwn(own, r, info.dStart, true)) == LeaksOf(own) + {info.dStart}
    ensures LeaksOf(ReplaceOwn(own, r, info.dStart, false)) == LeaksOf(own) && info.dStart !in LeaksOf(own)
  {
    RerecModel(t, h, t.leaves[h].recs[i := r]);
    UpdateKVs(t.leaves[h].recs, i, r);
    assert RecOwned(own, live0, t.leaves[h].recs, i);
  }

  lemma MountLeaks(t: Trie, own: map<nat, Owner>, live0: map<nat, nat>, hash: Bytes -> Hash, img0: Image, h: Hash, d: nat, r: Rec)
    requires Owned(img0, t, own, live0, hash) && FreeSlotAt(t, h, d) && r.addr !in live0
    ensures LeaksOf(own[r.addr := OwnRec(r.key)]) == LeaksOf(own)
    ensures ModelOf(Mount(t, h, d, r)) == ModelOf(t)[h := [KV(r.key, r.value)] + Group(ModelOf(t), h)]
  {
    MountModel(t, h, d, r);
    assert [KV(r.key, r.value)] + Group(ModelOf(t), h) == [KV(r.key, r.value)];
  }

  /** The three ways on from a lookup that did not find the key. */
  lemma ExtendCases(info: Info, img0: Image, t: Trie, own: map<nat, Owner>, live0: map<nat, nat>, hash: Bytes -> Hash,
                    h: Hash, g: Hash, key: Bytes, r: Rec)
    requires TreeOK(img0, t, own, live0, hash) && Found(info, img0, t, h, key, true) && info.status == NotFound
    requires info.dKey.Some? ==> g == hash(info.dKey.value)
    requires r.addr !in live0 && RecOK(r) && r.key == key && hash(key) == h
    requires Written(NewBlock(info, g == h, r.len, key, r.value)) <= r.len
    ensures |info.starts| <= HASH_LENGTH
    ensures info.dStart == 0 ==>
      FreeSlotAt(t, h, |info.starts|) && NewBlock(info, g == h, r.len, key, r.value) == Data(r.len, key, r.value)
    ensures info.dStart != 0 ==>
      && Taken(t, h, |info.starts|, g) && NewRecord(t, live0, hash, h, g, r)
      && (|t.leaves[g].recs| == 1 ==> info.dStart == t.leaves[g].recs[0].addr)
      && NewBlock(info, g == h, r.len, key, r.value) == NewRecordBlock(t, h, g, r)
  {
    var p := h[..|info.starts|];
    if p !in t.at {
      if |info.starts| > 0 { assert PathBar(img0, t, h, |info.starts| - 1, info.starts[|info.starts| - 1], info.cnts[|info.starts| - 1]); }
    } else {
      var x := t.at[p];
      assert ChainPath(t, p) && LeafPath(t, hash, x);
      LeafPtr(t, hash, x);
      if x == h { ChainMisses(info, t, hash, h, key); }
    }
  }

  /** A key that the scan of a chain missed is not in it, and the chain can take one more. */
  lemma ChainMisses(info: Info, t: Trie, hash: Bytes -> Hash, h: Hash, key: Bytes)
    requires Shape(t, hash) && FoundChain(info, t, h, key, true) && info.status == NotFound
    ensures var recs := t.leaves[h].recs;
      && |recs| <= HASH_COLLISION_MAX + 1 && !info.matched
      && (forall i :: 0 <= i < |recs| ==> recs[i].key != key)
      && info.dKey == Some(recs[|recs| - 1].key) && hash(recs[|recs| - 1].key) == h
      && info.dStart == recs[|recs| - 1].addr != 0 && info.firstEx == (if |recs| > 1 then recs[0].addr else 0)
      && recs[0].addr != 0
  {
    var recs := t.leaves[h].recs;
    assert LeafPath(t, hash, h);
    assert RecOK(recs[|recs| - 1]) && RecOK(recs[0]);
    var kvs := KVs(recs);
    assert Position(kvs, key) == |kvs|;
    forall i | 0 <= i < |recs| ensures recs[i].key != key { assert kvs[i].key == recs[i].key; }
  }

  /** Set replaces a record inside a chain, whose old block is left behind. */
  predicate LeaksInside(m: Model, h: Hash, key: Bytes) {
    Answer(Group(m, h), key) == OK && Position(Group(m, h), key) > 0
  }

  lemma AnswerFound(info: Info, img: Image, t: Trie, h: Hash, key: Bytes)
    requires Found(info, img, t, h, key, true)
    ensures info.status == Answer(Group(ModelOf(t), h), key) && info.matched == (info.status == OK)
    ensures info.matched ==> FoundChain(info, t, h, key, true)
    ensures info.matched ==> Position(Group(ModelOf(t), h), key) == IndexOf(t.leaves[h].recs, key)
  {
  }

  lemma FoundOnPath(info: Info, img: Image, t: Trie, h: Hash, key: Bytes)
    requires Found(info, img, t, h, key, true)
    ensures OnPath(img, t, h, info.starts, info.cnts)
  {
  }

  lemma RecFirst(recs: seq<Rec>, r: Rec)
    requires |recs| > 0 && recs[0] == r
    ensures RecAt(recs, r.key, r.addr)
  {
  }

  lemma LeakCondition(info: Info, t: Trie, hash: Bytes -> Hash, h: Hash, key: Bytes)
    requires Shape(t, hash) && FoundChain(info, t, h, key, true) && info.matched
    ensures LeaksInside(ModelOf(t), h, key) <==> info.dPrev != 0
  {
    var recs := t.leaves[h].recs;
    var i := IndexOf(recs, key);
    assert LeafPath(t, hash, h);
    if i > 0 { assert RecOK(recs[i - 1]); }
  }

  lemma SameBlock(info: Info, conflict: bool, same: bool, length: nat, key: Bytes, value: Bytes)
    requires conflict == (!info.matched && info.dKey.Some? && same)
    ensures info.matched ==> NewBlock(info, conflict, length, key, value) == NewBlock(info, false, length, key, value)
    ensures !info.matched ==> NewBlock(info, conflict, length, key, value) == NewBlock(info, same, length, key, value)
  {
  }

  /** The record goes into a DataEx block unless it ends up last in its chain. */
  predicate BeforeAnother(m: Model, h: Hash, key: Bytes) {
    var kvs := Group(m, h);
    if Position(kvs, key) < |kvs| then Position(kvs, key) + 1 < |kvs| else |kvs| > 0
  }

  /** The length of the extent that a set asks for. */
  function BlockLength(m: Model, h: Hash, key: Bytes, value: Bytes): nat {
    CeilLength((if BeforeAnother(m, h, key) then 24 else 16) + |key| + |value|)
  }

  lemma Begun(img0: Image, from: nat, img: Image, log: seq<Image>, live0: map<nat, nat>, start: nat, length: nat)
    requires Progress(img0, from, img, log, live0) && start !in live0
    ensures img.treeRoot == img0.treeRoot && Sub(live0, live0[start := length])
  {
  }

  lemma KindOfBlock(info: Info, conflict: bool, img: Image, t: Trie, own: map<nat, Owner>, live: map<nat, nat>, hash: Bytes -> Hash,
                    h: Hash, key: Bytes)
    requires TreeOK(img, t, own, live, hash) && Found(info, img, t, h, key, true) && (info.status == OK || info.status == NotFound)
    requires conflict == (!info.matched && info.dKey.Some? && hash(info.dKey.value) == h)
    ensures NeedsEx(info, conflict) <==> BeforeAnother(ModelOf(t), h, key)
  {
    var p := h[..|info.starts|];
    if p in t.at {
      var g := t.at[p];
      assert ChainPath(t, p) && LeafPath(t, hash, g);
      if g == h && info.status == NotFound { ChainMisses(info, t, hash, h, key); }
    }
  }

  lemma ValueFound(info: Info, img: Image, t: Trie, h: Hash, key: Bytes)
    requires Found(info, img, t, h, key, false)
    ensures info.status == Answer(Group(ModelOf(t), h), key) && info.matched == (info.status == OK)
    ensures info.status == OK ==> (OK, info.value) == SpecGet(ModelOf(t), h, key)
    ensures info.matched ==> FoundChain(info, t, h, key, false)
  {
  }

  // ---------------------------------------------------------------- delete

  ghost predicate InExtent(live: map<nat, nat>, a: nat) {
    a in live && live[a] == BAR_SIZE
  }

  ghost function Below(starts: seq<nat>, keep: int): set<nat> {
    set j: nat | j < |starts| && keep < j :: starts[j]
  }

  /** Freeing one more bar of the path. */
  lemma BelowStep(live: map<nat, nat>, starts: seq<nat>, keep: int, idx: int, rest: map<nat, nat>)
    requires -1 <= keep < idx < |starts|
    requires forall j :: keep < j < |starts| ==> InExtent(live, starts[j]) && starts[j] !in rest
    requires forall i, j :: keep < i < j < |starts| ==> starts[i] != starts[j]
    requires Sub(rest, live - Below(starts, idx))
    ensures var live1 := live - Below(starts, idx);
      && InExtent(live1, starts[idx])
      && live1 - {starts[idx]} == live - Below(starts, idx - 1) && Sub(rest, live1 - {starts[idx]})
  {
  }

  /** Delete refuses exactly the keys of chains with more than one record. */
  lemma ChainedOrNot(info: Info, t: Trie, hash: Bytes -> Hash, h: Hash, key: Bytes)
    requires Shape(t, hash) && FoundChain(info, t, h, key, false) && info.matched
    ensures info.dPrev != 0 || info.dNext != 0 <==> |t.leaves[h].recs| > 1
    ensures |t.leaves[h].recs| == 1 ==> info.dStart == t.leaves[h].recs[0].addr && info.blkLength == t.leaves[h].recs[0].len
  {
    var recs := t.leaves[h].recs;
    assert LeafPath(t, hash, h);
    var i := IndexOf(recs, key);
    if i > 0 { assert RecOK(recs[i - 1]); }
    if i + 1 < |recs| { assert RecOK(recs[i + 1]); }
  }

  /** The bars below keep and the record have live extents of their own. */
  ghost predicate Deletable(info: Info, t: Trie, live: map<nat, nat>, h: Hash, keep: int) {
    && |info.starts| <= HASH_LENGTH && h in t.leaves && |t.leaves[h].recs| == 1
    && (forall j :: keep < j < |info.starts| && 0 <= j ==>
          h[..j] in t.bars && info.starts[j] == t.bars[h[..j]] && InExtent(live, info.starts[j]) && info.starts[j] != info.dStart)
    && (forall i, j :: keep < i < j < |info.starts| && 0 <= i ==> info.starts[i] != info.starts[j])
    && info.dStart == t.leaves[h].recs[0].addr && info.dStart in live && live[info.dStart] == info.blkLength
  }

  lemma DeleteReady(info: Info, img: Image, t: Trie, own: map<nat, Owner>, live: map<nat, nat>, hash: Bytes -> Hash,
                    h: Hash, key: Bytes, keep: int)
    requires TreeOK(img, t, own, live, hash) && FoundChain(info, t, h, key, false) && info.matched
    requires OnPath(img, t, h, info.starts, info.cnts) && |t.leaves[h].recs| == 1
    requires info.dStart == t.leaves[h].recs[0].addr && info.blkLength == t.leaves[h].recs[0].len
    requires -1 <= keep < |info.cnts| && (keep >= 0 ==> info.cnts[keep] > 1)
    requires forall j :: keep < j < |info.cnts| ==> info.cnts[j] <= 1
    ensures PruneAt(img, t, h, |info.starts|, keep) && Deletable(info, t, live, h, keep)
    ensures LeaksOf(own - (Below(info.starts, keep) + {info.dStart})) == LeaksOf(own)
  {
    var d := |info.starts|;
    forall j | 0 <= j < d ensures h[..j] in t.bars && info.starts[j] == t.bars[h[..j]] && IsBar(img, info.starts[j])
      && info.cnts[j] == img.blocks[info.starts[j]].cnt >= 1 && InExtent(live, info.starts[j])
      && info.starts[j] in own && own[info.starts[j]] == OwnBar(h[..j])
    {
      assert PathBar(img, t, h, j, info.starts[j], info.cnts[j]);
      assert CntOK(img, t.bars[h[..j]]) && BarOwned(t, own, live, h[..j]);
    }
    assert RecOwned(own, live, t.leaves[h].recs, 0);
    forall i | keep < i < d ensures CountsOne(img, t, h, i) { }
    forall i, j | keep < i < j < d && 0 <= i ensures info.starts[i] != info.starts[j] {
      assert |h[..i]| == i && |h[..j]| == j;
    }
  }

  lemma GoneIs(info: Info, t: Trie, live: map<nat, nat>, h: Hash, keep: int)
    requires Deletable(info, t, live, h, keep) && -1 <= keep
    ensures Gone(t, h, |info.starts|, keep) == Below(info.starts, keep) + {info.dStart}
    ensures live - Gone(t, h, |info.starts|, keep) == live - Below(info.starts, keep) - {info.dStart}
  {
  }

  lemma RestFacts(live: map<nat, nat>, starts: seq<nat>, keep: int, a: nat, rest: map<nat, nat>)
    requires rest == live - Below(starts, keep) - {a} && -1 <= keep
    requires forall j :: keep < j < |starts| ==> starts[j] != a
    ensures Sub(rest, live) && (forall j :: keep < j < |starts| ==> starts[j] !in rest)
    ensures a !in Below(starts, keep)
  {
  }

  lemma ShownJoin(from: nat, log1: seq<Image>, log2: seq<Image>, t: Trie)
    requires Shown(log1, from, |log1|, t) && log1 <= log2 && Shown(log2, |log1|, |log2|, t)
    ensures Shown(log2, from, |log2|, t)
  {
  }

  lemma AtomicNothing(log: seq<Image>, m: Model, hash: Bytes -> Hash)
    ensures Atomic(log, |log|, m, m, hash)
  {
    assert ReadsAll(log, |log|, |log|, m, hash);
  }

  /** The path of h is cut; what hung below still has its extents. */
  ghost predicate PathCut(img: Image, t: Trie, own: map<nat, Owner>, live: map<nat, nat>, hash: Bytes -> Hash, h: Hash, d: nat, keep: int) {
    && d <= HASH_LENGTH && h in t.leaves && |t.leaves[h].recs| > 0
    && (forall i :: keep < i < d && 0 <= i ==> h[..i] in t.bars)
    && var gone := Gone(t, h, d, keep);
       TreeOK(img, Prune(t, h, d, keep), own - gone, live - gone, hash)
  }

  /** The one or two writes that cut a path. */
  lemma CutOutcome(img: Image, log: seq<Image>, t: Trie, own: map<nat, Owner>, live: map<nat, nat>, hash: Bytes -> Hash,
                   h: Hash, d: nat, keep: int, bar: nat)
    requires TreeOK(img, t, own, live, hash) && PruneAt(img, t, h, d, keep)
    requires keep >= 0 ==> h[..keep] in t.bars && t.bars[h[..keep]] == bar
    ensures CanPoke(img, bar, keep + 1)
    ensures var img1 := PokePath(img, bar, h, keep + 1, 0);
      && (keep >= 0 ==> IsBar(img1, bar) && img1.blocks[bar].cnt > 0 && img1.blocks[bar].cnt == img.blocks[bar].cnt)
      && var img2 := WithCntDown(img1, bar, keep + 1);
      && PathCut(img2, t, own, live, hash, h, d, keep)
      && Shown(log + [img1], |log|, |log| + 1, Prune(t, h, d, keep))
      && Shown(log + [img1] + [img2], |log|, |log| + 2, Prune(t, h, d, keep))
  {
    PruneCommit(img, t, own, live, hash, h, d, keep, bar);
    ClearedAhead(img, t, Prune(t, h, d, keep), bar, h, keep + 1);
    CountedCovers(WithCntDown(PokePath(img, bar, h, keep + 1, 0), bar, keep + 1), Prune(t, h, d, keep));
  }

  /** The record of a key stands where the allocator places an extent of that length; beyond that
      the file grew only for new bars. */
  ghost predicate SetAt(t: Trie, h: Hash, key: Bytes, spares: seq<Extent>, size: nat, length: nat, bars: nat, size': nat, start: nat) {
    && h in t.leaves && RecAt(t.leaves[h].recs, key, start) && PlacedAt(spares, length, size, start)
    && bars <= |t.bars| && size' <= Max(size, start + length) + (|t.bars| - bars) * BAR_SIZE
  }

  /** Some spare has that length, or is large enough to be split. */
  ghost predicate Fits(spares: seq<Extent>, length: nat) {
    HasExact(spares, length) || HasLarger(spares, length)
  }

  lemma SplitGrows(img: Image, t: Trie, own: map<nat, Owner>, live: map<nat, nat>, hash: Bytes -> Hash,
                   h: Hash, g: Hash, k: nat, D: nat, nb: map<Bytes, nat>, r: Rec)
    requires TreeOK(img, t, own, live, hash) && SplitOK(t, h, g, k, D) && NewBars(nb, h, k, D)
    ensures var t' := Split(t, h, g, k, D, nb, r);
      |t'.bars| == |t.bars| + (D + 1 - k) && h in t'.leaves && |t'.leaves[h].recs| > 0 && t'.leaves[h].recs[0] == r
  {
    SplitCount(t, hash, h, g, k, D, nb, r);
  }

  /** A block that fits into a spare does not grow the file, unless there are new bars. */
  lemma FitsInside(spares: seq<Extent>, live: map<nat, nat>, size: nat, start: nat, t: Trie, h: Hash, key: Bytes, length: nat,
                   bars: nat, size': nat)
    requires Canonical(spares, live, size) && SetAt(t, h, key, spares, size, length, bars, size', start)
    ensures Fits(spares, length) && |t.bars| == bars ==> size' <= size
  {
    PlacedInside(spares, live, size, length, start);
  }

  /** Up to 32 bars more, and the file longer by no more than they need. */
  ghost predicate GrownBy(t: Trie, t': Trie, size: nat, size': nat) {
    |t.bars| <= |t'.bars| <= |t.bars| + HASH_LENGTH && size' <= size + (|t'.bars| - |t.bars|) * BAR_SIZE
  }

  class Store {
    const vol: Volume
    const hash: Bytes -> Hash
    var treeRoot: nat
    ghost var t: Trie
    ghost var own: map<nat, Owner>

    ghost predicate Valid()
      reads this, vol
    {
      vol.Valid() && treeRoot == vol.img.treeRoot && TreeOK(vol.img, t, own, vol.live, hash)
    }

    /** The records by hash. */
    ghost function Contents(): Model
      reads this
    {
      ModelOf(t)
    }

    constructor (hash: Bytes -> Hash)
      ensures Valid() && fresh(vol) && this.hash == hash && Contents() == map[] && vol.img == EMPTY_IMAGE
    {
      this.hash := hash;
      vol := new Volume();
      treeRoot := 0;
      t := EMPTY_TRIE;
      own := map[];
    }

    /** butter_pt_write_new_data_blk. */
    method WriteNewDataBlk(info: Info, conflict: bool, key: Bytes, value: Bytes) returns (r: Status, start: nat, length: nat)
      requires vol.Valid() && |key| > 0 && vol.img.size + Need(key, value) <= TWO_31
      modifies vol
      ensures r == OK && vol.Valid()
      ensures start !in old(vol.live) && vol.live == old(vol.live)[start := length]
      ensures DISK_SIZE_UNIT <= length <= Need(key, value) && vol.img.size <= old(vol.img.size) + length
      ensures var blk := NewBlock(info, conflict, length, key, value);
        Written(blk) <= length && start in vol.img.blocks && vol.img.blocks[start] == blk
      ensures RecOK(Rec(start, length, key, value))
      ensures length == CeilLength((if NeedsEx(info, conflict) then DATA_EX_SIZE else DATA_SIZE) + |key| + |value|)
      ensures PlacedAt(old(vol.spares), length, old(vol.img.size), start) && vol.img.size == Max(old(vol.img.size), start + length)
      ensures old(vol.log) <= vol.log && Progress(old(vol.img), |old(vol.log)|, vol.img, vol.log, old(vol.live))
    {
      hide Canonical, ChainOK, Progress, PlacedAt, HasExact, HasLarger;
      var head := if NeedsEx(info, conflict) then DATA_EX_SIZE else DATA_SIZE;
      var pieces := if |value| > 0 then [head, |key|] else [head];
      TwoPieces(head, |key|);
      CeilFacts(head + |key| + |value|);
      r, start, length := vol.AllocAndFill(head + |key| + |value|, (n: nat) => NewBlock(info, conflict, n, key, value), pieces);
    }

    /** In the middle of an operation that started on img0 with the live extents live0: the
        tree of the start is still there, and was in every image so far. */
    ghost predicate Staged(img0: Image, from: nat, live0: map<nat, nat>)
      reads this, vol
    {
      && vol.Valid() && treeRoot == vol.img.treeRoot
      && TreeOK(img0, t, own, live0, hash)
      && Progress(img0, from, vol.img, vol.log, live0) && Sub(live0, vol.live)
    }

    /** Write the pointer at depth k of the path of h: a slot of bar, or the root on disk and
        in memory. */
    method MountPointer(bar: nat, h: Hash, k: nat, target: nat)
      requires vol.Valid() && k <= HASH_LENGTH && CanPoke(vol.img, bar, k)
      requires k > 0 ==> bar in vol.live && treeRoot == vol.img.treeRoot
      modifies `treeRoot, vol`img, vol`log
      ensures vol.Valid() && treeRoot == vol.img.treeRoot
      ensures vol.img == PokePath(old(vol.img), bar, h, k, target) && vol.log == old(vol.log) + [vol.img]
    {
      if k == 0 {
        ChainFrame(vol.img, vol.img.(treeRoot := target), vol.spares);
        vol.Commit(vol.img.(treeRoot := target));
        treeRoot := target;
      } else {
        PokeInside(vol.img, vol.spares, vol.live, vol.img.size, bar, SetBarSlot(vol.img, bar, h[k - 1], target).blocks[bar]);
        vol.Commit(SetBarSlot(vol.img, bar, h[k - 1], target));
      }
    }

    /** Write the counter of a bar. */
    method WriteCounter(bar: nat, cnt: nat)
      requires vol.Valid() && IsBar(vol.img, bar) && bar in vol.live
      modifies vol`img, vol`log
      ensures vol.Valid() && vol.img == SetBarCnt(old(vol.img), bar, cnt) && vol.log == old(vol.log) + [vol.img]
    {
      PokeInside(vol.img, vol.spares, vol.live, vol.img.size, bar, vol.img.blocks[bar].(cnt := cnt));
      vol.Commit(SetBarCnt(vol.img, bar, cnt));
    }

    /** What lookup collected about a bar is still true at the end of the writes. */
    lemma BarCollected(info: Info, h: Hash, j: nat, img0: Image, from: nat, live0: map<nat, nat>)
      requires Staged(img0, from, live0)
      requires OnPath(img0, t, h, info.starts, info.cnts) && j < |info.starts|
      ensures h[..j] in t.bars && info.starts[j] == t.bars[h[..j]] && info.starts[j] in live0 && live0[info.starts[j]] == BAR_SIZE
      ensures IsBar(vol.img, info.starts[j]) && info.cnts[j] == vol.img.blocks[info.starts[j]].cnt
    {
      assert PathBar(img0, t, h, j, info.starts[j], info.cnts[j]);
      assert BarOwned(t, own, live0, h[..j]) && KeptAt(img0, vol.img, live0, info.starts[j]);
    }

    /** The part of butter_pt_extend that fills an empty slot of a bar: first its counter. */
    method ExtendIntoBar(info: Info, h: Hash, r: Rec, ghost img0: Image, ghost from: nat, ghost live0: map<nat, nat>)
      returns (st: Status)
      requires Staged(img0, from, live0) && vol.live == live0[r.addr := r.len] && r.addr !in live0
      requires OnPath(img0, t, h, info.starts, info.cnts) && FreeSlotAt(t, h, |info.starts|) && |info.starts| > 0
      requires RecOK(r) && hash(r.key) == h && RecHolds(vol.img, [r], 0)
      modifies this, vol`img, vol`log
      ensures st == OK && Valid() && t == Mount(old(t), h, |info.starts|, r)
      ensures Switches(vol.log, from, old(t), t)
      ensures own == old(own)[r.addr := OwnRec(r.key)] && vol.img.size == old(vol.img.size) && old(vol.log) <= vol.log
    {
      var d := |info.starts|;
      var bar := info.starts[d - 1];
      BarCollected(info, h, d - 1, img0, from, live0);
      MountOutcome(img0, from, vol.img, vol.log, t, own, live0, hash, h, d, r, bar);
      st := InternalError;
      if info.cnts[d - 1] + 1 <= SLOTS {
        WriteCounter(bar, info.cnts[d - 1] + 1);
        MountPointer(bar, h, d, r.addr);
        t, own := Mount(t, h, d, r), own[r.addr := OwnRec(r.key)];
        st := OK;
      }
    }

    /** The part of butter_pt_extend that fills the empty root. */
    method ExtendIntoRoot(h: Hash, r: Rec, ghost img0: Image, ghost from: nat, ghost live0: map<nat, nat>)
      requires Staged(img0, from, live0) && vol.live == live0[r.addr := r.len] && r.addr !in live0
      requires FreeSlotAt(t, h, 0)
      requires RecOK(r) && hash(r.key) == h && RecHolds(vol.img, [r], 0)
      modifies this, vol`img, vol`log
      ensures Valid() && t == Mount(old(t), h, 0, r)
      ensures Switches(vol.log, from, old(t), t)
      ensures own == old(own)[r.addr := OwnRec(r.key)] && vol.img.size == old(vol.img.size) && old(vol.log) <= vol.log
    {
      ghost var t0, img1, log1 := t, vol.img, vol.log;
      ProgressShown(img0, from, img1, log1, t, own, live0, hash);
      MountCommit(img1, t, own, live0, hash, h, 0, r, 0);
      MountPointer(0, h, 0, r.addr);
      t, own := Mount(t0, h, 0, r), own[r.addr := OwnRec(r.key)];
      CountedCovers(vol.img, t);
      assert Shown(vol.log, |log1|, |vol.log|, t);
      SwitchAt(log1, from, t0, t, vol.log);
    }

    /** butter_pt_replace of the head of a chain, or of an unchained record: the slot or the
        root is rewritten, and the old block freed. */
    method ReplaceHead(info: Info, h: Hash, r: Rec, ghost img0: Image, ghost from: nat, ghost live0: map<nat, nat>)
      returns (st: Status)
      requires Staged(img0, from, live0) && vol.live == live0[r.addr := r.len] && vol.img.size <= TWO_31
      requires OnPath(img0, t, h, info.starts, info.cnts)
      requires Replaces(t, live0, hash, h, 0, r) && t.leaves[h].depth == |info.starts|
      requires info.dStart == t.leaves[h].recs[0].addr && info.blkLength == t.leaves[h].recs[0].len
      requires r.addr in vol.img.blocks && vol.img.blocks[r.addr] == BlockOf(t.leaves[h].recs[0 := r], 0)
      modifies this, vol
      ensures st == OK && Valid() && t == Rerec(old(t), h, old(t).leaves[h].recs[0 := r])
      ensures Switches(vol.log, from, old(t), t)
      ensures own == ReplaceOwn(old(own), r, info.dStart, false) && vol.img.size <= old(vol.img.size) && old(vol.log) <= vol.log
    {
      var d := |info.starts|;
      var bar := 0;
      if d > 0 {
        bar := info.starts[d - 1];
        BarCollected(info, h, d - 1, img0, from, live0);
      }
      ghost var img1, log1 := vol.img, vol.log;
      ghost var was := info.dStart;
      ReplaceHeadOutcome(img0, from, img1, log1, t, own, live0, hash, h, r, bar);
      MountPointer(bar, h, d, r.addr);
      ghost var img2 := vol.img;
      ReplaceLiveFacts(t, own, live0, hash, img0, h, 0, r);
      st := vol.FreeSpace(info.dStart, info.blkLength);
      ghost var t', own', live' := Rerec(t, h, t.leaves[h].recs[0 := r]), ReplaceOwn(own, r, was, false), ReplaceLive(live0, r, was, false);
      SwitchThen(img0, from, img1, log1, t, own, live0, hash, img2, t', own', live', vol.img, vol.log);
      t, own := t', own';
    }

    /** butter_pt_replace inside a chain: the predecessor is relinked, and nothing is freed. */
    method ReplaceInside(info: Info, h: Hash, ghost i: nat, r: Rec, ghost img0: Image, ghost from: nat, ghost live0: map<nat, nat>)
      requires Staged(img0, from, live0) && vol.live == live0[r.addr := r.len]
      requires Replaces(t, live0, hash, h, i, r) && 0 < i
      requires info.dPrev == t.leaves[h].recs[i - 1].addr && info.dStart == t.leaves[h].recs[i].addr
      requires r.addr in vol.img.blocks && vol.img.blocks[r.addr] == BlockOf(t.leaves[h].recs[i := r], i)
      modifies this, vol`img, vol`log
      ensures Valid() && t == Rerec(old(t), h, old(t).leaves[h].recs[i := r])
      ensures Switches(vol.log, from, old(t), t)
      ensures own == ReplaceOwn(old(own), r, info.dStart, true) && vol.img.size == old(vol.img.size) && old(vol.log) <= vol.log
    {
      ReplaceInsideOutcome(img0, from, vol.img, vol.log, t, own, live0, hash, h, i, r);
      Relink(info.dPrev, r.addr);
      t, own := Rerec(t, h, t.leaves[h].recs[i := r]), ReplaceOwn(own, r, info.dStart, true);
    }

    /** Write the next field of a DataEx block. */
    method Relink(prev: nat, next: nat)
      requires vol.Valid() && IsDataEx(vol.img, prev) && prev in vol.live
      modifies vol`img, vol`log
      ensures vol.Valid() && vol.img == SetExNext(old(vol.img), prev, next) && vol.log == old(vol.log) + [vol.img]
    {
      PokeInside(vol.img, vol.spares, vol.live, vol.img.size, prev, SetExNext(vol.img, prev, next).blocks[prev]);
      vol.Commit(SetExNext(vol.img, prev, next));
    }

    /** Allocate and write one new bar. */
    method NewBar(blk: Block) returns (st: Status, start: nat)
      requires vol.Valid() && blk.Bar? && vol.img.size + BAR_SIZE < TWO_64
      modifies vol
      ensures st == OK && vol.Valid()
      ensures start != 0 && start !in old(vol.live) && vol.live == old(vol.live)[start := BAR_SIZE]
      ensures start in vol.img.blocks && vol.img.blocks[start] == blk
      ensures PlacedAt(old(vol.spares), BAR_SIZE, old(vol.img.size), start)
      ensures vol.img.size == Max(old(vol.img.size), start + BAR_SIZE) <= old(vol.img.size) + BAR_SIZE
      ensures old(vol.log) <= vol.log && Progress(old(vol.img), |old(vol.log)|, vol.img, vol.log, old(vol.live))
    {
      var length;
      st, start, length := vol.AllocAndFill(BAR_SIZE, n => blk, []);
    }

    /** One round of the loop below: the bar at depth j of the new path. */
    method BuildBar(h: Hash, g: Hash, oldAddr: nat, j: nat, D: nat, r: Rec, last: nat, ghost nb: map<Bytes, nat>,
                    ghost own1: map<nat, Owner>, ghost blk: Block,
                    ghost img0: Image, ghost from: nat, ghost live0: map<nat, nat>)
      returns (start: nat)
      requires Staged(img0, from, live0) && j <= D
      requires BarsBuilt(vol.img, vol.live, t, h, g, j + 1, D, nb, r, own, live0, own1, last, blk)
      requires oldAddr == t.leaves[g].recs[0].addr && vol.img.size + BAR_SIZE < TWO_64
      modifies vol
      ensures Staged(img0, from, live0)
      ensures BarsBuilt(vol.img, vol.live, t, h, g, j, D, nb[h[..j] := start], r, own, live0, own1[start := OwnBar(h[..j])], start, blk)
      ensures PlacedAt(old(vol.spares), BAR_SIZE, old(vol.img.size), start)
      ensures vol.img.size == Max(old(vol.img.size), start + BAR_SIZE) <= old(vol.img.size) + BAR_SIZE && old(vol.log) <= vol.log
    {
      var st;
      st, start := NewBar(SplitBar(h, g, j, D, r.addr, oldAddr, last));
      BarBuilt(old(vol.img), old(vol.live), vol.img, t, h, g, j, D, nb, r, own, live0, own1, last, blk, start);
      ProgressOn(img0, from, old(vol.img), old(vol.log), live0, vol.img, vol.log, old(vol.live));
    }

    /** The loop of butter_pt_extend that writes new bars, deepest first, until a level that
        has one; gives the address to mount. */
    method BuildBars(info: Info, h: Hash, g: Hash, D: nat, r: Rec, ghost blk: Block,
                     ghost img0: Image, ghost from: nat, ghost live0: map<nat, nat>)
      returns (last: nat, ghost nb: map<Bytes, nat>, ghost own1: map<nat, Owner>)
      requires Staged(img0, from, live0) && |info.starts| <= D < HASH_LENGTH && g in t.leaves && |t.leaves[g].recs| > 0
      requires BarsBuilt(vol.img, vol.live, t, h, g, D + 1, D, map[], r, own, live0, own[r.addr := OwnRec(r.key)], r.addr, blk)
      requires info.dStart == t.leaves[g].recs[0].addr
      requires vol.img.size + HASH_LENGTH * BAR_SIZE < TWO_64
      modifies vol
      ensures Staged(img0, from, live0)
      ensures BarsBuilt(vol.img, vol.live, t, h, g, |info.starts|, D, nb, r, own, live0, own1, last, blk)
      ensures vol.img.size <= old(vol.img.size) + (D + 1 - |info.starts|) * BAR_SIZE && old(vol.log) <= vol.log
    {
      hide BarsBuilt, Progress, TreeOK, Canonical, ChainOK, Sub;
      last, nb, own1 := r.addr, map[], own[r.addr := OwnRec(r.key)];
      var idx: int := D;
      while idx >= |info.starts|
        invariant |info.starts| - 1 <= idx <= D
        invariant Staged(img0, from, live0)
        invariant BarsBuilt(vol.img, vol.live, t, h, g, idx + 1, D, nb, r, own, live0, own1, last, blk)
        invariant vol.img.size <= old(vol.img.size) + (D - idx) * BAR_SIZE && old(vol.log) <= vol.log
      {
        var start := BuildBar(h, g, info.dStart, idx, D, r, last, nb, own1, blk, img0, from, live0);
        last, nb, own1 := start, nb[h[..idx] := start], own1[start := OwnBar(h[..idx])];
        idx := idx - 1;
      }
    }

    /** The first hash byte in which two keys differ; HASH_LENGTH for equal hashes. */
    static method FirstDifference(h: Hash, g: Hash) returns (i: nat)
      ensures i <= HASH_LENGTH && h[..i] == g[..i] && (i < HASH_LENGTH ==> h[i] != g[i])
    {
      i := 0;
      while i < HASH_LENGTH && h[i] == g[i]
        invariant i <= HASH_LENGTH && h[..i] == g[..i]
      {
        Snoc(h, i);
        Snoc(g, i);
        i := i + 1;
      }
    }

    /** What an extension of a taken path achieves. */
    twostate predicate Extended(h: Hash, r: Rec, from: nat)
      reads this, vol
    {
      && Valid() && ModelOf(t) == ModelOf(old(t))[h := [KV(r.key, r.value)] + Group(ModelOf(old(t)), h)]
      && Switches(vol.log, from, old(t), t)
      && LeaksOf(own) == LeaksOf(old(own)) && old(vol.log) <= vol.log
      && GrownBy(old(t), t, old(vol.img.size), vol.img.size)
      && h in t.leaves && |t.leaves[h].recs| > 0 && t.leaves[h].recs[0] == r
    }

    /** The topmost new bar is mounted. */
    method MountSplit(info: Info, h: Hash, ghost g: Hash, ghost D: nat, last: nat, ghost nb: map<Bytes, nat>, ghost own1: map<nat, Owner>,
                      ghost r: Rec, ghost img0: Image, ghost from: nat, ghost live0: map<nat, nat>)
      requires Staged(img0, from, live0)
      requires OnPath(img0, t, h, info.starts, info.cnts) && SplitOK(t, h, g, |info.starts|, D) && NewRecord(t, live0, hash, h, g, r)
      requires BarsBuilt(vol.img, vol.live, t, h, g, |info.starts|, D, nb, r, own, live0, own1, last, NewRecordBlock(t, h, g, r))
      modifies this, vol`img, vol`log
      ensures Valid() && ModelOf(t) == ModelOf(old(t))[h := [KV(r.key, r.value)] + Group(ModelOf(old(t)), h)]
      ensures Switches(vol.log, from, old(t), t) && LeaksOf(own) == LeaksOf(old(own))
      ensures vol.img.size == old(vol.img.size) && old(vol.log) <= vol.log
      ensures t == Split(old(t), h, g, |info.starts|, D, nb, r)
    {
      hide TreeOK, Canonical, ChainOK, Progress, BarsBuilt, NewRecord, Switches, ModelOf, Split, LeaksOf;
      var k := |info.starts|;
      var bar := 0;
      if k > 0 {
        bar := info.starts[k - 1];
        BarCollected(info, h, k - 1, img0, from, live0);
      }
      SplitOutcome(img0, from, vol.img, vol.log, t, own, live0, hash, h, g, k, D, nb, r, own1, vol.live, bar, last);
      MountPointer(bar, h, k, last);
      t, own := Split(t, h, g, k, D, nb, r), own1;
    }

    /** All new bars of a split are written. */
    method BuildSplit(info: Info, h: Hash, g: Hash, D: nat, r: Rec, ghost img0: Image, ghost from: nat, ghost live0: map<nat, nat>)
      returns (last: nat, ghost nb: map<Bytes, nat>, ghost own1: map<nat, Owner>)
      requires Staged(img0, from, live0) && vol.live == live0[r.addr := r.len] && r.addr !in live0
      requires OnPath(img0, t, h, info.starts, info.cnts) && SplitOK(t, h, g, |info.starts|, D)
      requires info.dStart == t.leaves[g].recs[0].addr && NewRecord(t, live0, hash, h, g, r)
      requires r.addr in vol.img.blocks && vol.img.blocks[r.addr] == NewRecordBlock(t, h, g, r)
      requires vol.img.size + HASH_LENGTH * BAR_SIZE < TWO_64
      modifies vol
      ensures Staged(img0, from, live0)
      ensures BarsBuilt(vol.img, vol.live, t, h, g, |info.starts|, D, nb, r, own, live0, own1, last, NewRecordBlock(t, h, g, r))
      ensures NewBars(nb, h, |info.starts|, D) && nb[h[..|info.starts|]] != t.leaves[g].recs[0].addr
      ensures vol.img.size <= old(vol.img.size) + (D + 1 - |info.starts|) * BAR_SIZE && old(vol.log) <= vol.log
    {
      hide TreeOK, Canonical, ChainOK, Progress, Sub, OnPath;
      NoBarsBuilt(vol.img, t, own, live0, hash, img0, h, g, D, r);
      last, nb, own1 := BuildBars(info, h, g, D, r, NewRecordBlock(t, h, g, r), img0, from, live0);
      BarsAreNew(vol.img, vol.live, t, h, g, |info.starts|, D, nb, r, own, live0, own1, last, NewRecordBlock(t, h, g, r), img0, hash);
    }

    /** The new bars are written, then the topmost one is mounted. */
    method ExtendSplit(info: Info, h: Hash, g: Hash, D: nat, r: Rec, ghost img0: Image, ghost from: nat, ghost live0: map<nat, nat>)
      returns (ghost nb: map<Bytes, nat>)
      requires Staged(img0, from, live0) && vol.live == live0[r.addr := r.len] && r.addr !in live0
      requires OnPath(img0, t, h, info.starts, info.cnts) && SplitOK(t, h, g, |info.starts|, D)
      requires info.dStart == t.leaves[g].recs[0].addr && NewRecord(t, live0, hash, h, g, r)
      requires r.addr in vol.img.blocks && vol.img.blocks[r.addr] == NewRecordBlock(t, h, g, r)
      requires vol.img.size + HASH_LENGTH * BAR_SIZE < TWO_64
      modifies this, vol
      ensures Extended(h, r, from)
      ensures NewBars(nb, h, |info.starts|, D) && t == Split(old(t), h, g, |info.starts|, D, nb, r)
      ensures nb[h[..|info.starts|]] != old(t).leaves[g].recs[0].addr
    {
      hide TreeOK, Canonical, ChainOK, Progress, Sub, OnPath, BarsBuilt, NewRecord, NewRecordBlock, Switches, ModelOf, LeaksOf, Group, Split;
      var last;
      ghost var own1;
      last, nb, own1 := BuildSplit(info, h, g, D, r, img0, from, live0);
      SplitGrows(img0, t, own, live0, hash, h, g, |info.starts|, D, nb, r);
      MountSplit(info, h, g, D, last, nb, own1, r, img0, from, live0);
    }

    /** At the last level the new block itself is mounted. */
    method ExtendChain(info: Info, h: Hash, r: Rec, ghost img0: Image, ghost from: nat, ghost live0: map<nat, nat>)
      requires Staged(img0, from, live0) && vol.live == live0[r.addr := r.len] && r.addr !in live0
      requires OnPath(img0, t, h, info.starts, info.cnts) && |info.starts| == HASH_LENGTH
      requires h in t.leaves && t.leaves[h].depth == HASH_LENGTH && |t.leaves[h].recs| > 0
      requires NewRecord(t, live0, hash, h, h, r)
      requires r.addr in vol.img.blocks && vol.img.blocks[r.addr] == NewRecordBlock(t, h, h, r)
      modifies this, vol`img, vol`log
      ensures Extended(h, r, from) && t == Rerec(old(t), h, [r] + old(t).leaves[h].recs)
    {
      var bar := info.starts[HASH_LENGTH - 1];
      BarCollected(info, h, HASH_LENGTH - 1, img0, from, live0);
      PrependOutcome(img0, from, vol.img, vol.log, t, own, live0, hash, h, r, bar);
      MountPointer(bar, h, HASH_LENGTH, r.addr);
      t, own := Rerec(t, h, [r] + t.leaves[h].recs), own[r.addr := OwnRec(r.key)];
    }

    /** butter_pt_extend when the path is taken by a chain of hash g. */
    method ExtendPath(info: Info, h: Hash, g: Hash, r: Rec, ghost img0: Image, ghost from: nat, ghost live0: map<nat, nat>)
      returns (st: Status, i: nat)
      requires Staged(img0, from, live0) && vol.live == live0[r.addr := r.len] && r.addr !in live0
      requires OnPath(img0, t, h, info.starts, info.cnts) && Taken(t, h, |info.starts|, g)
      requires |t.leaves[g].recs| == 1 ==> info.dStart == t.leaves[g].recs[0].addr
      requires NewRecord(t, live0, hash, h, g, r)
      requires r.addr in vol.img.blocks && vol.img.blocks[r.addr] == NewRecordBlock(t, h, g, r)
      requires vol.img.size + HASH_LENGTH * BAR_SIZE < TWO_64
      modifies this, vol
      ensures st == OK && Extended(h, r, from)
      ensures i <= HASH_LENGTH && h[..i] == g[..i] && (i < HASH_LENGTH ==> h[i] != g[i])
      ensures PathSplit(old(t), t, h, |info.starts|, i)
    {
      var k := |info.starts|;
      i := FirstDifference(h, g);
      TakenBelow(t, hash, h, k, g, i);
      var D := if i == HASH_LENGTH then HASH_LENGTH - 1 else i;
      st := InternalError;
      if k <= i + 1 {
        if k <= D {
          ghost var nb := ExtendSplit(info, h, g, D, r, img0, from, live0);
          SplitIsPathSplit(old(t), hash, h, g, k, i, D, nb, r);
        } else {
          NewAddress(t, own, live0, hash, img0, h, r);
          ExtendChain(info, h, r, img0, from, live0);
          RerecIsPathSplit(old(t), hash, h, [r] + old(t).leaves[h].recs);
        }
        st := OK;
      }
    }

    /** butter_pt_replace. */
    method Replace(info: Info, h: Hash, key: Bytes, r: Rec, ghost img0: Image, ghost from: nat, ghost live0: map<nat, nat>)
      returns (st: Status)
      requires Staged(img0, from, live0) && vol.live == live0[r.addr := r.len] && vol.img.size <= TWO_31
      requires OnPath(img0, t, h, info.starts, info.cnts) && FoundChain(info, t, h, key, true) && info.matched
      requires r.addr !in live0 && RecOK(r) && r.key == key && r.addr in vol.img.blocks
      requires vol.img.blocks[r.addr] == NewBlock(info, false, r.len, key, r.value) && Written(vol.img.blocks[r.addr]) <= r.len
      modifies this, vol
      ensures st == OK && Valid()
      ensures Contents() == SpecSet(old(Contents()), h, key, r.value).1
      ensures Switches(vol.log, from, old(t), t)
      ensures LeaksOf(own) == LeaksOf(old(own)) + (if info.dPrev != 0 then {info.dStart} else {})
      ensures info.dStart !in LeaksOf(old(own))
      ensures vol.img.size <= old(vol.img.size) && old(vol.log) <= vol.log
      ensures t.bars == old(t).bars && h in t.leaves && RecAt(t.leaves[h].recs, key, r.addr)
    {
      ReplacingBlock(info, false, t, hash, h, key, r.value, r);
      ghost var i := IndexOf(t.leaves[h].recs, key);
      ReplaceModel(info, t, own, live0, hash, img0, h, key, i, r);
      if info.dPrev != 0 {
        ReplaceInside(info, h, i, r, img0, from, live0);
        st := OK;
      } else {
        st := ReplaceHead(info, h, r, img0, from, live0);
      }
      assert t.leaves[h].recs[i] == r;
    }

    /** butter_pt_extend. */
    method Extend(info: Info, h: Hash, g: Hash, key: Bytes, r: Rec, ghost img0: Image, ghost from: nat, ghost live0: map<nat, nat>)
      returns (st: Status)
      requires Staged(img0, from, live0) && vol.live == live0[r.addr := r.len]
      requires Found(info, img0, t, h, key, true) && info.status == NotFound
      requires info.dKey.Some? ==> g == hash(info.dKey.value)
      requires r.addr !in live0 && RecOK(r) && r.key == key && hash(key) == h && r.addr in vol.img.blocks
      requires vol.img.blocks[r.addr] == NewBlock(info, g == h, r.len, key, r.value) && Written(vol.img.blocks[r.addr]) <= r.len
      requires vol.img.size + HASH_LENGTH * BAR_SIZE < TWO_64
      modifies this, vol
      ensures st == OK && Extended(h, r, from)
    {
      ExtendCases(info, img0, t, own, live0, hash, h, g, key, r);
      if info.dStart != 0 {
        var i;
        st, i := ExtendPath(info, h, g, r, img0, from, live0);
      } else if |info.starts| > 0 {
        MountLeaks(t, own, live0, hash, img0, h, |info.starts|, r);
        st := ExtendIntoBar(info, h, r, img0, from, live0);
      } else {
        MountLeaks(t, own, live0, hash, img0, h, |info.starts|, r);
        ExtendIntoRoot(h, r, img0, from, live0);
        st := OK;
      }
    }

    /** The part of butter_pt_set that writes the new block. */
    method WriteRecord(info: Info, h: Hash, g: Hash, key: Bytes, value: Bytes) returns (rec: Rec)
      requires Valid() && |key| > 0 && vol.img.size + Need(key, value) <= TWO_31 && h == hash(key)
      requires Found(info, vol.img, t, h, key, true) && (info.status == OK || info.status == NotFound)
      requires g == if info.dKey.Some? then hash(info.dKey.value) else h
      modifies vol
      ensures Staged(old(vol.img), |old(vol.log)|, old(vol.live)) && old(vol.log) <= vol.log
      ensures rec.key == key && rec.value == value && RecOK(rec)
      ensures rec.addr !in old(vol.live) && vol.live == old(vol.live)[rec.addr := rec.len] && rec.addr in vol.img.blocks
      ensures vol.img.blocks[rec.addr] == NewBlock(info, if info.matched then false else g == h, rec.len, key, value)
      ensures Written(vol.img.blocks[rec.addr]) <= rec.len <= Need(key, value)
      ensures rec.len == BlockLength(Contents(), h, key, value)
      ensures PlacedAt(old(vol.spares), rec.len, old(vol.img.size), rec.addr)
      ensures vol.img.size == Max(old(vol.img.size), rec.addr + rec.len) <= old(vol.img.size) + rec.len
    {
      hide TreeOK, Found, Canonical, ChainOK, ModelOf, PlacedAt, CeilLength, NewBlock, Progress, Sub, RecOK, Written, NeedsEx, BeforeAnother;
      var conflict := !info.matched && info.dKey.Some? && g == h;
      KindOfBlock(info, conflict, vol.img, t, own, vol.live, hash, h, key);
      var r, start, length := WriteNewDataBlk(info, conflict, key, value);
      rec := Rec(start, length, key, value);
      SameBlock(info, conflict, g == h, length, key, value);
      Begun(old(vol.img), |old(vol.log)|, vol.img, vol.log, old(vol.live), start, length);
    }

    /** butter_pt_set after its lookup. */
    method SetFound(info: Info, h: Hash, key: Bytes, value: Bytes) returns (r: Status, start: nat)
      requires Valid() && |key| > 0 && vol.img.size + Need(key, value) <= TWO_31 && h == hash(key)
      requires Found(info, vol.img, t, h, key, true) && (info.status == OK || info.status == NotFound)
      modifies this, vol
      ensures r == OK && Valid() && old(vol.log) <= vol.log && Switches(vol.log, |old(vol.log)|, old(t), t)
      ensures Contents() == SpecSet(old(Contents()), h, key, value).1
      ensures vol.img.size <= old(vol.img.size) + Need(key, value) + HASH_LENGTH * BAR_SIZE
      ensures LeaksOf(own) == LeaksOf(old(own)) + (if info.matched && info.dPrev != 0 then {info.dStart} else {})
      ensures info.matched ==> info.dStart !in LeaksOf(old(own))
      ensures SetAt(t, h, key, old(vol.spares), old(vol.img.size), BlockLength(old(Contents()), h, key, value),
                    |old(t).bars|, vol.img.size, start)
    {
      hide TreeOK, Canonical, ChainOK, ModelOf, LeaksOf, PlacedAt, BlockLength, Found, FoundChain, OnPath, Progress, Sub, Switches,
           NewBlock, RecOK, Written, Need, Answer, Group, Position;
      AnswerFound(info, vol.img, t, h, key);
      FoundOnPath(info, vol.img, t, h, key);
      var g := if info.dKey.Some? then hash(info.dKey.value) else h;
      ghost var img0, live0, from := vol.img, vol.live, |vol.log|;
      var rec := WriteRecord(info, h, g, key, value);
      start := rec.addr;
      if info.matched {
        r := Replace(info, h, key, rec, img0, from, live0);
      } else {
        r := Extend(info, h, g, key, rec, img0, from, live0);
        RecFirst(t.leaves[h].recs, rec);
      }
    }

    /** butter_pt_set. The size bound is the one of the comparator: all offsets below 2^31. */
    method Set(key: Bytes, value: Bytes) returns (r: Status)
      requires Valid() && |key| > 0 && vol.img.size + Need(key, value) <= TWO_31
      modifies this, vol
      ensures Valid() && old(vol.log) <= vol.log
      ensures (r, Contents()) == SpecSet(old(Contents()), hash(key), key, value)
      ensures Atomic(vol.log, |old(vol.log)|, old(Contents()), Contents(), hash)
      ensures r == OK ==> Switches(vol.log, |old(vol.log)|, old(t), t)
      ensures r != OK ==> unchanged(this) && unchanged(vol)
      ensures vol.img.size <= old(vol.img.size) + Need(key, value) + HASH_LENGTH * BAR_SIZE
      ensures if LeaksInside(old(Contents()), hash(key), key)
              then exists a :: a !in LeaksOf(old(own)) && LeaksOf(own) == LeaksOf(old(own)) + {a}
              else LeaksOf(own) == LeaksOf(old(own))
      ensures r == OK ==> exists start :: SetAt(t, hash(key), key, old(vol.spares), old(vol.img.size),
        BlockLength(old(Contents()), hash(key), key, value), |old(t).bars|, vol.img.size, start)
      ensures r == OK && |t.bars| == |old(t).bars| && Fits(old(vol.spares), BlockLength(old(Contents()), hash(key), key, value)) ==>
        vol.img.size <= old(vol.img.size)
    {
      var h := hash(key);
      var info, ios := Lookup(vol.img, treeRoot, h, key, true);
      LookupOnTrie(vol.img, t, hash, key, true);
      AnswerFound(info, vol.img, t, h, key);
      if info.status != OK && info.status != NotFound {
        AtomicNothing(vol.log, Contents(), hash);
        return info.status;
      }
      if info.matched { LeakCondition(info, t, hash, h, key); }
      var start;
      r, start := SetFound(info, h, key, value);
      FitsInside(old(vol.spares), old(vol.live), old(vol.img.size), start, t, h, key, BlockLength(old(Contents()), h, key, value),
                 |old(t).bars|, vol.img.size);
      SwitchesAtomic(vol.log, |old(vol.log)|, old(t), t, hash);
    }

    /** butter_pt_get; cap is the size of the buffer of the caller, if there is one. */
    method Get(key: Bytes, cap: Option<nat>) returns (r: Status, value: Bytes)
      requires Valid() && |key| > 0
      ensures var (st, v) := SpecGet(Contents(), hash(key), key);
        && r == (if st == OK && cap.Some? && cap.value < |v| then BufferTooSmall else st)
        && value == (if r == OK then v else [])
    {
      var h := hash(key);
      var info, ios := Lookup(vol.img, treeRoot, h, key, false);
      LookupOnTrie(vol.img, t, hash, key, false);
      ValueFound(info, vol.img, t, h, key);
      if info.status != OK {
        return info.status, [];
      }
      if |info.value| == 0 {
        return OK, [];
      }
      if cap.Some? && cap.value < |info.value| {
        return BufferTooSmall, [];
      }
      return OK, info.value;
    }

    /** The loop of butter_pt_del that frees the bars below the one that stays. */
    method FreePath(starts: seq<nat>, keep: int, ghost rest: map<nat, nat>)
      requires vol.Valid() && vol.img.size <= TWO_31 && -1 <= keep < |starts|
      requires forall j :: keep < j < |starts| ==> InExtent(vol.live, starts[j]) && starts[j] !in rest
      requires forall i, j :: keep < i < j < |starts| ==> starts[i] != starts[j]
      requires Sub(rest, vol.live)
      modifies vol
      ensures vol.Valid() && vol.img.size <= old(vol.img.size)
      ensures vol.live == old(vol.live) - Below(starts, keep) && Sub(rest, vol.live)
      ensures old(vol.log) <= vol.log && Progress(old(vol.img), |old(vol.log)|, vol.img, vol.log, rest)
    {
      var idx: int := |starts| - 1;
      while idx > keep
        invariant keep <= idx < |starts|
        invariant vol.Valid() && vol.img.size <= old(vol.img.size)
        invariant vol.live == old(vol.live) - Below(starts, idx) && Sub(rest, vol.live)
        invariant old(vol.log) <= vol.log && Progress(old(vol.img), |old(vol.log)|, vol.img, vol.log, rest)
      {
        ghost var img1, log1, live1 := vol.img, vol.log, vol.live;
        BelowStep(old(vol.live), starts, keep, idx, rest);
        var st := vol.FreeSpace(starts[idx], BAR_SIZE);
        ProgressOn(old(vol.img), |old(vol.log)|, img1, log1, rest, vol.img, vol.log, vol.live);
        idx := idx - 1;
      }
    }

    /** The level search of butter_pt_del: the deepest bar that counts more than one slot. */
    static method LevelToKeep(cnts: seq<nat>) returns (keep: int)
      ensures -1 <= keep < |cnts| && (keep >= 0 ==> cnts[keep] > 1)
      ensures forall j :: keep < j < |cnts| ==> cnts[j] <= 1
    {
      keep := |cnts| - 1;
      while keep >= 0 && cnts[keep] <= 1
        invariant -1 <= keep < |cnts|
        invariant forall j :: keep < j < |cnts| ==> cnts[j] <= 1
      {
        keep := keep - 1;
      }
    }

    /** The first writes of butter_pt_del: the path is cut at the level to keep, or at the
        root, and the bar there counts one less. */
    method CutPath(info: Info, h: Hash, keep: int)
      requires Valid() && OnPath(vol.img, t, h, info.starts, info.cnts) && PruneAt(vol.img, t, h, |info.starts|, keep)
      modifies `treeRoot, vol`img, vol`log
      ensures vol.Valid() && treeRoot == vol.img.treeRoot && vol.img.size == old(vol.img.size)
      ensures forall j :: keep < j < |info.starts| && 0 <= j ==> h[..j] in t.bars
      ensures PathCut(vol.img, t, own, vol.live, hash, h, |info.starts|, keep)
      ensures old(vol.log) <= vol.log && Shown(vol.log, |old(vol.log)|, |vol.log|, Prune(t, h, |info.starts|, keep))
    {
      var bar := 0;
      if keep >= 0 {
        bar := info.starts[keep];
        assert PathBar(vol.img, t, h, keep, bar, info.cnts[keep]);
        assert BarOwned(t, own, vol.live, h[..keep]);
      }
      CutOutcome(vol.img, vol.log, t, own, vol.live, hash, h, |info.starts|, keep, bar);
      MountPointer(bar, h, keep + 1, 0);
      if keep >= 0 {
        WriteCounter(bar, info.cnts[keep] - 1);
      }
    }

    /** The frees of butter_pt_del: the bars below the level to keep, then the record. */
    method FreeCut(info: Info, keep: int, ghost t': Trie, ghost own': map<nat, Owner>, ghost rest: map<nat, nat>) returns (r: Status)
      requires vol.Valid() && vol.img.size <= TWO_31 && -1 <= keep < |info.starts|
      requires forall j :: keep < j < |info.starts| ==> InExtent(vol.live, info.starts[j]) && info.starts[j] != info.dStart
      requires forall i, j :: keep < i < j < |info.starts| ==> info.starts[i] != info.starts[j]
      requires info.dStart in vol.live && vol.live[info.dStart] == info.blkLength
      requires rest == vol.live - Below(info.starts, keep) - {info.dStart}
      requires TreeOK(vol.img, t', own', rest, hash)
      modifies vol
      ensures r == OK && vol.Valid() && vol.img.size <= old(vol.img.size) && vol.live == rest
      ensures TreeOK(vol.img, t', own', rest, hash) && vol.img.treeRoot == old(vol.img.treeRoot)
      ensures old(vol.log) <= vol.log && Shown(vol.log, |old(vol.log)|, |vol.log|, t')
    {
      RestFacts(vol.live, info.starts, keep, info.dStart, rest);
      FreePath(info.starts, keep, rest);
      ghost var img2, log2 := vol.img, vol.log;
      r := vol.FreeSpace(info.dStart, info.blkLength);
      ProgressOn(old(vol.img), |old(vol.log)|, img2, log2, rest, vol.img, vol.log, rest);
      ProgressShown(old(vol.img), |old(vol.log)|, vol.img, vol.log, t', own', rest, hash);
    }

    /** butter_pt_del after its lookup found a record that is alone in its chain. */
    method DelFound(info: Info, h: Hash, keep: int) returns (r: Status)
      requires Valid() && vol.img.size <= TWO_31 && OnPath(vol.img, t, h, info.starts, info.cnts)
      requires PruneAt(vol.img, t, h, |info.starts|, keep)
      requires Deletable(info, t, vol.live, h, keep)
      modifies this, vol
      ensures r == OK && Valid() && t == Prune(old(t), h, |info.starts|, keep)
      ensures old(vol.log) <= vol.log && Shown(vol.log, |old(vol.log)|, |vol.log|, t)
      ensures own == old(own) - (Below(info.starts, keep) + {info.dStart}) && vol.img.size <= old(vol.img.size)
    {
      CutPath(info, h, keep);
      GoneIs(info, t, vol.live, h, keep);
      ghost var log1 := vol.log;
      t, own := Prune(t, h, |info.starts|, keep), own - (Below(info.starts, keep) + {info.dStart});
      r := FreeCut(info, keep, t, own, vol.live - Below(info.starts, keep) - {info.dStart});
      ShownJoin(|old(vol.log)|, log1, vol.log, t);
    }

    /** butter_pt_del. */
    method Del(key: Bytes) returns (r: Status)
      requires Valid() && |key| > 0 && vol.img.size <= TWO_31
      modifies this, vol
      ensures Valid() && old(vol.log) <= vol.log && vol.img.size <= old(vol.img.size)
      ensures (r, Contents()) == SpecDel(old(Contents()), hash(key), key)
      ensures r == OK ==> ReadsAll(vol.log, |old(vol.log)|, |vol.log|, Contents(), hash)
      ensures r == OK ==> Shown(vol.log, |old(vol.log)|, |vol.log|, t)
      ensures r != OK ==> unchanged(this) && unchanged(vol)
      ensures LeaksOf(own) == LeaksOf(old(own))
    {
      var h := hash(key);
      var info, ios := Lookup(vol.img, treeRoot, h, key, false);
      LookupOnTrie(vol.img, t, hash, key, false);
      ValueFound(info, vol.img, t, h, key);
      if info.status != OK {
        return info.status;
      }
      ChainedOrNot(info, t, hash, h, key);
      if info.dPrev != 0 {
        return InternalError;
      } else if info.dNext != 0 {
        return InternalError;
      }
      var keep := LevelToKeep(info.cnts);
      DeleteReady(info, vol.img, t, own, vol.live, hash, h, key, keep);
      PruneModel(t, h, |info.starts|, keep);
      r := DelFound(info, h, keep);
      ShownReads(vol.log, |old(vol.log)|, |vol.log|, t, hash);
    }
  }
}