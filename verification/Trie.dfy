/** The 256-way hash trie as a mathematical object, and what it means for a file to hold
    it. Paths are prefixes of hashes: a bar hangs at the path that leads to it, a chain of
    records of one hash at a prefix of that hash. */
module TrieShape {
  import opened Layout
  import opened FreeProgram

  datatype KV = KV(key: Bytes, value: Bytes)
  datatype Rec = Rec(addr: nat, len: nat, key: Bytes, value: Bytes)

  /** The records of one hash, in chain order, and the depth at which they hang. */
  datatype Leaf = Leaf(depth: nat, recs: seq<Rec>)

  /** bars: path to address. at: path to the hash whose chain hangs there. */
  datatype Trie = Trie(bars: map<Bytes, nat>, at: map<Bytes, Hash>, leaves: map<Hash, Leaf>)

  const EMPTY_TRIE := Trie(map[], map[], map[])

  /** Lookup reads eight DataEx blocks and one Data block at most. */
  const HASH_COLLISION_MAX: nat := 8

  // ---------------------------------------------------------------- shape

  ghost predicate DistinctKeys(recs: seq<Rec>) {
    forall i, j :: 0 <= i < j < |recs| ==> recs[i].key != recs[j].key
  }

  /** A record as it is stored: a non-empty key, and room for header, key and value. */
  predicate RecOK(r: Rec) {
    r.addr != 0 && |r.key| > 0 && DISK_SIZE_UNIT <= r.len && DATA_SIZE + |r.key| + |r.value| <= r.len
  }

  ghost predicate LeafOK(leaf: Leaf, h: Hash, hash: Bytes -> Hash) {
    && leaf.depth <= HASH_LENGTH
    && 1 <= |leaf.recs| <= HASH_COLLISION_MAX + 2
    && (|leaf.recs| > 1 ==> leaf.depth == HASH_LENGTH)
    && (forall i :: 0 <= i < |leaf.recs| ==> RecOK(leaf.recs[i]) && hash(leaf.recs[i].key) == h)
    && DistinctKeys(leaf.recs)
  }

  function Parent(p: Bytes): Bytes
    requires |p| > 0
  {
    p[..|p| - 1]
  }

  ghost predicate BarPath(t: Trie, p: Bytes) {
    p in t.bars ==> t.bars[p] != 0 && |p| < HASH_LENGTH
  }

  ghost predicate ChainPath(t: Trie, p: Bytes) {
    p in t.at ==>
      && p !in t.bars && |p| <= HASH_LENGTH
      && t.at[p] in t.leaves && t.leaves[t.at[p]].depth == |p| && t.at[p][..|p|] == p
  }

  ghost predicate LeafPath(t: Trie, hash: Bytes -> Hash, h: Hash) {
    h in t.leaves ==>
      && LeafOK(t.leaves[h], h, hash)
      && h[..t.leaves[h].depth] in t.at && t.at[h[..t.leaves[h].depth]] == h
  }

  /** A bar leads to every path in use. */
  ghost predicate Rooted(t: Trie) {
    forall p {:trigger Parent(p)} :: |p| > 0 && (p in t.bars || p in t.at) ==> Parent(p) in t.bars
  }

  ghost predicate Shape(t: Trie, hash: Bytes -> Hash) {
    && Rooted(t)
    && (forall p {:trigger BarPath(t, p)} :: BarPath(t, p))
    && (forall p {:trigger ChainPath(t, p)} :: ChainPath(t, p))
    && (forall h {:trigger LeafPath(t, hash, h)} :: LeafPath(t, hash, h))
  }

  /** One level further down the path of h. */
  lemma Snoc(h: Bytes, i: nat)
    requires i < |h|
    ensures h[..i] + [h[i]] == h[..i + 1] && Parent(h[..i + 1]) == h[..i]
  {
  }

  /** Every proper prefix of a path in use is the path of a bar. */
  lemma {:induction false} Closed(t: Trie, hash: Bytes -> Hash, p: Bytes, i: nat)
    requires Shape(t, hash) && (p in t.bars || p in t.at) && i < |p|
    ensures p[..i] in t.bars
    decreases |p|
  {
    var q := Parent(p);
    assert q in t.bars;
    if i < |q| {
      Closed(t, hash, q, i);
      assert q[..i] == p[..i];
    } else {
      assert q == p[..i];
    }
  }

  /** Nothing hangs below a chain. */
  lemma NothingBelow(t: Trie, hash: Bytes -> Hash, p: Bytes, q: Bytes)
    requires Shape(t, hash) && p !in t.bars
    requires |p| < |q| && q[..|p|] == p
    ensures q !in t.bars && q !in t.at
  {
    if q in t.bars || q in t.at { Closed(t, hash, q, |p|); }
  }

  // ---------------------------------------------------------------- pointers

  /** The address stored in the slot (or the info block) that path q leads to; 0 for none. */
  function Ptr(t: Trie, q: Bytes): nat {
    if q in t.bars then t.bars[q]
    else if q in t.at && t.at[q] in t.leaves && |t.leaves[t.at[q]].recs| > 0 then t.leaves[t.at[q]].recs[0].addr
    else 0
  }

  function BlockOf(recs: seq<Rec>, i: nat): Block
    requires i < |recs|
  {
    var r := recs[i];
    if i + 1 == |recs| then Data(r.len, r.key, r.value) else DataEx(r.len, recs[i + 1].addr, r.key, r.value)
  }

  ghost predicate BarHolds(img: Image, t: Trie, p: Bytes, a: nat) {
    IsBar(img, a) && forall b: Byte :: img.blocks[a].jump[b] == Ptr(t, p + [b])
  }

  ghost predicate RecHolds(img: Image, recs: seq<Rec>, i: nat)
    requires i < |recs|
  {
    recs[i].addr in img.blocks && img.blocks[recs[i].addr] == BlockOf(recs, i)
  }

  /** Read from its root on disk, the file holds the trie. */
  ghost predicate Holds(img: Image, t: Trie) {
    && img.treeRoot == Ptr(t, [])
    && (forall p {:trigger BarHolds(img, t, p, t.bars[p])} :: p in t.bars ==> BarHolds(img, t, p, t.bars[p]))
    && (forall h, i {:trigger RecHolds(img, t.leaves[h].recs, i)} ::
         h in t.leaves && 0 <= i < |t.leaves[h].recs| ==> RecHolds(img, t.leaves[h].recs, i))
  }

  // ---------------------------------------------------------------- counters

  /** Number of slots in use, from slot i on. */
  function NonZeroFrom(jump: Slots, i: nat): nat
    requires i <= SLOTS
    decreases SLOTS - i
  {
    if i == SLOTS then 0 else (if jump[i] != 0 then 1 else 0) + NonZeroFrom(jump, i + 1)
  }

  function NonZero(jump: Slots): nat { NonZeroFrom(jump, 0) }

  ghost predicate CntOK(img: Image, a: nat) {
    IsBar(img, a) && img.blocks[a].cnt == NonZero(img.blocks[a].jump) && 1 <= img.blocks[a].cnt
  }

  /** Every bar counts its slots in use, and has at least one. */
  ghost predicate Counted(img: Image, t: Trie) {
    forall p {:trigger CntOK(img, t.bars[p])} :: p in t.bars ==> CntOK(img, t.bars[p])
  }

  lemma {:induction false} NonZeroSet(jump: Slots, s: Byte, v: nat, i: nat)
    requires i <= SLOTS
    ensures NonZeroFrom(jump[s := v], i) ==
      NonZeroFrom(jump, i)
      + (if i <= s && v != 0 then 1 else 0) - (if i <= s && jump[s] != 0 then 1 else 0)
    decreases SLOTS - i
  {
    if i < SLOTS { NonZeroSet(jump, s, v, i + 1); }
  }

  /** A bar with no slot in use. */
  function NoSlots(): (s: Slots)
    ensures forall i :: 0 <= i < SLOTS ==> s[i] == 0
  {
    seq(256, _ => 0)
  }

  lemma {:induction false} NonZeroNone(i: nat)
    requires i <= SLOTS
    ensures NonZeroFrom(NoSlots(), i) == 0
    decreases SLOTS - i
  {
    if i < SLOTS { NonZeroNone(i + 1); }
  }

  lemma {:induction false} NonZeroBounds(jump: Slots, i: nat)
    requires i <= SLOTS
    ensures NonZeroFrom(jump, i) <= SLOTS - i
    ensures NonZeroFrom(jump, i) == 0 <==> forall s :: i <= s < SLOTS ==> jump[s] == 0
    ensures NonZeroFrom(jump, i) == SLOTS - i ==> forall s :: i <= s < SLOTS ==> jump[s] != 0
    decreases SLOTS - i
  {
    if i < SLOTS { NonZeroBounds(jump, i + 1); }
  }

  /** A bar that counts one has no slot in use besides a given one. */
  lemma OnlySlot(jump: Slots, s: Byte, r: Byte)
    requires NonZero(jump) == 1 && jump[s] != 0 && jump[r] != 0
    ensures s == r
  {
    NonZeroSet(jump, s, 0, 0);
    var none: Slots := jump[s := 0];
    NonZeroBounds(none, 0);
    assert none[r] == 0;
  }

  // ---------------------------------------------------------------- extents

  datatype Owner = OwnBar(path: Bytes) | OwnRec(key: Bytes) | Leaked

  ghost predicate RecAt(recs: seq<Rec>, key: Bytes, a: nat) {
    exists i :: 0 <= i < |recs| && recs[i].key == key && recs[i].addr == a
  }

  ghost predicate BarOwned(t: Trie, own: map<nat, Owner>, live: map<nat, nat>, p: Bytes)
    requires p in t.bars
  {
    var a := t.bars[p];
    a in own && own[a] == OwnBar(p) && a in live && live[a] == BAR_SIZE
  }

  ghost predicate RecOwned(own: map<nat, Owner>, live: map<nat, nat>, recs: seq<Rec>, i: nat)
    requires i < |recs|
  {
    var r := recs[i];
    && r.addr in own && own[r.addr] == OwnRec(r.key)
    && r.addr in live && live[r.addr] == r.len && Written(BlockOf(recs, i)) <= r.len
  }

  ghost predicate OwnerOK(img: Image, t: Trie, live: map<nat, nat>, a: nat, o: Owner, hash: Bytes -> Hash) {
    match o
    case OwnBar(p) => p in t.bars && t.bars[p] == a
    case OwnRec(key) => hash(key) in t.leaves && RecAt(t.leaves[hash(key)].recs, key, a)
    case Leaked =>
      && a in img.blocks && (img.blocks[a].Data? || img.blocks[a].DataEx?) && |img.blocks[a].key| > 0
      && a in live && Claimed(img.blocks[a]) == live[a] && Written(img.blocks[a]) <= live[a]
  }

  /** Every live extent is one bar, one record, or a block that a chain replace left behind;
      every bar and record has a live extent of its own. */
  ghost predicate Owned(img: Image, t: Trie, own: map<nat, Owner>, live: map<nat, nat>, hash: Bytes -> Hash) {
    && own.Keys == live.Keys
    && (forall p {:trigger BarOwned(t, own, live, p)} :: p in t.bars ==> BarOwned(t, own, live, p))
    && (forall h, i {:trigger RecOwned(own, live, t.leaves[h].recs, i)} ::
         h in t.leaves && 0 <= i < |t.leaves[h].recs| ==> RecOwned(own, live, t.leaves[h].recs, i))
    && (forall a {:trigger OwnerOK(img, t, live, a, own[a], hash)} ::
         a in own ==> OwnerOK(img, t, live, a, own[a], hash))
  }

  /** The whole invariant of the tree. */
  ghost predicate TreeOK(img: Image, t: Trie, own: map<nat, Owner>, live: map<nat, nat>, hash: Bytes -> Hash) {
    Shape(t, hash) && Holds(img, t) && Counted(img, t) && Owned(img, t, own, live, hash)
  }

  // ---------------------------------------------------------------- the map it stands for

  function KVs(recs: seq<Rec>): seq<KV> {
    seq(|recs|, i requires 0 <= i < |recs| => KV(recs[i].key, recs[i].value))
  }

  /** For every hash in use, its records in chain order. */
  ghost function ModelOf(t: Trie): map<Hash, seq<KV>> {
    map h | h in t.leaves :: KVs(t.leaves[h].recs)
  }
}
