/** Inputs on which the store does less than its interface suggests, one for each exact condition. */
module StoreLimits {
  import opened Layout
  import opened VolumeManager
  import opened TrieShape
  import opened StoreModel
  import opened StoreManager
  import opened StoreRuns
  import opened TrieOrder
  import opened Enumeration

  // ---------------------------------------------------------------- keys that share a hash

  function SameHash(key: Bytes): Hash {
    seq(HASH_LENGTH, _ => 0)
  }

  /** Set the keys 0 .. n - 1. */
  function Sets(n: nat): (cs: seq<Command>)
    requires n <= 256
    ensures |cs| == n && forall i :: 0 <= i < n ==> cs[i] == SetKey([i], [])
  {
    seq(n, i requires 0 <= i < n => SetKey([i], []))
  }

  /** The chain of those keys, newest first. */
  function Chain(n: nat): (kvs: seq<KV>)
    requires n <= 256
    ensures |kvs| == n && forall i :: 0 <= i < n ==> kvs[i].key == [n - 1 - i]
  {
    if n == 0 then [] else [KV([n - 1], [])] + Chain(n - 1)
  }

  lemma PositionInChain(n: nat, k: nat)
    requires n <= 256 && k < 256
    ensures Position(Chain(n), [k]) == if k < n then n - 1 - k else n
  {
    var p := Position(Chain(n), [k]);
    if p < n { assert Chain(n)[p].key == [n - 1 - p] && [n - 1 - p][0] == [k][0]; }
    if k < n { assert Chain(n)[n - 1 - k].key == [k]; }
  }

  function ModelAfter(n: nat): Model
    requires n <= 256
  {
    if n == 0 then map[] else map[SameHash([]) := Chain(n)]
  }

  lemma SetStep(n: nat)
    requires n <= HASH_COLLISION_MAX + 1
    ensures StepSpec(ModelAfter(n), SameHash, SetKey([n], [])) == (ModelAfter(n + 1), Reply(OK, []))
  {
    PositionInChain(n, n);
    assert SameHash([n]) == SameHash([]);
    assert Group(ModelAfter(n), SameHash([])) == Chain(n);
    assert Answer(Chain(n), [n]) == NotFound;
    assert ModelAfter(n)[SameHash([]) := Chain(n + 1)] == ModelAfter(n + 1);
  }

  /** Up to ten keys of one hash are all accepted. */
  lemma {:induction false} SetsChain(n: nat)
    requires n <= HASH_COLLISION_MAX + 2
    ensures RunSpec(map[], SameHash, Sets(n)) == (ModelAfter(n), seq(n, _ => Reply(OK, [])))
  {
    hide StepSpec, ModelAfter;
    if n > 0 {
      SetsChain(n - 1);
      RunOne(map[], SameHash, Sets(n), n - 1);
      assert Sets(n)[..n - 1] == Sets(n - 1) && Sets(n)[..n] == Sets(n);
      SetStep(n - 1);
      assert seq(n - 1, _ => Reply(OK, [])) + [Reply(OK, [])] == seq(n, _ => Reply(OK, []));
    } else {
      NoSets();
      assert seq(n, _ => Reply(OK, [])) == [];
    }
  }

  lemma NoSets()
    ensures RunSpec(map[], SameHash, Sets(0)) == (ModelAfter(0), [])
  {
  }

  lemma AfterSets(n: nat, c: Command)
    requires 0 < n <= HASH_COLLISION_MAX + 2
    ensures RunSpec(map[], SameHash, Sets(n) + [c]).1 ==
      seq(n, _ => Reply(OK, [])) + [StepSpec(map[SameHash([]) := Chain(n)], SameHash, c).1]
    ensures c.key != [] ==> SameHash(c.key) == SameHash([])
  {
    SetsChain(n);
    RunOne(map[], SameHash, Sets(n) + [c], n);
    assert (Sets(n) + [c])[..n] == Sets(n) && (Sets(n) + [c])[..n + 1] == Sets(n) + [c];
  }

  /** Ten sets of new keys with one hash succeed, but the first of them cannot be read any more. */
  lemma TenthHidesFirst()
    ensures RunSpec(map[], SameHash, Sets(10) + [GetKey([0])]).1 == seq(10, _ => Reply(OK, [])) + [Reply(DataError, [])]
  {
    hide RunSpec, Sets, Chain, SameHash;
    AfterSets(10, GetKey([0]));
    PositionInChain(10, 0);
  }

  /** Nor can it be set again. */
  lemma HiddenCannotBeSet(value: Bytes)
    ensures RunSpec(map[], SameHash, Sets(10) + [SetKey([0], value)]).1 == seq(10, _ => Reply(OK, [])) + [Reply(DataError, [])]
  {
    hide RunSpec, Sets, Chain, SameHash;
    AfterSets(10, SetKey([0], value));
    PositionInChain(10, 0);
  }

  /** Of two keys with one hash neither can be deleted. */
  lemma TwoCannotBeDeleted(k: nat)
    requires k < 2
    ensures RunSpec(map[], SameHash, Sets(2) + [DelKey([k])]).1 == seq(2, _ => Reply(OK, [])) + [Reply(InternalError, [])]
  {
    AfterSets(2, DelKey([k]));
    PositionInChain(2, k);
  }

  // ---------------------------------------------------------------- a bar with its last slot in use

  lemma PathUsed(t: Trie, hash: Bytes -> Hash, h: Hash)
    requires Shape(t, hash) && h in t.leaves
    ensures t.leaves[h].depth <= HASH_LENGTH
    ensures var p := h[..t.leaves[h].depth]; p in t.at && t.at[p] == h && p !in t.bars
  {
    assert LeafPath(t, hash, h) && ChainPath(t, h[..t.leaves[h].depth]);
  }

  /** With more than one hash in use the root is a bar. */
  lemma RootIsBar(t: Trie, hash: Bytes -> Hash, g: Hash, h: Hash)
    requires Shape(t, hash) && g in t.leaves && h in t.leaves && g != h
    ensures [] in t.bars && 0 < t.leaves[h].depth <= HASH_LENGTH
  {
    PathUsed(t, hash, g);
    PathUsed(t, hash, h);
    hide Shape;
    if t.leaves[g].depth > 0 { Closed(t, hash, g[..t.leaves[g].depth], 0); }
    if t.leaves[h].depth > 0 { Closed(t, hash, h[..t.leaves[h].depth], 0); }
  }

  /** Two hashes that differ in their first byte, one of which starts with 255. */
  lemma LastSlotUsed(t: Trie, hash: Bytes -> Hash, g: Hash, h: Hash)
    requires Shape(t, hash) && g in t.leaves && h in t.leaves && g[0] != h[0] && h[0] == 255
    ensures !Enumerable(t)
  {
    RootIsBar(t, hash, g, h);
    PathUsed(t, hash, h);
    PtrUsed(t, hash, h[..1]);
    hide Shape, Ptr;
    var q := h[..t.leaves[h].depth];
    if |q| > 1 {
      Closed(t, hash, q, 1);
      assert q[..1] == h[..1];
    }
    assert [] + [255] == h[..1];
  }

  /** Every byte of the hash is the first byte of the key. */
  function FirstByteHash(key: Bytes): Hash {
    seq(HASH_LENGTH, _ => if key == [] then 0 else key[0])
  }

  lemma TwoGroups()
    ensures var m := StepSpec(map[], FirstByteHash, SetKey([0], [])).0;
      StepSpec(m, FirstByteHash, SetKey([255], [])).0 ==
        map[FirstByteHash([0]) := [KV([0], [])], FirstByteHash([255]) := [KV([255], [])]]
    ensures FirstByteHash([0])[0] == 0 && FirstByteHash([255])[0] == 255
  {
    var g, h := FirstByteHash([0]), FirstByteHash([255]);
    assert g[0] != h[0];
    var m := StepSpec(map[], FirstByteHash, SetKey([0], [])).0;
    assert m == map[g := [KV([0], [])] + []] && [KV([0], [])] + [] == [KV([0], [])];
    assert Group(m, h) == [] && [KV([255], [])] + [] == [KV([255], [])];
  }

  lemma RoomFor(k: Byte)
    ensures Room(SetKey([k], [])) < 70000
  {
  }

  /** Two sets on a new file, and the enumeration of all records never ends well. */
  method TwoRecordsWithoutEnd() returns (store: Store)
    ensures store.Valid() && |store.Contents()| == 2
    ensures forall quit: KV -> bool, n: nat :: (forall kv :: !quit(kv)) ==> !EndsWell(store.vol.img, quit, n)
  {
    hide StepSpec, Room, FirstByteHash, EndsWell;
    store := new Store(FirstByteHash);
    RoomFor(0);
    RoomFor(255);
    NewIsTidy(store);
    var r := Apply(store, SetKey([0], []));
    r := Apply(store, SetKey([255], []));
    TwoGroups();
    NeverEndsWell(store, FirstByteHash([0]), FirstByteHash([255]));
  }

  lemma NewIsTidy(store: Store)
    requires store.Valid() && store.Contents() == map[] && store.own == map[]
    ensures Tidy(store.own, store.Contents())
  {
  }

  lemma NeverEndsWell(store: Store, g: Hash, h: Hash)
    requires store.Valid() && g in store.Contents() && h in store.Contents() && g[0] != h[0] && h[0] == 255
    ensures forall quit: KV -> bool, n: nat :: (forall kv :: !quit(kv)) ==> !EndsWell(store.vol.img, quit, n)
  {
    LastSlotUsed(store.t, store.hash, g, h);
    forall quit: KV -> bool, n: nat | forall kv :: !quit(kv) ensures !EndsWell(store.vol.img, quit, n) {
      EnumIff(store.vol.img, store.t, store.hash, quit);
    }
  }

  /** The paths of a root bar with chains in slots 5 and 255. */
  lemma TwoPaths(t: Trie, hash: Bytes -> Hash, g: Hash, h: Hash)
    requires Shape(t, hash) && t.bars.Keys == {[]} && t.at == map[[5] := g, [255] := h]
    ensures Preorder(t, []) == [[], [5], [255]]
  {
    hide Shape;
    assert [] + [5] == [5] && [] + [255] == [255];
    forall j: Byte | j != 5 && j != 255 ensures Ptr(t, [] + [j]) == 0 { assert ([] + [j])[0] == j; }
    PreorderSkip(t, hash, [], 0, 5);
    SlotUnfold(t, [], 5);
    PreorderSkip(t, hash, [], 6, 255);
    SlotUnfold(t, [], 255);
    SingleChain(t, 5);
    SingleChain(t, 255);
    hide Preorder;
    assert PreorderFrom(t, [], 256) == [];
    RootFirst(t);
  }

  lemma SingleChain(t: Trie, b: Byte)
    requires [b] in t.at && t.bars.Keys == {[]}
    ensures Preorder(t, [b]) == [[b]]
  {
    assert |[b]| == 1;
  }

  lemma RootFirst(t: Trie)
    requires [] in t.bars
    ensures Preorder(t, []) == [[]] + PreorderFrom(t, [], 0)
  {
  }

  /** The record in slot 255 is reported: a callback that stops there gets both records, whereas
      one that never stops is called for ever. */
  lemma StopInLastSlot(img: Image, t: Trie, hash: Bytes -> Hash, quit: KV -> bool, g: Hash, h: Hash) returns (n: nat)
    requires Shape(t, hash) && Holds(img, t) && t.bars.Keys == {[]} && t.at == map[[5] := g, [255] := h]
    requires g in t.leaves && h in t.leaves
    requires KVs(t.leaves[g].recs) == [KV([5], [])] && KVs(t.leaves[h].recs) == [KV([255], [])]
    requires !quit(KV([5], []))
    ensures quit(KV([255], [])) ==> RunFor(img, quit, Begin(img), n) == Finished(OK, [KV([5], []), KV([255], [])])
    ensures (forall kv :: !quit(kv)) ==> forall k :: !EndsWell(img, quit, k)
  {
    hide Preorder, Holds, RunFor, KVs, RecordsOf, BarsOf;
    var all: seq<Bytes> := [[], [5], [255]];
    assert ChainPath(t, [5]) && ChainPath(t, [255]);
    hide Shape;
    assert g[0] == g[..1][0] && h[0] == h[..1][0];
    TwoPaths(t, hash, g, h);
    LastSlotUsed(t, hash, g, h);
    n := 0;
    if quit(KV([255], [])) {
      FirstTwo(t, g, h);
      assert all[..2] == [[], [5]];
      assert t.at[all[2]] == h && quit(KVs(t.leaves[h].recs)[0]);
      n := StopReached(img, t, hash, quit, 2);
      StopRecords(t, quit, 2);
    } else if forall kv :: !quit(kv) {
      EnumIff(img, t, hash, quit);
    }
  }

  lemma FirstTwo(t: Trie, g: Hash, h: Hash)
    requires t.bars.Keys == {[]} && t.at == map[[5] := g, [255] := h] && g in t.leaves
    ensures RecordsOf(t, [[], [5]]) == KVs(t.leaves[g].recs) && BarsOf(t, [[], [5]]) == [[]]
  {
    var one: seq<Bytes>, two: seq<Bytes> := [[5]], [[], [5]];
    assert two[1..] == one && one[1..] == [];
    assert |two[0]| == 0 && |one[0]| == 1;
    assert RecordsOf(t, one) == KVs(t.leaves[g].recs) + [] && BarsOf(t, one) == [];
  }
}
