/** Whole runs of the store, and when it is a map. */
module StoreRuns {
  import opened Layout
  import opened Extents
  import opened FreeProgram
  import opened VolumeManager
  import opened TrieShape
  import opened StoreModel
  import opened TrieLookups
  import opened StoreManager
  import opened VolumeLaws

  // ---------------------------------------------------------------- the map behind the groups

  /** Every group is non-empty, holds distinct keys of its hash, and is no longer than set
      lets it grow. */
  ghost predicate WellFormed(m: Model, hash: Bytes -> Hash) {
    forall h :: h in m ==> GroupOK(m[h], h, hash)
  }

  ghost predicate GroupOK(kvs: seq<KV>, h: Hash, hash: Bytes -> Hash) {
    && 1 <= |kvs| <= HASH_COLLISION_MAX + 2
    && (forall i :: 0 <= i < |kvs| ==> hash(kvs[i].key) == h)
    && (forall i, j :: 0 <= i < j < |kvs| ==> kvs[i].key != kvs[j].key)
  }

  lemma TrieWellFormed(t: Trie, hash: Bytes -> Hash)
    requires Shape(t, hash)
    ensures WellFormed(ModelOf(t), hash)
  {
    forall h | h in ModelOf(t) ensures GroupOK(ModelOf(t)[h], h, hash) { assert LeafPath(t, hash, h); }
  }

  predicate Has(kvs: seq<KV>, key: Bytes) {
    Position(kvs, key) < |kvs|
  }

  /** f is the finite map of all stored records. */
  ghost predicate IsMap(m: Model, hash: Bytes -> Hash, f: map<Bytes, Bytes>) {
    forall key :: MapAt(m, hash, f, key)
  }

  ghost predicate MapAt(m: Model, hash: Bytes -> Hash, f: map<Bytes, Bytes>, key: Bytes) {
    var kvs := Group(m, hash(key));
    && (key in f <==> Has(kvs, key))
    && (key in f ==> f[key] == kvs[Position(kvs, key)].value)
  }

  /** No hash has more than the nine records that a lookup reaches. */
  ghost predicate AllReached(m: Model) {
    forall h :: h in m ==> |m[h]| <= HASH_COLLISION_MAX + 1
  }

  function MapGet(f: map<Bytes, Bytes>, key: Bytes): (Status, Bytes) {
    if key in f then (OK, f[key]) else (NotFound, [])
  }

  lemma PositionAt(kvs: seq<KV>, i: nat)
    requires i < |kvs| && forall j :: 0 <= j < i ==> kvs[j].key != kvs[i].key
    ensures Position(kvs, kvs[i].key) == i
  {
  }

  /** Get is the lookup of the map for all keys exactly as long as no hash has ten records. */
  lemma GetIsMap(m: Model, hash: Bytes -> Hash, f: map<Bytes, Bytes>)
    requires WellFormed(m, hash) && IsMap(m, hash, f)
    ensures AllReached(m) <==> forall key :: SpecGet(m, hash(key), key) == MapGet(f, key)
  {
    if AllReached(m) {
      forall key ensures SpecGet(m, hash(key), key) == MapGet(f, key) { assert MapAt(m, hash, f, key); }
    } else {
      var h :| h in m && |m[h]| > HASH_COLLISION_MAX + 1;
      var kvs := m[h];
      assert GroupOK(kvs, h, hash);
      var key := kvs[HASH_COLLISION_MAX].key;
      PositionAt(kvs, HASH_COLLISION_MAX);
      assert MapAt(m, hash, f, key);
      assert SpecGet(m, hash(key), key) != MapGet(f, key);
    }
  }

  lemma PositionOfUpdate(kvs: seq<KV>, i: nat, value: Bytes, key: Bytes)
    requires i < |kvs|
    ensures Position(kvs[i := KV(kvs[i].key, value)], key) == Position(kvs, key)
  {
    var kvs' := kvs[i := KV(kvs[i].key, value)];
    assert forall j :: 0 <= j < |kvs| ==> kvs'[j].key == kvs[j].key;
    var p, p' := Position(kvs, key), Position(kvs', key);
    assert p' <= p by { if p < |kvs| { assert kvs'[p].key == key; } }
    assert p <= p' by { if p' < |kvs| { assert kvs[p'].key == key; } }
  }

  lemma PositionOfPush(kv: KV, kvs: seq<KV>, key: Bytes)
    ensures Position([kv] + kvs, key) == if kv.key == key then 0 else 1 + Position(kvs, key)
  {
  }

  function Put(kvs: seq<KV>, key: Bytes, value: Bytes): seq<KV> {
    if Has(kvs, key) then kvs[Position(kvs, key) := KV(key, value)] else [KV(key, value)] + kvs
  }

  lemma PutAt(kvs: seq<KV>, key: Bytes, value: Bytes, k: Bytes)
    ensures var kvs' := Put(kvs, key, value);
      && (Has(kvs', k) <==> k == key || Has(kvs, k))
      && (Has(kvs', k) ==> kvs'[Position(kvs', k)].value == if k == key then value else kvs[Position(kvs, k)].value)
  {
    if Has(kvs, key) { PositionOfUpdate(kvs, Position(kvs, key), value, k); } else { PositionOfPush(KV(key, value), kvs, k); }
  }

  /** No slot for another record, and the key is not one of those that lookup reaches. */
  predicate Refused(kvs: seq<KV>, key: Bytes) {
    |kvs| == HASH_COLLISION_MAX + 2 && Position(kvs, key) >= HASH_COLLISION_MAX
  }

  /** When set succeeds, and what it does to the group. */
  lemma SetOutcome(m: Model, hash: Bytes -> Hash, key: Bytes, value: Bytes)
    requires WellFormed(m, hash)
    ensures var (r, m') := SpecSet(m, hash(key), key, value);
      var kvs := Group(m, hash(key));
      && r == (if Refused(kvs, key) then DataError else OK)
      && m' == (if r == OK then m[hash(key) := Put(kvs, key, value)] else m)
  {
  }

  lemma SetMap(m: Model, hash: Bytes -> Hash, f: map<Bytes, Bytes>, key: Bytes, value: Bytes)
    requires IsMap(m, hash, f)
    ensures IsMap(m[hash(key) := Put(Group(m, hash(key)), key, value)], hash, f[key := value])
  {
    var m', f' := m[hash(key) := Put(Group(m, hash(key)), key, value)], f[key := value];
    forall k ensures MapAt(m', hash, f', k) {
      assert MapAt(m, hash, f, k);
      PutAt(Group(m, hash(key)), key, value, k);
    }
  }

  /** Set is the update of the map whenever it succeeds. It fails exactly when the hash has ten
      records and the key is not among the eight that lookup still reaches: for every new key,
      and for the two hidden ones. While no hash has ten records it keeps it so unless it gives
      a tenth record to a hash. */
  lemma SetIsMap(m: Model, hash: Bytes -> Hash, f: map<Bytes, Bytes>, key: Bytes, value: Bytes)
    requires WellFormed(m, hash) && IsMap(m, hash, f)
    ensures var (r, m') := SpecSet(m, hash(key), key, value);
      && WellFormed(m', hash)
      && IsMap(m', hash, if r == OK then f[key := value] else f)
      && r == (if Refused(Group(m, hash(key)), key) then DataError else OK)
      && (Refused(Group(m, hash(key)), key) <==>
            |Group(m, hash(key))| == HASH_COLLISION_MAX + 2
            && (key in f ==> Position(Group(m, hash(key)), key) >= HASH_COLLISION_MAX))
      && (AllReached(m) ==> r == OK && (AllReached(m') <==> key in f || |Group(m, hash(key))| <= HASH_COLLISION_MAX))
  {
    var h := hash(key);
    var kvs := Group(m, h);
    SetOutcome(m, hash, key, value);
    SetMap(m, hash, f, key, value);
    assert MapAt(m, hash, f, key);
    if h in m { assert GroupOK(m[h], h, hash); }
    if Has(kvs, key) || |kvs| <= HASH_COLLISION_MAX + 1 { SetGroupOK(kvs, h, hash, key, value); }
    var m' := m[h := Put(kvs, key, value)];
    assert m'[h] == Put(kvs, key, value);
  }

  lemma SetGroupOK(kvs: seq<KV>, h: Hash, hash: Bytes -> Hash, key: Bytes, value: Bytes)
    requires kvs == [] || GroupOK(kvs, h, hash)
    requires hash(key) == h && (Has(kvs, key) || |kvs| <= HASH_COLLISION_MAX + 1)
    ensures GroupOK(Put(kvs, key, value), h, hash)
  {
  }

  /** Delete removes a key of the map exactly when it is alone with its hash, and errs on any
      other stored key, leaving everything as it was. */
  lemma DelIsMap(m: Model, hash: Bytes -> Hash, f: map<Bytes, Bytes>, key: Bytes)
    requires WellFormed(m, hash) && IsMap(m, hash, f)
    ensures var (r, m') := SpecDel(m, hash(key), key);
      && WellFormed(m', hash) && (AllReached(m) ==> AllReached(m'))
      && (r == OK <==> key in f && |Group(m, hash(key))| == 1)
      && r == (if Refused(Group(m, hash(key)), key) then DataError
               else if key !in f then NotFound
               else if |Group(m, hash(key))| == 1 then OK
               else InternalError)
      && IsMap(m', hash, if r == OK then f - {key} else f)
      && (r != OK ==> m' == m)
  {
    var h := hash(key);
    var (r, m') := SpecDel(m, h, key);
    assert MapAt(m, hash, f, key);
    if h in m { assert GroupOK(m[h], h, hash); }
    if r == OK {
      var f' := f - {key};
      forall k ensures MapAt(m', hash, f', k) {
        assert MapAt(m, hash, f, k);
        if hash(k) == h && Has(m[h], k) { assert m[h][0].key == k && m[h][0].key == key; }
      }
    }
  }

  // ---------------------------------------------------------------- commands and replies

  datatype Command = SetKey(key: Bytes, value: Bytes) | GetKey(key: Bytes) | DelKey(key: Bytes)
  datatype Reply = Reply(status: Status, value: Bytes)

  function StepSpec(m: Model, hash: Bytes -> Hash, c: Command): (Model, Reply) {
    match c
    case SetKey(key, value) => var (r, m') := SpecSet(m, hash(key), key, value); (m', Reply(r, []))
    case GetKey(key) => var (r, v) := SpecGet(m, hash(key), key); (m, Reply(r, v))
    case DelKey(key) => var (r, m') := SpecDel(m, hash(key), key); (m', Reply(r, []))
  }

  function RunSpec(m: Model, hash: Bytes -> Hash, cs: seq<Command>): (Model, seq<Reply>)
    decreases |cs|
  {
    if cs == [] then (m, [])
    else
      var (m1, r) := StepSpec(m, hash, cs[0]);
      var (m2, rs) := RunSpec(m1, hash, cs[1..]);
      (m2, [r] + rs)
  }

  // ---------------------------------------------------------------- the same on a finite map

  /** The stored keys that share a hash. */
  function Crowd(f: map<Bytes, Bytes>, hash: Bytes -> Hash, h: Hash): set<Bytes> {
    set k | k in f && hash(k) == h
  }

  /** A finite map whose delete refuses a key that shares its hash with another one. */
  function MapStep(f: map<Bytes, Bytes>, hash: Bytes -> Hash, c: Command): (map<Bytes, Bytes>, Reply) {
    match c
    case SetKey(key, value) => (f[key := value], Reply(OK, []))
    case GetKey(key) => var (r, v) := MapGet(f, key); (f, Reply(r, v))
    case DelKey(key) =>
      if key !in f then (f, Reply(NotFound, []))
      else if Crowd(f, hash, hash(key)) != {key} then (f, Reply(InternalError, []))
      else (f - {key}, Reply(OK, []))
  }

  function MapRun(f: map<Bytes, Bytes>, hash: Bytes -> Hash, cs: seq<Command>): (map<Bytes, Bytes>, seq<Reply>)
    decreases |cs|
  {
    if cs == [] then (f, [])
    else
      var (f1, r) := MapStep(f, hash, cs[0]);
      var (f2, rs) := MapRun(f1, hash, cs[1..]);
      (f2, [r] + rs)
  }

  /** At no point of the run more than nine stored keys share a hash. */
  ghost predicate NeverCrowded(f: map<Bytes, Bytes>, hash: Bytes -> Hash, cs: seq<Command>)
    decreases |cs|
  {
    && (forall h :: |Crowd(f, hash, h)| <= HASH_COLLISION_MAX + 1)
    && (cs != [] ==> NeverCrowded(MapStep(f, hash, cs[0]).0, hash, cs[1..]))
  }

  function KeySet(kvs: seq<KV>): set<Bytes> {
    set i | 0 <= i < |kvs| :: kvs[i].key
  }

  lemma {:induction false} KeySetSize(kvs: seq<KV>)
    requires forall i, j :: 0 <= i < j < |kvs| ==> kvs[i].key != kvs[j].key
    ensures |KeySet(kvs)| == |kvs|
  {
    if kvs != [] {
      var n := |kvs| - 1;
      KeySetSize(kvs[..n]);
      assert KeySet(kvs) == KeySet(kvs[..n]) + {kvs[n].key};
      assert kvs[n].key !in KeySet(kvs[..n]);
    }
  }

  /** A group holds exactly the keys of the map that have its hash. */
  lemma GroupIsCrowd(m: Model, hash: Bytes -> Hash, f: map<Bytes, Bytes>, h: Hash)
    requires WellFormed(m, hash) && IsMap(m, hash, f)
    ensures Crowd(f, hash, h) == KeySet(Group(m, h)) && |Crowd(f, hash, h)| == |Group(m, h)|
  {
    var kvs := Group(m, h);
    if h in m { assert GroupOK(m[h], h, hash); }
    forall k ensures k in Crowd(f, hash, h) <==> k in KeySet(kvs) {
      assert MapAt(m, hash, f, k);
      if k in KeySet(kvs) {
        var i :| 0 <= i < |kvs| && kvs[i].key == k;
        PositionAt(kvs, i);
      }
    }
    KeySetSize(kvs);
  }

  /** The stored keys are those of the map. */
  lemma KeysOfMap(m: Model, hash: Bytes -> Hash, f: map<Bytes, Bytes>)
    requires WellFormed(m, hash) && IsMap(m, hash, f)
    ensures StoredKeys(m) == f.Keys
  {
    forall key ensures key in StoredKeys(m) <==> key in f {
      assert MapAt(m, hash, f, key);
      if key in f { assert m[hash(key)][Position(m[hash(key)], key)].key == key; }
      if h, i :| h in m && 0 <= i < |m[h]| && m[h][i].key == key {
        assert GroupOK(m[h], h, hash);
        PositionAt(m[h], i);
      }
    }
  }

  lemma ReachedUncrowded(m: Model, hash: Bytes -> Hash, f: map<Bytes, Bytes>)
    requires WellFormed(m, hash) && IsMap(m, hash, f)
    ensures AllReached(m) <==> forall h :: |Crowd(f, hash, h)| <= HASH_COLLISION_MAX + 1
  {
    forall h ensures |Crowd(f, hash, h)| == |Group(m, h)| { GroupIsCrowd(m, hash, f, h); }
    if forall h :: |Crowd(f, hash, h)| <= HASH_COLLISION_MAX + 1 {
      forall h | h in m ensures |m[h]| <= HASH_COLLISION_MAX + 1 { assert |Crowd(f, hash, h)| == |Group(m, h)|; }
    }
  }

  lemma StepIsMap(m: Model, hash: Bytes -> Hash, f: map<Bytes, Bytes>, c: Command)
    requires WellFormed(m, hash) && IsMap(m, hash, f) && AllReached(m)
    ensures StepSpec(m, hash, c).1 == MapStep(f, hash, c).1
    ensures WellFormed(StepSpec(m, hash, c).0, hash) && IsMap(StepSpec(m, hash, c).0, hash, MapStep(f, hash, c).0)
  {
    match c
    case SetKey(key, value) => SetIsMap(m, hash, f, key, value);
    case GetKey(key) => GetIsMap(m, hash, f);
    case DelKey(key) =>
      DelIsMap(m, hash, f, key);
      GroupIsCrowd(m, hash, f, hash(key));
      if key in f && |Crowd(f, hash, hash(key))| == 1 { OneElement(Crowd(f, hash, hash(key)), key); }
  }

  lemma OneElement<T>(s: set<T>, x: T)
    requires |s| == 1 && x in s
    ensures s == {x}
  {
    assert |s - {x}| == 0;
  }

  /** Over every run in which no more than nine stored keys ever share a hash, the store
      answers as the finite map. */
  lemma {:induction false} RunIsMap(m: Model, hash: Bytes -> Hash, f: map<Bytes, Bytes>, cs: seq<Command>)
    requires WellFormed(m, hash) && IsMap(m, hash, f) && NeverCrowded(f, hash, cs)
    ensures RunSpec(m, hash, cs).1 == MapRun(f, hash, cs).1
    ensures IsMap(RunSpec(m, hash, cs).0, hash, MapRun(f, hash, cs).0)
    decreases |cs|
  {
    if cs != [] {
      ReachedUncrowded(m, hash, f);
      StepIsMap(m, hash, f, cs[0]);
      RunIsMap(StepSpec(m, hash, cs[0]).0, hash, MapStep(f, hash, cs[0]).0, cs[1..]);
    }
  }

  // ---------------------------------------------------------------- space

  /** A block is left behind only while some hash has more than one record. */
  ghost predicate Tidy(own: map<nat, Owner>, m: Model) {
    LeaksOf(own) != {} ==> exists h :: h in m && |m[h]| > 1
  }

  lemma StepTidy(own: map<nat, Owner>, m: Model, hash: Bytes -> Hash, c: Command)
    requires Tidy(own, m) && WellFormed(m, hash)
    ensures Tidy(own, StepSpec(m, hash, c).0)
    ensures c.SetKey? && LeaksInside(m, hash(c.key), c.key) ==> exists h :: h in StepSpec(m, hash, c).0 && |StepSpec(m, hash, c).0[h]| > 1
  {
    var m' := StepSpec(m, hash, c).0;
    if LeaksOf(own) != {} {
      var h :| h in m && |m[h]| > 1;
      assert h in m' && |m'[h]| > 1;
    }
    if c.SetKey? && LeaksInside(m, hash(c.key), c.key) {
      var h := hash(c.key);
      assert h in m' && |m'[h]| > 1;
    }
  }

  /** From any path in use some chain can be reached. */
  lemma {:induction false} ReachLeaf(img: Image, t: Trie, hash: Bytes -> Hash, p: Bytes)
    requires Shape(t, hash) && Holds(img, t) && Counted(img, t) && (p in t.bars || p in t.at)
    ensures t.leaves != map[]
    decreases HASH_LENGTH - |p|
  {
    assert BarPath(t, p) && ChainPath(t, p);
    if p in t.bars {
      var a := t.bars[p];
      assert BarHolds(img, t, p, a) && CntOK(img, t.bars[p]);
      NonZeroBounds(img.blocks[a].jump, 0);
      var b: nat :| b < SLOTS && img.blocks[a].jump[b] != 0;
      assert Ptr(t, p + [b]) != 0;
      ReachLeaf(img, t, hash, p + [b]);
    } else {
      assert t.at[p] in t.leaves;
    }
  }

  /** A store without records has no bars either, and nothing live. */
  lemma EmptyTrie(img: Image, t: Trie, own: map<nat, Owner>, live: map<nat, nat>, hash: Bytes -> Hash)
    requires TreeOK(img, t, own, live, hash) && ModelOf(t) == map[] && LeaksOf(own) == {}
    ensures live == map[] && img.treeRoot == 0
  {
    assert t.leaves == map[] by { if h :| h in t.leaves { assert h in ModelOf(t); } }
    forall p ensures p !in t.bars && p !in t.at {
      if p in t.bars || p in t.at { ReachLeaf(img, t, hash, p); }
    }
    forall a ensures a !in own { NobodyOwns(img, t, own, live, hash, a); }
    assert live.Keys == {};
  }

  /** With no path in use and nothing left behind, there is nobody to own an extent. */
  lemma NobodyOwns(img: Image, t: Trie, own: map<nat, Owner>, live: map<nat, nat>, hash: Bytes -> Hash, a: nat)
    requires Owned(img, t, own, live, hash) && LeaksOf(own) == {} && t.bars == map[] && t.leaves == map[]
    ensures a !in own
  {
    assert a in own ==> OwnerOK(img, t, live, a, own[a], hash);
    LeaksOfHas(own, a);
  }

  /** Empty means empty: a tidy store without records has a file of just the info block, with
      a zero root and no spare chain. */
  lemma EmptyFile(img: Image, spares: seq<Extent>, t: Trie, own: map<nat, Owner>, live: map<nat, nat>, hash: Bytes -> Hash)
    requires Canonical(spares, live, img.size) && ChainOK(img, spares)
    requires TreeOK(img, t, own, live, hash) && Tidy(own, ModelOf(t)) && ModelOf(t) == map[]
    ensures img.size == INFO_SIZE && img.treeRoot == 0 && img.spareChain == 0 && spares == []
  {
    EmptyTrie(img, t, own, live, hash);
    CanonicalEmpty(spares, img.size);
  }

  // ---------------------------------------------------------------- the store over a run

  predicate Legal(c: Command) {
    |c.key| > 0
  }

  /** The most that the file can grow. */
  function Room(c: Command): nat {
    if c.SetKey? then Need(c.key, c.value) + HASH_LENGTH * BAR_SIZE else 0
  }

  lemma TidyKept(own: map<nat, Owner>, own': map<nat, Owner>, m: Model, hash: Bytes -> Hash, c: Command)
    requires Tidy(own, m) && WellFormed(m, hash)
    requires LeaksOf(own') == LeaksOf(own) || (c.SetKey? && LeaksInside(m, hash(c.key), c.key))
    ensures Tidy(own', StepSpec(m, hash, c).0)
  {
    StepTidy(own, m, hash, c);
  }

  /** One command. */
  method Apply(store: Store, c: Command) returns (reply: Reply)
    requires store.Valid() && Legal(c) && store.vol.img.size + Room(c) <= TWO_31
    requires Tidy(store.own, store.Contents())
    modifies store, store.vol
    ensures store.Valid() && Tidy(store.own, store.Contents())
    ensures (store.Contents(), reply) == StepSpec(old(store.Contents()), store.hash, c)
    ensures store.vol.img.size <= old(store.vol.img.size) + Room(c)
  {
    ghost var own, m := store.own, store.Contents();
    TrieWellFormed(store.t, store.hash);
    match c
    case SetKey(key, value) =>
      var r := store.Set(key, value);
      reply := Reply(r, []);
      TidyKept(own, store.own, m, store.hash, c);
    case GetKey(key) =>
      var r, v := store.Get(key, None);
      reply := Reply(r, v);
    case DelKey(key) =>
      var r := store.Del(key);
      reply := Reply(r, []);
      TidyKept(own, store.own, m, store.hash, c);
  }

  lemma {:induction false} RunConcat(m: Model, hash: Bytes -> Hash, cs: seq<Command>, cs': seq<Command>)
    ensures var (m1, rs) := RunSpec(m, hash, cs);
      RunSpec(m, hash, cs + cs') == (RunSpec(m1, hash, cs').0, rs + RunSpec(m1, hash, cs').1)
    decreases |cs|
  {
    hide StepSpec;
    if cs == [] {
      assert [] + cs' == cs' && [] + RunSpec(m, hash, cs').1 == RunSpec(m, hash, cs').1;
    } else {
      var (m1, r) := StepSpec(m, hash, cs[0]);
      var (m2, rs) := RunSpec(m1, hash, cs[1..]);
      RunConcat(m1, hash, cs[1..], cs');
      assert (cs + cs')[1..] == cs[1..] + cs';
      assert [r] + (rs + RunSpec(m2, hash, cs').1) == ([r] + rs) + RunSpec(m2, hash, cs').1;
    }
  }

  lemma RunOne(m: Model, hash: Bytes -> Hash, cs: seq<Command>, i: nat)
    requires i < |cs|
    ensures var (m1, rs) := RunSpec(m, hash, cs[..i]);
      var (m2, r) := StepSpec(m1, hash, cs[i]);
      RunSpec(m, hash, cs[..i + 1]) == (m2, rs + [r])
  {
    var m1 := RunSpec(m, hash, cs[..i]).0;
    RunConcat(m, hash, cs[..i], [cs[i]]);
    assert cs[..i + 1] == cs[..i] + [cs[i]];
    assert RunSpec(m1, hash, [cs[i]]).1 == [StepSpec(m1, hash, cs[i]).1];
  }

  /** The first `done` commands were run; the next one, if any, is a set whose block and bars
      might take the file of that size past 2^31 bytes. */
  ghost predicate RanAsFar(cs: seq<Command>, done: nat, size: nat) {
    && done <= |cs|
    && (done < |cs| ==> cs[done].SetKey? && size + GrowthOf(cs[done]) > TWO_31)
  }

  /** A block of 24 bytes, key, value and padding, but at least 32; and 32 bars of 2056 bytes. */
  function GrowthOf(c: Command): nat {
    match c
    case SetKey(key, value) => Max(32, 27 + |key| + |value|) + 32 * 2056
    case GetKey(_) => 0
    case DelKey(_) => 0
  }

  /** The most that the sets among the commands can add to a file. */
  function Growth(cs: seq<Command>): nat {
    if cs == [] then 0 else GrowthOf(cs[0]) + Growth(cs[1..])
  }

  lemma GrowthFrom(cs: seq<Command>, i: nat)
    requires i < |cs|
    ensures Growth(cs[i..]) == GrowthOf(cs[i]) + Growth(cs[i + 1..]) && Room(cs[i]) == GrowthOf(cs[i])
  {
    assert cs[i..][1..] == cs[i + 1..];
  }

  /** A run of commands on a store, up to the first one that might not fit below 2^31 bytes. */
  method Run(store: Store, cs: seq<Command>) returns (replies: seq<Reply>, done: nat)
    requires store.Valid() && Tidy(store.own, store.Contents()) && store.vol.img.size <= TWO_31
    requires forall i :: 0 <= i < |cs| ==> Legal(cs[i])
    modifies store, store.vol
    ensures store.Valid() && Tidy(store.own, store.Contents()) && store.vol.img.size <= TWO_31
    ensures RanAsFar(cs, done, store.vol.img.size)
    ensures old(store.vol.img.size) + Growth(cs) <= TWO_31 ==>
      done == |cs| && store.vol.img.size <= old(store.vol.img.size) + Growth(cs)
    ensures (store.Contents(), replies) == RunSpec(old(store.Contents()), store.hash, cs[..done])
  {
    hide Tidy, Store.Valid, StepSpec, Room, ModelOf, GrowthOf;
    replies, done := [], 0;
    assert cs[0..] == cs;
    while done < |cs| && store.vol.img.size + Room(cs[done]) <= TWO_31
      invariant done <= |cs|
      invariant store.Valid() && Tidy(store.own, store.Contents()) && store.vol.img.size <= TWO_31
      invariant store.vol.img.size + Growth(cs[done..]) <= old(store.vol.img.size) + Growth(cs)
      invariant (store.Contents(), replies) == RunSpec(old(store.Contents()), store.hash, cs[..done])
      decreases |cs| - done
    {
      RunOne(old(store.Contents()), store.hash, cs, done);
      GrowthFrom(cs, done);
      var reply := Apply(store, cs[done]);
      replies, done := replies + [reply], done + 1;
    }
    if done < |cs| {
      GrowthFrom(cs, done);
      NoRoomIsSet(cs[done], store.vol.img.size);
    }
  }

  lemma NoRoomIsSet(c: Command, size: nat)
    requires size <= TWO_31 && size + Room(c) > TWO_31
    ensures c.SetKey?
  {
  }

  /** With no records the file is the info block again. */
  ghost predicate FileOfNothing(store: Store)
    reads store, store.vol
  {
    && store.vol.img.size == INFO_SIZE && store.vol.img.treeRoot == 0 && store.vol.img.spareChain == 0
    && store.vol.spares == []
  }

  /** Any run of commands on a new store: its answers and its contents are those of the model,
      and it answers as a finite map as long as no ten keys share a hash. Whenever it is left
      without records, the file is the info block again. */
  method RunFromEmpty(hash: Bytes -> Hash, cs: seq<Command>) returns (store: Store, replies: seq<Reply>, done: nat)
    requires forall i :: 0 <= i < |cs| ==> Legal(cs[i])
    ensures fresh(store) && fresh(store.vol) && store.hash == hash && store.Valid()
    ensures Tidy(store.own, store.Contents()) && store.vol.img.size <= TWO_31
    ensures RanAsFar(cs, done, store.vol.img.size)
    ensures INFO_SIZE + Growth(cs) <= TWO_31 ==> done == |cs| && store.vol.img.size <= INFO_SIZE + Growth(cs)
    ensures (store.Contents(), replies) == RunSpec(map[], hash, cs[..done])
    ensures NeverCrowded(map[], hash, cs[..done]) ==>
      replies == MapRun(map[], hash, cs[..done]).1 && IsMap(store.Contents(), hash, MapRun(map[], hash, cs[..done]).0)
    ensures store.Contents() == map[] ==> FileOfNothing(store)
  {
    store := new Store(hash);
    replies, done := Run(store, cs);
    if NeverCrowded(map[], hash, cs[..done]) { RunIsMap(map[], hash, map[], cs[..done]); }
    if store.Contents() == map[] {
      EmptyFile(store.vol.img, store.vol.spares, store.t, store.own, store.vol.live, hash);
    }
  }

  // ---------------------------------------------------------------- closing and opening again

  /** butter_db_load: all that stays in memory is read again from the file, and nothing changes. */
  method Reopen(store: Store) returns (r: Status)
    requires store.Valid() && store.vol.img.size <= TWO_31
    modifies store`treeRoot, store.vol`spares
    ensures r == OK && store.Valid()
    ensures store.treeRoot == old(store.treeRoot) && store.vol.spares == old(store.vol.spares)
  {
    store.treeRoot := store.vol.img.treeRoot;
    r := Reload(store.vol);
  }

  /** Open the file again, and go on with more commands. */
  method ReopenAndRun(store: Store, cs: seq<Command>) returns (replies: seq<Reply>, done: nat)
    requires store.Valid() && Tidy(store.own, store.Contents()) && store.vol.img.size <= TWO_31
    requires forall i :: 0 <= i < |cs| ==> Legal(cs[i])
    modifies store, store.vol
    ensures store.Valid() && Tidy(store.own, store.Contents()) && store.vol.img.size <= TWO_31
    ensures RanAsFar(cs, done, store.vol.img.size)
    ensures old(store.vol.img.size) + Growth(cs) <= TWO_31 ==>
      done == |cs| && store.vol.img.size <= old(store.vol.img.size) + Growth(cs)
    ensures (store.Contents(), replies) == RunSpec(old(store.Contents()), store.hash, cs[..done])
  {
    var r := Reopen(store);
    replies, done := Run(store, cs);
  }

  /** Opening the file again between two runs does not show: answers and contents are those of
      one run of all that was run, which is all that surely fits. */
  method RunInTwoSessions(hash: Bytes -> Hash, cs: seq<Command>, cs': seq<Command>)
    returns (store: Store, replies: seq<Reply>, done: nat, done': nat)
    requires (forall i :: 0 <= i < |cs| ==> Legal(cs[i])) && (forall i :: 0 <= i < |cs'| ==> Legal(cs'[i]))
    ensures store.Valid() && done <= |cs| && RanAsFar(cs', done', store.vol.img.size)
    ensures done < |cs| ==> cs[done].SetKey?
    ensures INFO_SIZE + Growth(cs) <= TWO_31 ==> done == |cs|
    ensures INFO_SIZE + Growth(cs) + Growth(cs') <= TWO_31 ==> done' == |cs'|
    ensures (store.Contents(), replies) == RunSpec(map[], hash, cs[..done] + cs'[..done'])
  {
    store, replies, done := RunFromEmpty(hash, cs);
    var replies';
    replies', done' := ReopenAndRun(store, cs');
    RunConcat(map[], hash, cs[..done], cs'[..done']);
    replies := replies + replies';
  }
}
