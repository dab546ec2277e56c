/** What lookup finds on a file that holds a trie. */
module TrieLookups {
  import opened Layout
  import opened FreeProgram
  import opened VolumeManager
  import opened TrieShape
  import opened Lookups
  import opened StoreModel

  /** The bars on the path of h, down to depth d where there is none. */
  ghost predicate OnPath(img: Image, t: Trie, h: Hash, starts: seq<nat>, cnts: seq<nat>) {
    && |starts| == |cnts| <= HASH_LENGTH
    && forall j :: 0 <= j < |starts| ==> PathBar(img, t, h, j, starts[j], cnts[j])
  }

  ghost predicate PathBar(img: Image, t: Trie, h: Hash, j: nat, start: nat, cnt: nat)
    requires j <= HASH_LENGTH
  {
    h[..j] in t.bars && start == t.bars[h[..j]] && IsBar(img, start) && cnt == img.blocks[start].cnt
  }

  /** What the descent meets at depth i of the path of h. */
  ghost predicate StepOK(img: Image, t: Trie, h: Hash, i: nat)
    requires i <= HASH_LENGTH
  {
    var p := h[..i];
    var a := Ptr(t, p);
    if p in t.bars then
      a != 0 && i < HASH_LENGTH && IsBar(img, a) && a == t.bars[p] && img.blocks[a].jump[h[i]] == Ptr(t, h[..i + 1])
    else
      a != 0 ==> a in img.blocks && (img.blocks[a].Data? || img.blocks[a].DataEx?)
  }

  lemma StepOnBar(img: Image, t: Trie, hash: Bytes -> Hash, h: Hash, i: nat)
    requires Shape(t, hash) && Holds(img, t) && i <= HASH_LENGTH && h[..i] in t.bars
    ensures StepOK(img, t, h, i)
  {
    var p := h[..i];
    assert BarPath(t, p) && BarHolds(img, t, p, t.bars[p]);
    Snoc(h, i);
  }

  lemma StepOnTrie(img: Image, t: Trie, hash: Bytes -> Hash, h: Hash, i: nat)
    requires Shape(t, hash) && Holds(img, t) && i <= HASH_LENGTH
    ensures StepOK(img, t, h, i)
  {
    var p := h[..i];
    if p in t.bars {
      StepOnBar(img, t, hash, h, i);
    } else if p in t.at {
      var g := t.at[p];
      assert ChainPath(t, p) && LeafPath(t, hash, g) && RecHolds(img, t.leaves[g].recs, 0);
    }
  }

  lemma {:induction false} WalkOnPath(img: Image, t: Trie, h: Hash, starts: seq<nat>, cnts: seq<nat>)
    requires OnPath(img, t, h, starts, cnts)
    requires forall i :: 0 <= i <= HASH_LENGTH ==> StepOK(img, t, h, i)
    ensures var d := Walk(img, Ptr(t, h[..|starts|]), h, starts, cnts);
      && !d.bad && OnPath(img, t, h, d.starts, d.cnts)
      && h[..|d.starts|] !in t.bars && d.loc == Ptr(t, h[..|d.starts|])
    decreases HASH_LENGTH - |starts|
  {
    var i := |starts|;
    assert StepOK(img, t, h, i);
    if h[..i] in t.bars {
      var a := t.bars[h[..i]];
      assert PathBar(img, t, h, i, a, img.blocks[a].cnt);
      WalkOnPath(img, t, h, starts + [a], cnts + [img.blocks[a].cnt]);
    }
  }

  function IndexOf(recs: seq<Rec>, key: Bytes): nat {
    Position(KVs(recs), key)
  }

  /** The answer for a key whose chain is recs, from position i on. */
  ghost predicate ChainInfo(info: Info, d: Descent, recs: seq<Rec>, key: Bytes, load: bool) {
    var n, i := |recs|, IndexOf(recs, key);
    && info.starts == d.starts && info.cnts == d.cnts
    && info.status == Answer(KVs(recs), key)
    && (info.status == DataError ==> !info.matched)
    && (info.status != DataError ==>
         var e := if info.status == OK then i else n - 1;
         && 0 <= e < n && info.matched == (info.status == OK)
         && info.dStart == recs[e].addr && info.dPrev == (if e > 0 then recs[e - 1].addr else 0)
         && info.dNext == (if e + 1 < n then recs[e + 1].addr else 0)
         && info.firstEx == (if n > 1 then d.loc else 0)
         && info.isEx == (e + 1 < n) && info.blkLength == recs[e].len && info.value == recs[e].value
         && (info.matched || load ==> info.dKey == Some(recs[e].key)))
  }

  ghost predicate Scannable(img: Image, recs: seq<Rec>, j: nat)
    requires j < |recs|
  {
    RecHolds(img, recs, j) && RecOK(recs[j])
  }

  lemma {:induction false} ScanOnChain(img: Image, d: Descent, recs: seq<Rec>, i: nat, key: Bytes, load: bool)
    requires i < |recs| <= HASH_COLLISION_MAX + 2 && i <= HASH_COLLISION_MAX
    requires forall j :: 0 <= j < |recs| ==> Scannable(img, recs, j)
    requires i <= IndexOf(recs, key)
    requires DistinctKeys(recs)
    ensures ChainInfo(Scan(img, d, recs[i].addr, if i > 0 then recs[i - 1].addr else 0, i, key, load), d, recs, key, load)
    decreases |recs| - i
  {
    var n := |recs|;
    assert Scannable(img, recs, i);
    assert i + 1 < n ==> Scannable(img, recs, i + 1);
    assert KVs(recs)[i].key == recs[i].key;
    if i + 1 < n && i < HASH_COLLISION_MAX && recs[i].key != key {
      assert i + 1 <= IndexOf(recs, key);
      ScanOnChain(img, d, recs, i + 1, key, load);
    }
  }

  /** What lookup collects for a key of hash h on a file that holds t: the bars of the path,
      and then either an empty slot, or the single record of another hash, or the chain of h. */
  ghost predicate Found(info: Info, img: Image, t: Trie, h: Hash, key: Bytes, load: bool) {
    && OnPath(img, t, h, info.starts, info.cnts)
    && var p := h[..|info.starts|];
    && p !in t.bars
    && if p !in t.at then FoundNothing(info, t, h)
       else if t.at[p] != h then FoundOther(info, t, h, t.at[p], load)
       else FoundChain(info, t, h, key, load)
  }

  ghost predicate FoundNothing(info: Info, t: Trie, h: Hash) {
    h !in t.leaves && info.status == NotFound && info.dStart == 0 && info.dKey == None && !info.matched
  }

  ghost predicate FoundOther(info: Info, t: Trie, h: Hash, g: Hash, load: bool) {
    && h !in t.leaves && g in t.leaves && t.leaves[g].depth == |info.starts| < HASH_LENGTH && |t.leaves[g].recs| == 1
    && info.status == NotFound && info.dStart == t.leaves[g].recs[0].addr && info.firstEx == 0 && !info.matched
    && (load ==> info.dKey == Some(t.leaves[g].recs[0].key))
  }

  ghost predicate FoundChain(info: Info, t: Trie, h: Hash, key: Bytes, load: bool) {
    && h in t.leaves && t.leaves[h].depth == |info.starts| && |t.leaves[h].recs| > 0
    && ChainInfo(info, Descent(info.starts, info.cnts, t.leaves[h].recs[0].addr, false), t.leaves[h].recs, key, load)
  }

  lemma PathOfLeaf(t: Trie, hash: Bytes -> Hash, h: Hash, d: nat)
    requires Shape(t, hash) && h in t.leaves && d <= HASH_LENGTH
    requires h[..d] !in t.bars && forall j :: 0 <= j < d ==> h[..j] in t.bars
    ensures t.leaves[h].depth == d && h[..d] in t.at && t.at[h[..d]] == h
  {
    var e := t.leaves[h].depth;
    assert LeafPath(t, hash, h) && ChainPath(t, h[..e]);
    if d < e {
      assert h[..e][..d] == h[..d];
      NothingBelow(t, hash, h[..d], h[..e]);
    }
  }

  lemma OtherAt(t: Trie, hash: Bytes -> Hash, h: Hash, d: nat)
    requires Shape(t, hash) && d <= HASH_LENGTH && h[..d] in t.at && t.at[h[..d]] != h
    ensures d < HASH_LENGTH && t.at[h[..d]] in t.leaves && |t.leaves[t.at[h[..d]]].recs| == 1
    ensures t.leaves[t.at[h[..d]]].depth == d
  {
    var g := t.at[h[..d]];
    assert ChainPath(t, h[..d]) && LeafPath(t, hash, g);
    assert g[..HASH_LENGTH] == g && h[..HASH_LENGTH] == h;
  }

  /** On any file that holds a trie, lookup answers for the trie. */
  lemma LookupOnTrie(img: Image, t: Trie, hash: Bytes -> Hash, key: Bytes, load: bool)
    requires Shape(t, hash) && Holds(img, t)
    ensures Found(LookupSpec(img, img.treeRoot, hash(key), key, load), img, t, hash(key), key, load)
  {
    var h := hash(key);
    forall i | 0 <= i <= HASH_LENGTH ensures StepOK(img, t, h, i) { StepOnTrie(img, t, hash, h, i); }
    assert h[..0] == [];
    WalkOnPath(img, t, h, [], []);
    var d := Walk(img, img.treeRoot, h, [], []);
    ScanOnTrie(img, t, hash, key, load, d);
  }

  lemma ScanOnTrie(img: Image, t: Trie, hash: Bytes -> Hash, key: Bytes, load: bool, d: Descent)
    requires Shape(t, hash) && Holds(img, t)
    requires d == Walk(img, img.treeRoot, hash(key), [], [])
    requires !d.bad && OnPath(img, t, hash(key), d.starts, d.cnts)
    requires hash(key)[..|d.starts|] !in t.bars && d.loc == Ptr(t, hash(key)[..|d.starts|])
    ensures Found(LookupSpec(img, img.treeRoot, hash(key), key, load), img, t, hash(key), key, load)
  {
    var h := hash(key);
    var p := h[..|d.starts|];
    forall j | 0 <= j < |d.starts| ensures h[..j] in t.bars { assert PathBar(img, t, h, j, d.starts[j], d.cnts[j]); }
    if h in t.leaves { PathOfLeaf(t, hash, h, |d.starts|); }
    if p in t.at {
      var g := t.at[p];
      assert ChainPath(t, p) && LeafPath(t, hash, g);
      if g != h { OtherAt(t, hash, h, |d.starts|); }
      ScanLeaf(img, t, hash, g, key, load, d);
    }
  }

  lemma ScanLeaf(img: Image, t: Trie, hash: Bytes -> Hash, g: Hash, key: Bytes, load: bool, d: Descent)
    requires Shape(t, hash) && Holds(img, t) && g in t.leaves && |t.leaves[g].recs| > 0 && d.loc == t.leaves[g].recs[0].addr
    requires hash(key) != g ==> |t.leaves[g].recs| == 1
    ensures d.loc != 0 && d.loc in img.blocks && !img.blocks[d.loc].Spare? && !img.blocks[d.loc].Bar?
    ensures img.blocks[d.loc].DataEx? <==> |t.leaves[g].recs| > 1
    ensures |t.leaves[g].recs| > 1 ==> t.leaves[g].depth == HASH_LENGTH
    ensures ChainInfo(Scan(img, d, d.loc, 0, 0, key, load), d, t.leaves[g].recs, key, load)
    ensures hash(key) != g ==> Answer(KVs(t.leaves[g].recs), key) == NotFound
  {
    var recs := t.leaves[g].recs;
    assert LeafPath(t, hash, g);
    forall j | 0 <= j < |recs| ensures Scannable(img, recs, j) { assert RecHolds(img, recs, j); }
    assert Scannable(img, recs, 0);
    if hash(key) != g { OtherKey(recs, hash, g, key); }
    ScanOnChain(img, d, recs, 0, key, load);
  }

  lemma OtherKey(recs: seq<Rec>, hash: Bytes -> Hash, g: Hash, key: Bytes)
    requires |recs| == 1 && hash(recs[0].key) == g && hash(key) != g
    ensures IndexOf(recs, key) == 1 && Answer(KVs(recs), key) == NotFound
  {
  }

  // ---------------------------------------------------------------- reading back a file

  /** What a reader gets who has nothing but the file. */
  function ReadKey(img: Image, h: Hash, key: Bytes): (Status, Bytes) {
    var info := LookupSpec(img, img.treeRoot, h, key, false);
    if info.status == OK then (OK, info.value) else (info.status, [])
  }

  /** For every key the file answers as the model does. */
  ghost predicate Reads(img: Image, m: Model, hash: Bytes -> Hash) {
    forall key :: ReadKey(img, hash(key), key) == SpecGet(m, hash(key), key)
  }

  lemma HoldsReads(img: Image, t: Trie, hash: Bytes -> Hash)
    requires Shape(t, hash) && Holds(img, t)
    ensures Reads(img, ModelOf(t), hash)
  {
    forall key ensures ReadKey(img, hash(key), key) == SpecGet(ModelOf(t), hash(key), key) {
      LookupOnTrie(img, t, hash, key, false);
    }
  }

  /** The history since `from` reads as m0 up to one write, and as m1 from that write on. */
  ghost predicate Atomic(log: seq<Image>, from: nat, m0: Model, m1: Model, hash: Bytes -> Hash) {
    exists cut :: from <= cut <= |log| && ReadsAll(log, from, cut, m0, hash) && ReadsAll(log, cut, |log|, m1, hash)
  }

  ghost predicate ReadsAll(log: seq<Image>, from: nat, to: nat, m: Model, hash: Bytes -> Hash) {
    from <= to <= |log| && forall i :: from <= i < to ==> Reads(log[i], m, hash)
  }
}
