/** The block walk of the file checker (src/check.c), and what it says of a valid store. */
module Checker {
  import opened Layout
  import opened Extents
  import opened FreeProgram
  import opened VolumeManager
  import opened TrieShape
  import opened StoreModel
  import opened StoreManager

  const MAGIC_SIZE: nat := 4

  datatype Counters = Counters(spare: nat, bar: nat, data: nat, dataEx: nat)

  const NO_BLOCKS := Counters(0, 0, 0, 0)

  function Count(c: Counters, b: Block): Counters {
    match b
    case Spare(_, _) => c.(spare := c.spare + 1)
    case Bar(_, _) => c.(bar := c.bar + 1)
    case Data(_, _, _) => c.(data := c.data + 1)
    case DataEx(_, _, _, _) => c.(dataEx := c.dataEx + 1)
  }

  /** The checks of one block. A bar whose counter is wrong is only reported; a data block may
      claim bytes past the end of the file, and an extended one is held against the header of a
      plain one. */
  predicate BlockOK(img: Image, a: nat)
    requires a in img.blocks
  {
    match img.blocks[a]
    case Spare(length, _) => a + SPARE_SIZE <= img.size && (a + length) % TWO_64 <= img.size
    case Bar(_, _) => a + BAR_SIZE <= img.size
    case Data(blkLength, key, value) =>
      a + DATA_SIZE < img.size && |key| > 0 && (|key| + |value|) % TWO_32 + DATA_SIZE <= blkLength
    case DataEx(blkLength, _, key, value) =>
      a + DATA_EX_SIZE < img.size && |key| > 0 && (|key| + |value|) % TWO_32 + DATA_SIZE <= blkLength
  }

  /** Where the walk goes on. */
  function NextAt(img: Image, a: nat): nat
    requires a in img.blocks
  {
    (a + Claimed(img.blocks[a])) % TWO_64
  }

  /** The walk ends at a. */
  predicate Stops(img: Image, a: nat) {
    a + MAGIC_SIZE > img.size || a !in img.blocks || !BlockOK(img, a)
  }

  /** Where the walk from a is after n blocks, unless it ends before. */
  function WalkFrom(img: Image, a: nat, n: nat): nat
    decreases n
  {
    if n == 0 || Stops(img, a) then a else WalkFrom(img, NextAt(img, a), n - 1)
  }

  ghost predicate StopsBy(img: Image, a: nat, n: nat) {
    Stops(img, WalkFrom(img, a, n))
  }

  /** Blocks that follow one another from one offset to another, all of them in order. */
  ghost predicate Tiles(img: Image, tiles: seq<nat>, from: nat, to: nat) {
    if tiles == [] then from == to
    else tiles[0] == from < img.size && from in img.blocks && BlockOK(img, from) && Tiles(img, tiles[1..], NextAt(img, from), to)
  }

  function Tally(img: Image, tiles: seq<nat>): Counters
    requires forall i :: 0 <= i < |tiles| ==> tiles[i] in img.blocks
  {
    if tiles == [] then NO_BLOCKS else Count(Tally(img, tiles[..|tiles| - 1]), img.blocks[tiles[|tiles| - 1]])
  }

  lemma {:induction false} TilesPush(img: Image, tiles: seq<nat>, from: nat, to: nat)
    requires Tiles(img, tiles, from, to)
    requires to < img.size && to in img.blocks && BlockOK(img, to)
    ensures Tiles(img, tiles + [to], from, NextAt(img, to))
  {
    if tiles != [] {
      TilesPush(img, tiles[1..], NextAt(img, from), to);
      assert (tiles + [to])[1..] == tiles[1..] + [to];
    } else {
      assert (tiles + [to])[1..] == [];
    }
  }

  lemma {:induction false} TilesRead(img: Image, tiles: seq<nat>, from: nat, to: nat)
    requires Tiles(img, tiles, from, to)
    ensures forall i :: 0 <= i < |tiles| ==> tiles[i] in img.blocks
  {
    if tiles != [] { TilesRead(img, tiles[1..], NextAt(img, from), to); }
  }

  /** Lengths of data blocks fit into their 32 bits, and no spare block leads past 2^64. */
  ghost predicate LengthsFit(img: Image) {
    && img.size <= TWO_64 - TWO_32
    && forall a :: a in img.blocks ==> LengthFits(img, a)
  }

  predicate LengthFits(img: Image, a: nat)
    requires a in img.blocks
  {
    match img.blocks[a]
    case Spare(length, _) => a + length < TWO_64
    case Bar(_, _) => true
    case Data(blkLength, _, _) => blkLength < TWO_32
    case DataEx(blkLength, _, _, _) => blkLength < TWO_32
  }

  /** Nor do a key and its value together exceed 32 bits. */
  ghost predicate FieldsFit(img: Image) {
    LengthsFit(img) && forall a :: a in img.blocks ==> ContentFits(img.blocks[a])
  }

  predicate ContentFits(b: Block) {
    match b
    case Spare(_, _) => true
    case Bar(_, _) => true
    case Data(_, key, value) => |key| + |value| < TWO_32
    case DataEx(_, _, key, value) => |key| + |value| < TWO_32
  }

  /** What the checker finds out: a spare and a bar end inside the file; a data block has its header
      inside, a key, and room for key and value behind a header of 16 bytes. */
  predicate Undamaged(img: Image, a: nat)
    requires a in img.blocks
  {
    match img.blocks[a]
    case Spare(length, _) => a + 24 <= img.size && a + length <= img.size
    case Bar(_, _) => a + 2056 <= img.size
    case Data(blkLength, key, value) => a + 16 < img.size && |key| >= 1 && 16 + |key| + |value| <= blkLength
    case DataEx(blkLength, _, key, value) => a + 24 < img.size && |key| >= 1 && 16 + |key| + |value| <= blkLength
  }

  /** The walk goes on exactly over undamaged blocks. */
  lemma StopsIff(img: Image, a: nat)
    requires FieldsFit(img) && a in img.blocks
    ensures Stops(img, a) <==> !Undamaged(img, a)
  {
    assert LengthFits(img, a) && ContentFits(img.blocks[a]);
  }

  /** A file that was cut off inside a spare extent. */
  lemma CutOffStops(img: Image, next: nat)
    requires img.size == 64 && 32 in img.blocks && img.blocks[32] == Spare(1000, next)
    ensures Stops(img, 32)
  {
    assert (32 + 1000) % TWO_64 == 1032;
  }

  /** A data block without a key, and too short for its value. */
  lemma NoKeyStops(img: Image)
    requires img.size == 64 && 32 in img.blocks && img.blocks[32] == Data(16, [], [1, 2, 3])
    ensures Stops(img, 32)
  {
  }

  /** butter_check_tlv, on a file on which it ends. OK means that blocks in order follow one
      another from the info block to the end of the file or past it; otherwise they lead to a
      place where no such block is. */
  method CheckTlv(img: Image, ghost n: nat) returns (r: Status, c: Counters, ghost tiles: seq<nat>, ghost end: nat)
    requires StopsBy(img, INFO_SIZE, n)
    ensures r == OK || r == DataError
    ensures Tiles(img, tiles, INFO_SIZE, end)
    ensures forall i :: 0 <= i < |tiles| ==> tiles[i] in img.blocks
    ensures c == Tally(img, tiles)
    ensures r == OK ==> img.size <= end
    ensures r == DataError ==> end < img.size && Stops(img, end)
    ensures FieldsFit(img) && r == OK ==> forall i :: 0 <= i < |tiles| ==> Undamaged(img, tiles[i])
    ensures FieldsFit(img) && r == DataError ==> end !in img.blocks || !Undamaged(img, end)
  {
    c, tiles := NO_BLOCKS, [];
    var offset: nat := INFO_SIZE;
    ghost var left := n;
    assert FieldsFit(img) ==> forall a :: a in img.blocks ==> (Stops(img, a) <==> !Undamaged(img, a)) by {
      if FieldsFit(img) { forall a | a in img.blocks ensures Stops(img, a) <==> !Undamaged(img, a) { StopsIff(img, a); } }
    }
    while true
      invariant Tiles(img, tiles, INFO_SIZE, offset) && StopsBy(img, offset, left)
      invariant forall i :: 0 <= i < |tiles| ==> tiles[i] in img.blocks
      invariant c == Tally(img, tiles)
      invariant FieldsFit(img) ==> forall i :: 0 <= i < |tiles| ==> Undamaged(img, tiles[i])
      decreases left
    {
      end := offset;
      if offset >= img.size {
        return OK, c, tiles, end;
      } else if offset + MAGIC_SIZE > img.size {
        return DataError, c, tiles, end;
      } else if offset !in img.blocks || !BlockOK(img, offset) {
        return DataError, c, tiles, end;
      }
      TilesPush(img, tiles, INFO_SIZE, offset);
      TilesRead(img, tiles + [offset], INFO_SIZE, NextAt(img, offset));
      assert (tiles + [offset])[..|tiles|] == tiles;
      c, tiles := Count(c, img.blocks[offset]), tiles + [offset];
      offset, left := NextAt(img, offset), left - 1;
    }
  }

  // ---------------------------------------------------------------- when the walk ends

  lemma {:induction false} WalkOn(img: Image, a: nat, m: nat, n: nat)
    ensures WalkFrom(img, a, m + n) == WalkFrom(img, WalkFrom(img, a, m), n)
    decreases m
  {
    if m > 0 && !Stops(img, a) { WalkOn(img, NextAt(img, a), m - 1, n); }
  }

  /** A walk that has ended stays where it is. */
  lemma StopsLater(img: Image, a: nat, m: nat, n: nat)
    requires m <= n && StopsBy(img, a, m)
    ensures StopsBy(img, a, n)
  {
    WalkOn(img, a, m, n - m);
  }

  /** The places where the walk is after 0 .. n - 1 blocks. */
  function Visited(img: Image, a: nat, n: nat): (s: seq<nat>)
    ensures |s| == n && forall i :: 0 <= i < n ==> s[i] == WalkFrom(img, a, i)
  {
    seq(n, i requires 0 <= i < n => WalkFrom(img, a, i))
  }

  /** More numbers than a set has elements cannot all be different. */
  lemma {:induction false} Pigeonhole(s: seq<nat>, T: set<nat>) returns (i: nat, j: nat)
    requires |s| > |T| && forall i :: 0 <= i < |s| ==> s[i] in T
    ensures i < j < |s| && s[i] == s[j]
    decreases |s|
  {
    var n := |s| - 1;
    if k :| 0 <= k < n && s[k] == s[n] {
      i, j := k, n;
    } else {
      assert |T - {s[n]}| == |T| - 1;
      i, j := Pigeonhole(s[..n], T - {s[n]});
    }
  }

  /** A walk that comes back to a place goes round for ever. */
  lemma {:induction false} CircleNeverStops(img: Image, a: nat, i: nat, j: nat, n: nat)
    requires i < j && WalkFrom(img, a, i) == WalkFrom(img, a, j) && !StopsBy(img, a, j)
    ensures !StopsBy(img, a, n)
    decreases n
  {
    if n <= j {
      if StopsBy(img, a, n) { StopsLater(img, a, n, j); }
    } else {
      WalkOn(img, a, j, n - j);
      WalkOn(img, a, i, n - j);
      CircleNeverStops(img, a, i, j, i + (n - j));
    }
  }

  /** On any file the walk ends exactly if it ends within as many steps as the file has blocks. */
  lemma WalkEndsSoon(img: Image)
    ensures (exists n: nat :: StopsBy(img, INFO_SIZE, n)) <==> StopsBy(img, INFO_SIZE, |img.blocks|)
  {
    var N := |img.blocks|;
    if !StopsBy(img, INFO_SIZE, N) {
      var s := Visited(img, INFO_SIZE, N + 1);
      forall i | 0 <= i < |s| ensures s[i] in img.blocks.Keys {
        if StopsBy(img, INFO_SIZE, i) { StopsLater(img, INFO_SIZE, i, N); }
      }
      assert |img.blocks.Keys| == N;
      var i, j := Pigeonhole(s, img.blocks.Keys);
      if StopsBy(img, INFO_SIZE, j) { StopsLater(img, INFO_SIZE, j, N); }
      forall n: nat ensures !StopsBy(img, INFO_SIZE, n) { CircleNeverStops(img, INFO_SIZE, i, j, n); }
    }
  }

  /** A spare block of length 0 that passes its checks. */
  predicate EmptySpare(img: Image, a: nat) {
    !Stops(img, a) && img.blocks[a].Spare? && img.blocks[a].length == 0
  }

  /** After n blocks the walk from a is at such a block. */
  ghost predicate EmptySpareAfter(img: Image, a: nat, n: nat) {
    EmptySpare(img, WalkFrom(img, a, n))
  }

  lemma {:induction false} EmptySpareStays(img: Image, a: nat, n: nat)
    requires EmptySpare(img, a) && a < TWO_64
    ensures WalkFrom(img, a, n) == a
    decreases n
  {
    if n > 0 { EmptySpareStays(img, a, n - 1); }
  }

  /** Once at an empty spare block the walk never ends. */
  lemma EmptySpareLoops(img: Image, k: nat, n: nat)
    requires img.size <= TWO_64 && EmptySpareAfter(img, INFO_SIZE, k)
    ensures !StopsBy(img, INFO_SIZE, n)
  {
    var a := WalkFrom(img, INFO_SIZE, k);
    if StopsBy(img, INFO_SIZE, n) {
      StopsLater(img, INFO_SIZE, n, n + k);
      WalkOn(img, INFO_SIZE, k, n);
      EmptySpareStays(img, a, n);
    }
  }

  lemma {:induction false} NoEmptySpareEnds(img: Image, a: nat)
    requires LengthsFit(img) && forall n: nat :: !EmptySpareAfter(img, a, n)
    ensures StopsBy(img, a, if a < img.size then img.size - a else 0)
    decreases img.size - a
  {
    if !Stops(img, a) {
      var next := NextAt(img, a);
      assert !EmptySpareAfter(img, a, 0) && LengthFits(img, a);
      assert a < next;
      forall n: nat ensures !EmptySpareAfter(img, next, n) { assert !EmptySpareAfter(img, a, n + 1); }
      NoEmptySpareEnds(img, next);
      StopsLater(img, next, if next < img.size then img.size - next else 0, img.size - a - 1);
    }
  }

  /** On a file whose lengths fit, the walk ends exactly if it comes to no empty spare block;
      so it does when there is none. */
  lemma WalkEndsIff(img: Image)
    requires LengthsFit(img)
    ensures (exists n: nat :: StopsBy(img, INFO_SIZE, n)) <==> forall n: nat :: !EmptySpareAfter(img, INFO_SIZE, n)
    ensures (forall a :: a in img.blocks && img.blocks[a].Spare? ==> img.blocks[a].length > 0) ==>
      exists n: nat :: StopsBy(img, INFO_SIZE, n)
  {
    if k: nat :| EmptySpareAfter(img, INFO_SIZE, k) {
      forall n: nat ensures !StopsBy(img, INFO_SIZE, n) { EmptySpareLoops(img, k, n); }
    } else {
      NoEmptySpareEnds(img, INFO_SIZE);
    }
  }

  // ---------------------------------------------------------------- files that are tiled

  ghost predicate TileOK(img: Image, a: nat) {
    && a in img.blocks && BlockOK(img, a)
    && INFO_SIZE <= a && 0 < Claimed(img.blocks[a]) && a + Claimed(img.blocks[a]) <= img.size
  }

  ghost predicate CoveredBy(img: Image, T: set<nat>, x: nat) {
    exists a :: a in T && a in img.blocks && a <= x < a + Claimed(img.blocks[a])
  }

  /** The blocks at T cover the file behind the info block without overlap. */
  ghost predicate Tiled(img: Image, T: set<nat>) {
    && INFO_SIZE <= img.size < TWO_64
    && (forall a {:trigger TileOK(img, a)} :: a in T ==> TileOK(img, a))
    && (forall a, b {:trigger Apart(a, Claimed(img.blocks[a]), b, Claimed(img.blocks[b]))} ::
         a in T && b in T && a != b && a in img.blocks && b in img.blocks ==>
           Apart(a, Claimed(img.blocks[a]), b, Claimed(img.blocks[b])))
    && (forall x: nat :: INFO_SIZE <= x < img.size ==> CoveredBy(img, T, x))
  }

  /** No tile has x inside. */
  ghost predicate Boundary(img: Image, T: set<nat>, x: nat) {
    forall a {:trigger TileOK(img, a)} :: a in T && a in img.blocks ==> a + Claimed(img.blocks[a]) <= x || x <= a
  }

  lemma TileStarts(img: Image, T: set<nat>, x: nat)
    requires Tiled(img, T) && INFO_SIZE <= x < img.size && Boundary(img, T, x)
    ensures x in T && TileOK(img, x) && Boundary(img, T, NextAt(img, x)) && NextAt(img, x) == x + Claimed(img.blocks[x])
  {
    assert CoveredBy(img, T, x);
    var a :| a in T && a in img.blocks && a <= x < a + Claimed(img.blocks[a]);
    assert TileOK(img, a);
    forall b | b in T && b in img.blocks
      ensures b + Claimed(img.blocks[b]) <= NextAt(img, x) || NextAt(img, x) <= b
    {
      if b != x { assert Apart(x, Claimed(img.blocks[x]), b, Claimed(img.blocks[b])); }
    }
  }

  lemma {:induction false} TiledEnds(img: Image, T: set<nat>, x: nat)
    requires Tiled(img, T) && INFO_SIZE <= x && Boundary(img, T, x)
    ensures StopsBy(img, x, if x < img.size then img.size - x else 0)
    decreases img.size - x
  {
    if x < img.size {
      TileStarts(img, T, x);
      var next := NextAt(img, x);
      TiledEnds(img, T, next);
      StopsLater(img, next, if next < img.size then img.size - next else 0, img.size - x - 1);
    }
  }

  /** A walk over a tiled file meets every tile between its ends once, in ascending order. */
  lemma {:induction false} WalkTiles(img: Image, T: set<nat>, tiles: seq<nat>, from: nat, to: nat)
    requires Tiled(img, T) && INFO_SIZE <= from <= img.size && Boundary(img, T, from) && Tiles(img, tiles, from, to)
    ensures from <= to <= img.size && Boundary(img, T, to)
    ensures forall i :: 0 <= i < |tiles| ==> from <= tiles[i] && tiles[i] in img.blocks
    ensures forall i, j :: 0 <= i < j < |tiles| ==> tiles[i] < tiles[j]
    ensures forall a :: a in tiles <==> a in T && from <= a < to
  {
    if tiles == [] {
    } else {
      TileStarts(img, T, from);
      var rest := tiles[1..];
      WalkTiles(img, T, rest, NextAt(img, from), to);
      assert forall i :: 1 <= i < |tiles| ==> tiles[i] == rest[i - 1];
      forall a ensures a in tiles <==> a in T && from <= a < to {
        assert a in tiles <==> a == from || a in rest;
        if a in T && a != from {
          assert TileOK(img, a) && Apart(from, Claimed(img.blocks[from]), a, Claimed(img.blocks[a]));
        }
      }
    }
  }

  ghost function Spares(img: Image, T: set<nat>): set<nat> { set a | a in T && a in img.blocks && img.blocks[a].Spare? }
  ghost function Bars(img: Image, T: set<nat>): set<nat> { set a | a in T && a in img.blocks && img.blocks[a].Bar? }
  ghost function Datas(img: Image, T: set<nat>): set<nat> { set a | a in T && a in img.blocks && img.blocks[a].Data? }
  ghost function DataExs(img: Image, T: set<nat>): set<nat> { set a | a in T && a in img.blocks && img.blocks[a].DataEx? }

  ghost function Census(img: Image, T: set<nat>): Counters {
    Counters(|Spares(img, T)|, |Bars(img, T)|, |Datas(img, T)|, |DataExs(img, T)|)
  }

  lemma CensusOne(img: Image, T: set<nat>, a: nat)
    requires a !in T && a in img.blocks
    ensures Census(img, T + {a}) == Count(Census(img, T), img.blocks[a])
  {
    var T' := T + {a};
    match img.blocks[a]
    case Spare(_, _) => Others(img, T, a); assert Spares(img, T') == Spares(img, T) + {a};
    case Bar(_, _) => Others(img, T, a); assert Bars(img, T') == Bars(img, T) + {a};
    case Data(_, _, _) => Others(img, T, a); assert Datas(img, T') == Datas(img, T) + {a};
    case DataEx(_, _, _, _) => Others(img, T, a); assert DataExs(img, T') == DataExs(img, T) + {a};
  }

  lemma Others(img: Image, T: set<nat>, a: nat)
    requires a !in T && a in img.blocks
    ensures !img.blocks[a].Spare? ==> Spares(img, T + {a}) == Spares(img, T)
    ensures !img.blocks[a].Bar? ==> Bars(img, T + {a}) == Bars(img, T)
    ensures !img.blocks[a].Data? ==> Datas(img, T + {a}) == Datas(img, T)
    ensures !img.blocks[a].DataEx? ==> DataExs(img, T + {a}) == DataExs(img, T)
  {
  }

  ghost function SetOf(tiles: seq<nat>): set<nat> { set a | a in tiles }

  lemma CensusNone(img: Image)
    ensures Census(img, {}) == NO_BLOCKS
  {
  }

  lemma {:induction false} TallyIsCensus(img: Image, tiles: seq<nat>)
    requires forall i :: 0 <= i < |tiles| ==> tiles[i] in img.blocks
    requires forall i, j :: 0 <= i < j < |tiles| ==> tiles[i] < tiles[j]
    ensures Tally(img, tiles) == Census(img, SetOf(tiles))
  {
    hide Census, Count;
    if tiles == [] {
      CensusNone(img);
      assert SetOf(tiles) == {};
    } else {
      var n := |tiles| - 1;
      TallyIsCensus(img, tiles[..n]);
      CensusOne(img, SetOf(tiles[..n]), tiles[n]);
      assert SetOf(tiles[..n]) + {tiles[n]} == SetOf(tiles);
    }
  }

  // ---------------------------------------------------------------- the store is tiled

  ghost function AllTiles(spares: seq<Extent>, live: map<nat, nat>): set<nat> {
    live.Keys + StartSet(spares)
  }

  lemma RecTile(img: Image, t: Trie, own: map<nat, Owner>, live: map<nat, nat>, hash: Bytes -> Hash, h: Hash, i: nat)
    requires TreeOK(img, t, own, live, hash) && LiveOK(live, img.size)
    requires h in t.leaves && i < |t.leaves[h].recs|
    ensures var a := t.leaves[h].recs[i].addr;
      a in live && TileOK(img, a) && Claimed(img.blocks[a]) == live[a] && img.blocks[a] == BlockOf(t.leaves[h].recs, i)
  {
    assert LeafPath(t, hash, h) && RecHolds(img, t.leaves[h].recs, i) && RecOwned(own, live, t.leaves[h].recs, i);
  }

  lemma LiveTile(img: Image, t: Trie, own: map<nat, Owner>, live: map<nat, nat>, hash: Bytes -> Hash, a: nat)
    requires TreeOK(img, t, own, live, hash) && LiveOK(live, img.size) && a in live
    ensures TileOK(img, a) && Claimed(img.blocks[a]) == live[a] && !img.blocks[a].Spare?
    ensures img.blocks[a].Bar? <==> own[a].OwnBar?
  {
    assert OwnerOK(img, t, live, a, own[a], hash);
    match own[a]
    case OwnBar(p) => assert BarOwned(t, own, live, p) && BarHolds(img, t, p, a);
    case OwnRec(key) =>
      var recs := t.leaves[hash(key)].recs;
      var i :| 0 <= i < |recs| && recs[i].key == key && recs[i].addr == a;
      RecTile(img, t, own, live, hash, hash(key), i);
    case Leaked =>
  }

  lemma SpareTile(img: Image, spares: seq<Extent>, live: map<nat, nat>, a: nat)
    requires Canonical(spares, live, img.size) && ChainOK(img, spares) && a in StartSet(spares) && img.size < TWO_64
    ensures TileOK(img, a) && img.blocks[a].Spare? && Extent(a, Claimed(img.blocks[a])) in spares
  {
    var i :| 0 <= i < |spares| && spares[i].start == a;
    assert LinkAt(img, spares, i, 0) && spares[i] in spares;
  }

  lemma FreeApartLive(spares: seq<Extent>, live: map<nat, nat>, end: nat, e: Extent, a: nat)
    requires Canonical(spares, live, end) && e in spares && a in live
    ensures Apart(e.start, e.length, a, live[a])
  {
    if !Apart(e.start, e.length, a, live[a]) {
      var i :| 0 <= i < |spares| && spares[i] == e;
      var x := Max(e.start, a);
      assert InFree(spares, x) by { assert spares[i].Has(x); }
      assert InLive(live, x);
    }
  }

  lemma SparesApart(spares: seq<Extent>, e: Extent, f: Extent)
    requires Separated(spares) && e in spares && f in spares && e.start != f.start
    ensures Apart(e.start, e.length, f.start, f.length)
  {
  }

  lemma TilesApart(img: Image, spares: seq<Extent>, t: Trie, own: map<nat, Owner>, live: map<nat, nat>, hash: Bytes -> Hash, a: nat, b: nat)
    requires Canonical(spares, live, img.size) && ChainOK(img, spares) && TreeOK(img, t, own, live, hash) && img.size < TWO_64
    requires a in AllTiles(spares, live) && b in AllTiles(spares, live) && a != b && a in img.blocks && b in img.blocks
    ensures Apart(a, Claimed(img.blocks[a]), b, Claimed(img.blocks[b]))
  {
    if a in live { LiveTile(img, t, own, live, hash, a); } else { SpareTile(img, spares, live, a); }
    if b in live { LiveTile(img, t, own, live, hash, b); } else { SpareTile(img, spares, live, b); }
    if a in live && b in live {
      assert Apart(a, live[a], b, live[b]);
    } else if a in live {
      FreeApartLive(spares, live, img.size, Extent(b, Claimed(img.blocks[b])), a);
    } else if b in live {
      FreeApartLive(spares, live, img.size, Extent(a, Claimed(img.blocks[a])), b);
    } else {
      SparesApart(spares, Extent(a, Claimed(img.blocks[a])), Extent(b, Claimed(img.blocks[b])));
    }
  }

  lemma TileCovers(img: Image, spares: seq<Extent>, t: Trie, own: map<nat, Owner>, live: map<nat, nat>, hash: Bytes -> Hash, x: nat)
    requires Canonical(spares, live, img.size) && ChainOK(img, spares) && TreeOK(img, t, own, live, hash) && img.size < TWO_64
    requires INFO_SIZE <= x < img.size
    ensures CoveredBy(img, AllTiles(spares, live), x)
  {
    if InFree(spares, x) {
      var i :| 0 <= i < |spares| && spares[i].Has(x);
      assert LinkAt(img, spares, i, 0) && spares[i].start in StartSet(spares);
    } else {
      assert InLive(live, x);
      var a :| a in live && a <= x < a + live[a];
      LiveTile(img, t, own, live, hash, a);
    }
  }

  lemma StoreTiled(img: Image, spares: seq<Extent>, t: Trie, own: map<nat, Owner>, live: map<nat, nat>, hash: Bytes -> Hash)
    requires Canonical(spares, live, img.size) && ChainOK(img, spares) && TreeOK(img, t, own, live, hash) && img.size < TWO_64
    ensures Tiled(img, AllTiles(spares, live))
  {
    var T := AllTiles(spares, live);
    forall a | a in T ensures TileOK(img, a) {
      if a in live { LiveTile(img, t, own, live, hash, a); } else { SpareTile(img, spares, live, a); }
    }
    forall a, b | a in T && b in T && a != b && a in img.blocks && b in img.blocks
      ensures Apart(a, Claimed(img.blocks[a]), b, Claimed(img.blocks[b]))
    {
      TilesApart(img, spares, t, own, live, hash, a, b);
    }
    forall x: nat | INFO_SIZE <= x < img.size ensures CoveredBy(img, T, x) { TileCovers(img, spares, t, own, live, hash, x); }
  }

  // ---------------------------------------------------------------- how many blocks of each kind

  ghost function ValuesOf<K, V>(m: map<K, V>): set<V> { set k | k in m :: m[k] }

  ghost predicate Injective<K(!new), V>(m: map<K, V>) { forall a, b :: a in m && b in m && m[a] == m[b] ==> a == b }

  lemma {:induction false} InjectiveSize<K(!new), V>(m: map<K, V>)
    requires Injective(m)
    ensures |ValuesOf(m)| == |m|
    decreases |m|
  {
    if k :| k in m {
      var rest := m - {k};
      InjectiveSize(rest);
      forall v ensures v in ValuesOf(m) <==> v in ValuesOf(rest) || v == m[k] {
        if j :| j in m && m[j] == v && j != k { assert j in rest && rest[j] == v; }
      }
      assert ValuesOf(m) == ValuesOf(rest) + {m[k]};
      assert m[k] !in ValuesOf(rest);
      assert m.Keys == rest.Keys + {k};
    } else {
      assert ValuesOf(m) == {};
    }
  }

  lemma {:induction false} StartSetSize(s: seq<Extent>)
    requires Separated(s)
    ensures |StartSet(s)| == |s|
  {
    if s != [] {
      var n := |s| - 1;
      StartSetSize(s[..n]);
      assert StartSet(s) == StartSet(s[..n]) + {s[n].start};
      assert s[n].start !in StartSet(s[..n]);
    }
  }

  /** The last block of every chain. */
  ghost function Tails(t: Trie): map<Hash, nat> {
    map h | h in t.leaves && |t.leaves[h].recs| > 0 :: t.leaves[h].recs[|t.leaves[h].recs| - 1].addr
  }

  lemma SpareCount(img: Image, spares: seq<Extent>, t: Trie, own: map<nat, Owner>, live: map<nat, nat>, hash: Bytes -> Hash)
    requires Canonical(spares, live, img.size) && ChainOK(img, spares) && TreeOK(img, t, own, live, hash) && img.size < TWO_64
    ensures |Spares(img, AllTiles(spares, live))| == |spares|
  {
    forall a ensures a in Spares(img, AllTiles(spares, live)) <==> a in StartSet(spares) {
      if a in live { LiveTile(img, t, own, live, hash, a); }
      if a in StartSet(spares) { SpareTile(img, spares, live, a); }
    }
    StartSetSize(spares);
    assert Spares(img, AllTiles(spares, live)) == StartSet(spares);
  }

  lemma BarCount(img: Image, spares: seq<Extent>, t: Trie, own: map<nat, Owner>, live: map<nat, nat>, hash: Bytes -> Hash)
    requires Canonical(spares, live, img.size) && ChainOK(img, spares) && TreeOK(img, t, own, live, hash) && img.size < TWO_64
    ensures |Bars(img, AllTiles(spares, live))| == |t.bars|
  {
    forall a ensures a in Bars(img, AllTiles(spares, live)) <==> a in ValuesOf(t.bars) {
      if a in live { LiveTile(img, t, own, live, hash, a); assert OwnerOK(img, t, live, a, own[a], hash); }
      if a in StartSet(spares) { SpareTile(img, spares, live, a); }
      if p :| p in t.bars && t.bars[p] == a { assert BarOwned(t, own, live, p); }
    }
    BarsInjective(t, own, live);
    InjectiveSize(t.bars);
    assert Bars(img, AllTiles(spares, live)) == ValuesOf(t.bars);
  }

  lemma KindsAddUp(img: Image, T: set<nat>)
    requires forall a :: a in T ==> a in img.blocks
    ensures var c := Census(img, T); c.spare + c.bar + c.data + c.dataEx == |T|
  {
    var s, b, d, x := Spares(img, T), Bars(img, T), Datas(img, T), DataExs(img, T);
    assert T == s + b + d + x;
    assert |s + b| == |s| + |b| && |s + b + d| == |s + b| + |d|;
  }

  lemma AllCount(img: Image, spares: seq<Extent>, t: Trie, own: map<nat, Owner>, live: map<nat, nat>, hash: Bytes -> Hash)
    requires Canonical(spares, live, img.size) && ChainOK(img, spares) && TreeOK(img, t, own, live, hash) && img.size < TWO_64
    ensures |AllTiles(spares, live)| == |live| + |spares|
  {
    forall a ensures a !in live || a !in StartSet(spares) {
      if a in live && a in StartSet(spares) {
        LiveTile(img, t, own, live, hash, a);
        SpareTile(img, spares, live, a);
      }
    }
    assert live.Keys !! StartSet(spares);
    StartSetSize(spares);
  }

  /** Exactly one plain data block, the last one, in every chain. */
  lemma TailCount(img: Image, spares: seq<Extent>, t: Trie, own: map<nat, Owner>, live: map<nat, nat>, hash: Bytes -> Hash)
    requires Canonical(spares, live, img.size) && ChainOK(img, spares) && TreeOK(img, t, own, live, hash) && img.size < TWO_64
    requires LeaksOf(own) == {}
    ensures |Datas(img, AllTiles(spares, live))| == |t.leaves|
  {
    forall a ensures a in Datas(img, AllTiles(spares, live)) <==> a in ValuesOf(Tails(t)) {
      if a in Datas(img, AllTiles(spares, live)) { DataIsTail(img, spares, t, own, live, hash, a); }
      if h :| h in Tails(t) && Tails(t)[h] == a { RecTile(img, t, own, live, hash, h, |t.leaves[h].recs| - 1); }
    }
    assert Datas(img, AllTiles(spares, live)) == ValuesOf(Tails(t));
    forall g, h | g in Tails(t) && h in Tails(t) && Tails(t)[g] == Tails(t)[h] ensures g == h {
      TailOwner(t, own, live, hash, img, g);
      TailOwner(t, own, live, hash, img, h);
    }
    InjectiveSize(Tails(t));
    assert Tails(t).Keys == t.leaves.Keys by {
      forall h | h in t.leaves ensures h in Tails(t) { assert LeafPath(t, hash, h); }
    }
  }

  lemma TailOwner(t: Trie, own: map<nat, Owner>, live: map<nat, nat>, hash: Bytes -> Hash, img: Image, h: Hash)
    requires TreeOK(img, t, own, live, hash) && h in Tails(t)
    ensures Tails(t)[h] in own && own[Tails(t)[h]].OwnRec? && hash(own[Tails(t)[h]].key) == h
  {
    var i: nat := |t.leaves[h].recs| - 1;
    assert LeafPath(t, hash, h) && RecOwned(own, live, t.leaves[h].recs, i);
  }

  lemma DataIsTail(img: Image, spares: seq<Extent>, t: Trie, own: map<nat, Owner>, live: map<nat, nat>, hash: Bytes -> Hash, a: nat)
    requires Canonical(spares, live, img.size) && ChainOK(img, spares) && TreeOK(img, t, own, live, hash) && img.size < TWO_64
    requires LeaksOf(own) == {} && a in Datas(img, AllTiles(spares, live))
    ensures a in ValuesOf(Tails(t))
  {
    if a in StartSet(spares) {
      SpareTile(img, spares, live, a);
    } else {
      LiveTile(img, t, own, live, hash, a);
      assert OwnerOK(img, t, live, a, own[a], hash);
      LeaksOfHas(own, a);
      if own[a].OwnRec? {
        var h := hash(own[a].key);
        var recs := t.leaves[h].recs;
        var i :| 0 <= i < |recs| && recs[i].key == own[a].key && recs[i].addr == a;
        RecTile(img, t, own, live, hash, h, i);
        assert h in Tails(t) && Tails(t)[h] == a;
      }
    }
  }

  /** The owners of records have different keys, which are those that are stored. */
  ghost function KeyOf(own: map<nat, Owner>): map<nat, Bytes> {
    map a | a in own && own[a].OwnRec? :: own[a].key
  }

  lemma KeysOwned(img: Image, t: Trie, own: map<nat, Owner>, live: map<nat, nat>, hash: Bytes -> Hash)
    requires TreeOK(img, t, own, live, hash)
    ensures ValuesOf(KeyOf(own)) == StoredKeys(ModelOf(t)) && Injective(KeyOf(own))
  {
    forall key ensures key in ValuesOf(KeyOf(own)) <==> key in StoredKeys(ModelOf(t)) {
      if a :| a in KeyOf(own) && KeyOf(own)[a] == key { KeyOwned(img, t, own, live, hash, a); }
      if h, i :| h in ModelOf(t) && 0 <= i < |ModelOf(t)[h]| && ModelOf(t)[h][i].key == key {
        assert RecOwned(own, live, t.leaves[h].recs, i);
        assert t.leaves[h].recs[i].addr in KeyOf(own);
      }
    }
    forall a, b | a in KeyOf(own) && b in KeyOf(own) && KeyOf(own)[a] == KeyOf(own)[b] ensures a == b {
      KeyOwned(img, t, own, live, hash, a);
      KeyOwned(img, t, own, live, hash, b);
    }
  }

  lemma KeyOwned(img: Image, t: Trie, own: map<nat, Owner>, live: map<nat, nat>, hash: Bytes -> Hash, a: nat)
    requires TreeOK(img, t, own, live, hash) && a in KeyOf(own)
    ensures var key := KeyOf(own)[a];
      && key in StoredKeys(ModelOf(t))
      && hash(key) in t.leaves && DistinctKeys(t.leaves[hash(key)].recs) && RecAt(t.leaves[hash(key)].recs, key, a)
  {
    var h := hash(KeyOf(own)[a]);
    assert OwnerOK(img, t, live, a, own[a], hash) && LeafPath(t, hash, h);
    var i :| 0 <= i < |t.leaves[h].recs| && t.leaves[h].recs[i].key == KeyOf(own)[a] && t.leaves[h].recs[i].addr == a;
    assert h in ModelOf(t) && ModelOf(t)[h][i].key == KeyOf(own)[a];
  }

  lemma OwnersByKind(img: Image, t: Trie, own: map<nat, Owner>, live: map<nat, nat>, hash: Bytes -> Hash)
    requires TreeOK(img, t, own, live, hash)
    ensures live.Keys == ValuesOf(t.bars) + KeyOf(own).Keys + LeaksOf(own)
    ensures ValuesOf(t.bars) !! KeyOf(own).Keys && ValuesOf(t.bars) + KeyOf(own).Keys !! LeaksOf(own)
  {
    forall a ensures a in ValuesOf(t.bars) <==> a in own && own[a].OwnBar? {
      if a in own { assert OwnerOK(img, t, live, a, own[a], hash); }
      if p :| p in t.bars && t.bars[p] == a { assert BarOwned(t, own, live, p); }
    }
  }

  lemma SumOfThree(a: set<nat>, b: set<nat>, c: set<nat>)
    requires a !! b && a + b !! c
    ensures |a + b + c| == |a| + |b| + |c|
  {
  }

  /** Every live extent is a bar, the record of one stored key, or a left-behind block. */
  lemma LiveCount(img: Image, t: Trie, own: map<nat, Owner>, live: map<nat, nat>, hash: Bytes -> Hash)
    requires TreeOK(img, t, own, live, hash)
    ensures |live| == |t.bars| + |StoredKeys(ModelOf(t))| + |LeaksOf(own)|
  {
    hide ValuesOf, KeyOf, LeaksOf, StoredKeys;
    OwnersByKind(img, t, own, live, hash);
    SumOfThree(ValuesOf(t.bars), KeyOf(own).Keys, LeaksOf(own));
    KeysOwned(img, t, own, live, hash);
    InjectiveSize(KeyOf(own));
    BarsInjective(t, own, live);
    InjectiveSize(t.bars);
    assert |live.Keys| == |live| && |KeyOf(own).Keys| == |KeyOf(own)|;
  }

  lemma BarsInjective(t: Trie, own: map<nat, Owner>, live: map<nat, nat>)
    requires forall p {:trigger BarOwned(t, own, live, p)} :: p in t.bars ==> BarOwned(t, own, live, p)
    ensures Injective(t.bars)
  {
    forall p, q | p in t.bars && q in t.bars && t.bars[p] == t.bars[q] ensures p == q {
      assert BarOwned(t, own, live, p) && BarOwned(t, own, live, q);
    }
  }

  /** The checker on a file that is tiled. */
  method CheckTiled(img: Image, ghost T: set<nat>) returns (r: Status, c: Counters, ghost tiles: seq<nat>)
    requires Tiled(img, T)
    ensures r == OK && Tiles(img, tiles, INFO_SIZE, img.size) && SetOf(tiles) == T && c == Census(img, T)
    ensures forall i, j :: 0 <= i < j < |tiles| ==> tiles[i] < tiles[j]
  {
    hide Tally, Census, Tiled;
    FirstBoundary(img, T);
    TiledEnds(img, T, INFO_SIZE);
    ghost var end;
    r, c, tiles, end := CheckTlv(img, img.size - INFO_SIZE);
    WalkTiles(img, T, tiles, INFO_SIZE, end);
    if end < img.size { TileStarts(img, T, end); }
    TallyIsCensus(img, tiles);
    TilesAll(img, T, tiles);
  }

  lemma FirstBoundary(img: Image, T: set<nat>)
    requires Tiled(img, T)
    ensures Boundary(img, T, INFO_SIZE) && INFO_SIZE <= img.size
  {
    forall a | a in T ensures INFO_SIZE <= a { assert TileOK(img, a); }
  }

  lemma TilesAll(img: Image, T: set<nat>, tiles: seq<nat>)
    requires Tiled(img, T) && forall a :: a in tiles <==> a in T && INFO_SIZE <= a < img.size
    ensures SetOf(tiles) == T
  {
    forall a | a in T ensures a in tiles { assert TileOK(img, a); }
  }

  lemma StoreCensus(img: Image, spares: seq<Extent>, t: Trie, own: map<nat, Owner>, live: map<nat, nat>, hash: Bytes -> Hash)
    requires Canonical(spares, live, img.size) && ChainOK(img, spares) && TreeOK(img, t, own, live, hash) && img.size < TWO_64
    ensures Tiled(img, AllTiles(spares, live))
    ensures var c := Census(img, AllTiles(spares, live));
      && c.spare == |spares| && c.bar == |t.bars|
      && c.data + c.dataEx == |StoredKeys(ModelOf(t))| + |LeaksOf(own)|
      && (LeaksOf(own) == {} ==> c.data == |ModelOf(t)|)
  {
    var T := AllTiles(spares, live);
    StoreTiled(img, spares, t, own, live, hash);
    forall a | a in T ensures a in img.blocks { assert TileOK(img, a); }
    SpareCount(img, spares, t, own, live, hash);
    BarCount(img, spares, t, own, live, hash);
    AllCount(img, spares, t, own, live, hash);
    KindsAddUp(img, T);
    LiveCount(img, t, own, live, hash);
    if LeaksOf(own) == {} {
      TailCount(img, spares, t, own, live, hash);
      assert ModelOf(t).Keys == t.leaves.Keys;
    }
  }

  /** The checker and the store agree: after any completed operation the walk accepts the file
      and ends exactly at its end, having met every tile once; it counts the free extents, the
      bars of the tree, and as many data blocks as there are stored keys and left-behind blocks.
      Without the latter the plain data blocks are the tails of the chains, one for each hash. */
  method CheckStore(store: Store) returns (r: Status, c: Counters, ghost tiles: seq<nat>)
    requires store.Valid() && store.vol.img.size < TWO_64
    ensures r == OK && Tiles(store.vol.img, tiles, INFO_SIZE, store.vol.img.size)
    ensures SetOf(tiles) == store.vol.live.Keys + StartSet(store.vol.spares)
    ensures forall i, j :: 0 <= i < j < |tiles| ==> tiles[i] < tiles[j]
    ensures c.spare == |store.vol.spares| && c.bar == |store.t.bars|
    ensures c.data + c.dataEx == |StoredKeys(store.Contents())| + |LeaksOf(store.own)|
    ensures LeaksOf(store.own) == {} ==> c.data == |store.Contents()|
  {
    StoreCensus(store.vol.img, store.vol.spares, store.t, store.own, store.vol.live, store.hash);
    r, c, tiles := CheckTiled(store.vol.img, AllTiles(store.vol.spares, store.vol.live));
  }
}
