/** Laws of the free-space manager that span several operations. */
module VolumeLaws {
  import opened Layout
  import opened Extents
  import opened FreeProgram
  import opened VolumeManager

  /** Same size, same free extents in memory, and the same list of spare blocks on disk. */
  ghost predicate SameSpace(img: Image, s: seq<Extent>, img': Image, s': seq<Extent>) {
    && img'.size == img.size && s' == s && img'.spareChain == img.spareChain
    && forall e :: e in s ==>
         e.start in img.blocks && e.start in img'.blocks && img'.blocks[e.start] == img.blocks[e.start]
  }

  /** The live extents alone determine the size of the file, the free extents, and the chain
      on disk block by block: no order of operations shows. */
  lemma SpaceUnique(img: Image, s: seq<Extent>, img': Image, s': seq<Extent>, live: map<nat, nat>)
    requires Canonical(s, live, img.size) && ChainOK(img, s)
    requires Canonical(s', live, img'.size) && ChainOK(img', s')
    ensures SameSpace(img, s, img', s')
  {
    CanonicalUnique(s, img.size, s', img'.size, live);
    forall e | e in s
      ensures e.start in img.blocks && e.start in img'.blocks && img'.blocks[e.start] == img.blocks[e.start]
    {
      var i :| 0 <= i < |s| && s[i] == e;
      assert LinkAt(img, s, i, 0) && LinkAt(img', s, i, 0);
    }
  }

  /** Allocate, fill, and free again: the size of the file, the free extents and the chain on
      disk are as before, whether the extent came from an exact match, the tail of a larger
      spare or the end of the file. */
  method AllocAndFree(vol: Volume, request: nat, blk: nat -> Block) returns (r: Status)
    requires vol.Valid() && 0 < request <= MAX_REQUEST && vol.img.size + CeilLength(request) <= TWO_31
    requires forall n :: Written(blk(n)) == request
    modifies vol
    ensures r == OK && vol.Valid() && vol.live == old(vol.live)
    ensures SameSpace(old(vol.img), old(vol.spares), vol.img, vol.spares)
    ensures Keeps(old(vol.img), vol.img, old(vol.live))
  {
    var start, length;
    ghost var img0, log0, live0 := vol.img, vol.log, vol.live;
    r, start, length := vol.AllocAndFill(request, blk, []);
    ghost var img1, log1 := vol.img, vol.log;
    AddRemove(live0, start, length);
    r := vol.FreeSpace(start, length);
    ProgressOn(img0, |log0|, img1, log1, live0, vol.img, vol.log, live0);
    SpaceUnique(img0, old(vol.spares), vol.img, vol.spares, live0);
  }

  /** Live extents, each at most once. */
  ghost predicate ToFree(es: seq<Extent>, live: map<nat, nat>) {
    && (forall i :: 0 <= i < |es| ==> es[i].start in live && live[es[i].start] == es[i].length)
    && (forall i, j :: 0 <= i < j < |es| ==> es[i].start != es[j].start)
  }

  ghost function StartsOf(es: seq<Extent>): set<nat> {
    set i | 0 <= i < |es| :: es[i].start
  }

  /** Free a list of extents. Freeing everything leaves the info block. */
  method FreeAll(vol: Volume, es: seq<Extent>) returns (r: Status)
    requires vol.Valid() && vol.img.size <= TWO_31 && ToFree(es, vol.live)
    modifies vol
    ensures r == OK && vol.Valid() && vol.live == old(vol.live) - StartsOf(es)
    ensures vol.live == map[] ==> vol.spares == [] && vol.img.size == INFO_SIZE && vol.img.spareChain == 0
  {
    r := OK;
    assert StartsOf(es[..0]) == {};
    for i := 0 to |es|
      invariant r == OK && vol.Valid() && vol.img.size <= TWO_31
      invariant vol.live == old(vol.live) - StartsOf(es[..i])
    {
      assert StartsOf(es[..i + 1]) == StartsOf(es[..i]) + {es[i].start};
      assert es[i].start !in StartsOf(es[..i]);
      r := vol.FreeSpace(es[i].start, es[i].length);
    }
    assert es[..|es|] == es;
    if vol.live == map[] { CanonicalEmpty(vol.spares, vol.img.size); }
  }

  /** Two volumes with the same live extents that free the same ones of them, each in its own
      order, end with the same file size, free extents and chain. */
  method FreeInAnyOrder(vol: Volume, es: seq<Extent>, vol': Volume, es': seq<Extent>)
    requires vol != vol' && vol.Valid() && vol'.Valid() && vol.live == vol'.live
    requires vol.img.size <= TWO_31 && ToFree(es, vol.live) && ToFree(es', vol.live) && StartsOf(es) == StartsOf(es')
    modifies vol, vol'
    ensures vol.Valid() && vol'.Valid() && SameSpace(vol.img, vol.spares, vol'.img, vol'.spares)
  {
    CanonicalUnique(vol.spares, vol.img.size, vol'.spares, vol'.img.size, vol.live);
    var r := FreeAll(vol, es);
    var r' := FreeAll(vol', es');
    SpaceUnique(vol.img, vol.spares, vol'.img, vol'.spares, vol.live);
  }

  /** Reading the chain of a file back rebuilds the tree that the last operation left, whatever
      that operation was. */
  method Reload(vol: Volume) returns (r: Status)
    requires vol.Valid() && vol.img.size <= TWO_31
    modifies vol`spares
    ensures r == OK && vol.spares == old(vol.spares) && vol.Valid()
  {
    ghost var path;
    r, path := vol.LoadSpareChain(vol.spares);
  }

  /** A hole is used again: of two extents the first is freed, and one of its length takes its place. */
  method ReuseHole(blk: nat -> Block) returns (vol: Volume, a: nat, b: nat, c: nat)
    requires forall n :: Written(blk(n)) == 24
    ensures fresh(vol) && vol.Valid() && a == 32 && b == 64 && c == 32
    ensures vol.img.size == 96 && vol.spares == []
  {
    hide Canonical, ChainOK, Progress, Keeps, PlacedAt, HasExact, HasLarger;
    var r, length;
    vol := new Volume();
    NoneFits(32, 32);
    r, a, length := vol.AllocAndFill(24, blk, []);
    OneLive(vol.spares, vol.live, vol.img.size);
    NoneFits(32, 64);
    r, b, length := vol.AllocAndFill(24, blk, []);
    assert vol.live == map[32 := 32, 64 := 32];
    r := vol.FreeSpace(32, 32);
    assert vol.live == map[64 := 32];
    OneHole(vol.spares, vol.live, vol.img.size);
    HoleFits();
    r, c, length := vol.AllocAndFill(24, blk, []);
    assert vol.live == map[32 := 32, 64 := 32];
    NoHole(vol.spares, vol.live, vol.img.size);
  }

  lemma NoneFits(length: nat, size: nat)
    ensures forall start: nat :: PlacedAt([], length, size, start) ==> start == size
  {
  }

  lemma HoleFits()
    ensures forall start: nat :: PlacedAt([Extent(32, 32)], 32, 96, start) ==> start == 32
  {
    assert [Extent(32, 32)][0].length == 32;
  }

  lemma OneLive(s: seq<Extent>, live: map<nat, nat>, size: nat)
    requires Canonical(s, live, size) && live == map[32 := 32]
    ensures s == [] && size == 64
  {
    forall x: nat | 32 <= x < 64 ensures InLive(live, x) { assert 32 in live && 32 <= x < 32 + live[32]; }
    CanonicalUnique(s, size, [], 64, live);
  }

  lemma OneHole(s: seq<Extent>, live: map<nat, nat>, size: nat)
    requires Canonical(s, live, size) && live == map[64 := 32]
    ensures s == [Extent(32, 32)] && size == 96
  {
    var hole := [Extent(32, 32)];
    forall x: nat | 32 <= x < 96 ensures InFree(hole, x) <==> !InLive(live, x) {
      if x < 64 { assert hole[0].Has(x); } else { assert 64 in live && 64 <= x < 64 + live[64]; }
    }
    assert 64 in live && 64 <= 95 < 64 + live[64] && InLive(live, 95);
    CanonicalUnique(s, size, [Extent(32, 32)], 96, live);
  }

  lemma NoHole(s: seq<Extent>, live: map<nat, nat>, size: nat)
    requires Canonical(s, live, size) && live == map[32 := 32, 64 := 32]
    ensures s == [] && size == 96
  {
    forall x: nat | 32 <= x < 96 ensures InLive(live, x) {
      var a := if x < 64 then 32 else 64;
      assert a in live && a <= x < a + live[a];
    }
    CanonicalUnique(s, size, [], 96, live);
  }
}
