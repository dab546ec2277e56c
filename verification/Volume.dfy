/** The free-space manager (src/spare.c, src/alloc.c, src/free.c): one file and the
    in-memory record of its free extents, changed step by step. */
module VolumeManager {
  import opened Layout
  import opened Extents
  import opened Coalesce
  import opened FreeProgram

  datatype Status = OK | NotFound | DataError | NoSpace | InternalError | BufferTooSmall

  /** Request lengths above this one wrap around in 32 bits on their way to the search. */
  const MAX_REQUEST: nat := TWO_32 - 36

  // ---------------------------------------------------------------- arithmetic of the source

  /** butter_spare_comp: a 64-bit difference cut down to a 32-bit signed int. */
  function SpareComp(a: nat, b: nat): int {
    var d := (a - b) % TWO_32;
    if d < TWO_31 then d else d - TWO_32
  }

  /** request_length rounded up in uint32_t: 32 at least, then to a multiple of 4. */
  function CeilLength(request: nat): nat {
    if request < DISK_SIZE_UNIT then DISK_SIZE_UNIT
    else ((request + 3) % TWO_32) / 4 * 4
  }

  /** The least length that may be split, in uint32_t. */
  function SplitableMin(length: nat): nat {
    (length + DISK_SIZE_UNIT) % TWO_32
  }

  /** The comparator orders all offsets below a bound exactly when the bound is at most 2^31. */
  lemma CompSound(bound: nat)
    ensures bound <= TWO_31 <==>
      forall a: nat, b: nat :: a < bound && b < bound ==>
        (SpareComp(a, b) < 0 <==> a < b) && (SpareComp(a, b) == 0 <==> a == b)
  {
    if TWO_31 < bound {
      assert SpareComp(TWO_31, 0) < 0;
      assert TWO_31 < bound && 0 < bound;
    }
  }

  lemma CeilFacts(request: nat)
    requires request <= MAX_REQUEST
    ensures request <= CeilLength(request) <= Max(request + 3, DISK_SIZE_UNIT)
    ensures DISK_SIZE_UNIT <= CeilLength(request) && CeilLength(request) % 4 == 0
    ensures SplitableMin(CeilLength(request)) == CeilLength(request) + DISK_SIZE_UNIT
  {
  }

  /** MAX_REQUEST is tight: rounding and the split limit are free of wrap-around exactly up to it. */
  lemma NoWrapIff(request: nat)
    requires request < TWO_32
    ensures request <= MAX_REQUEST <==>
      request <= CeilLength(request) && SplitableMin(CeilLength(request)) == CeilLength(request) + DISK_SIZE_UNIT
  {
  }

  /** The overflow test of the source: a 64-bit sum that is not above its second summand. */
  predicate Wraps64(a: nat, b: nat) {
    (a + b) % TWO_64 <= b
  }

  lemma WrapsOnlyPast64(a: nat, b: nat)
    requires 0 < a < TWO_64 && b < TWO_64
    ensures Wraps64(a, b) <==> a + b >= TWO_64
  {
  }

  /** Where RB_INSERT puts a start: before the first node that does not compare below it. */
  function SlotFor(s: seq<Extent>, start: nat): (i: nat)
    ensures i <= |s|
  {
    if s == [] then 0
    else if SpareComp(start, s[0].start) <= 0 then 0
    else 1 + SlotFor(s[1..], start)
  }

  /** The search order of the tree. */
  ghost predicate Ascending(s: seq<Extent>) {
    forall i, j :: 0 <= i < j < |s| ==> s[i].start < s[j].start
  }

  lemma {:induction false} SlotSplits(s: seq<Extent>, start: nat)
    requires Ascending(s) && start < TWO_31
    requires forall i :: 0 <= i < |s| ==> s[i].start < TWO_31
    ensures var i := SlotFor(s, start);
      && (forall j :: 0 <= j < i ==> s[j].start < start)
      && (forall j :: i <= j < |s| ==> start <= s[j].start)
  {
    if s != [] {
      CompSound(TWO_31);
      var tail := s[1..];
      assert forall j :: 0 <= j < |tail| ==> tail[j] == s[j + 1];
      if SpareComp(start, s[0].start) > 0 {
        SlotSplits(tail, start);
        var i := SlotFor(s, start);
        forall j | 0 <= j < i ensures s[j].start < start { if j > 0 { assert tail[j - 1] == s[j]; } }
        forall j | i <= j < |s| ensures start <= s[j].start { assert tail[j - 1] == s[j]; }
      } else {
        forall j | 0 <= j < |s| ensures start <= s[j].start { if j > 0 { assert s[0].start < s[j].start; } }
      }
    }
  }

  ghost function StartSet(s: seq<Extent>): set<nat> {
    set e | e in s :: e.start
  }

  /** On offsets below 2^31 an insertion fails exactly on a start that is already there, and
      otherwise adds the one node in order. */
  lemma InsertAscends(s: seq<Extent>, e: Extent)
    requires Ascending(s) && e.start < TWO_31
    requires forall i :: 0 <= i < |s| ==> s[i].start < TWO_31
    ensures InsertNode(s, e).None? <==> e.start in StartSet(s)
    ensures InsertNode(s, e).Some? ==>
      var s' := InsertNode(s, e).value;
      && Ascending(s') && StartSet(s') == StartSet(s) + {e.start}
      && multiset(s') == multiset(s) + multiset{e}
  {
    SlotSplits(s, e.start);
    CompSound(TWO_31);
    var i := SlotFor(s, e.start);
    if e.start in StartSet(s) {
      var x :| x in s && x.start == e.start;
      var j :| 0 <= j < |s| && s[j] == x;
      assert s[j].start == e.start;
    } else {
      if i < |s| { assert s[i] in s; }
      InsertBetween(s, e, i);
    }
  }

  lemma InsertBetween(s: seq<Extent>, e: Extent, i: nat)
    requires Ascending(s) && i <= |s|
    requires forall j :: 0 <= j < i ==> s[j].start < e.start
    requires forall j :: i <= j < |s| ==> e.start < s[j].start
    ensures var s' := s[..i] + [e] + s[i..];
      && Ascending(s') && StartSet(s') == StartSet(s) + {e.start}
      && multiset(s') == multiset(s) + multiset{e}
  {
    var s' := s[..i] + [e] + s[i..];
    assert s == s[..i] + s[i..];
    InsertedAscends(s, e, i);
    InsertedStarts(s, s', e);
  }

  lemma InsertedAscends(s: seq<Extent>, e: Extent, i: nat)
    requires Ascending(s) && i <= |s|
    requires forall j :: 0 <= j < i ==> s[j].start < e.start
    requires forall j :: i <= j < |s| ==> e.start < s[j].start
    ensures Ascending(s[..i] + [e] + s[i..])
    ensures forall x :: x in s[..i] + [e] + s[i..] <==> x in s || x == e
  {
  }

  lemma {:induction false} SlotPast(s: seq<Extent>, start: nat)
    requires start < TWO_31
    requires forall i :: 0 <= i < |s| ==> s[i].start < start
    ensures SlotFor(s, start) == |s|
  {
    if s != [] {
      CompSound(TWO_31);
      SlotPast(s[1..], start);
    }
  }

  lemma AppendNode(s: seq<Extent>, e: Extent)
    requires e.start < TWO_31
    requires forall i :: 0 <= i < |s| ==> s[i].start < e.start
    ensures InsertNode(s, e) == Some(s + [e])
  {
    SlotPast(s, e.start);
    assert s[..|s|] + [e] + s[|s|..] == s + [e];
  }

  lemma InsertedStarts(s: seq<Extent>, s': seq<Extent>, e: Extent)
    requires forall x :: x in s' <==> x in s || x == e
    ensures StartSet(s') == StartSet(s) + {e.start}
  {
  }

  predicate LoadedFrom(img: Image, e: Extent) {
    IsSpare(img, e.start) && img.blocks[e.start].length == e.length
  }

  /** The chain on disk is s, in a file short enough for the comparator. */
  ghost predicate LoadsAs(img: Image, s: seq<Extent>) {
    Separated(s) && ChainOK(img, s) && forall i :: 0 <= i < |s| ==> s[i].End() <= TWO_31
  }

  /** One round of the loading loop: read the block at l, insert it, and find the next one.
      None is a data error. */
  function LoadOne(img: Image, s: seq<Extent>, l: nat): Option<(seq<Extent>, nat)> {
    if !IsSpare(img, l) then None
    else
      var blk := img.blocks[l];
      if blk.length <= 0 || Wraps64(blk.length, l) then None
      else
        match InsertNode(s, Extent(l, blk.length))
        case None => None
        case Some(t) => Some((t, blk.next))
  }

  /** Every round that succeeds adds a start that is in the file and was not loaded before. */
  lemma LoadStep(img: Image, s: seq<Extent>, l: nat)
    requires LoadOne(img, s, l).Some? && Ascending(s)
    requires l < TWO_31 && forall i :: 0 <= i < |s| ==> s[i].start < TWO_31
    ensures var (t, next) := LoadOne(img, s, l).value;
      l in img.blocks && l !in StartSet(s) && StartSet(t) == StartSet(s) + {l} && Ascending(t)
  {
    InsertAscends(s, Extent(l, img.blocks[l].length));
  }

  ghost predicate LoadedPrefix(s: seq<Extent>, loaded: seq<Extent>, l: nat) {
    loaded <= s && l == StartOf(At(s, |loaded|))
  }

  lemma LoadNext(img: Image, s: seq<Extent>, loaded: seq<Extent>, l: nat)
    requires LoadsAs(img, s) && LoadedPrefix(s, loaded, l) && l != 0
    ensures LoadOne(img, loaded, l).Some?
    ensures var (t, next) := LoadOne(img, loaded, l).value; LoadedPrefix(s, t, next) && |t| == |loaded| + 1
  {
    var k := |loaded|;
    assert LinkAt(img, s, k, 0);
    var e := s[k];
    assert forall i :: 0 <= i < k ==> loaded[i] == s[i];
    OrderedAscends(s);
    WrapsOnlyPast64(e.length, l);
    AppendNode(loaded, e);
  }

  lemma LoadsLow(img: Image, s: seq<Extent>, loaded: seq<Extent>, l: nat)
    requires LoadsAs(img, s) && LoadedPrefix(s, loaded, l) && l != 0
    ensures l < TWO_31 && forall i :: 0 <= i < |loaded| ==> loaded[i].start < TWO_31
  {
    assert s[|loaded|].start == l;
    assert forall i :: 0 <= i < |loaded| ==> loaded[i] == s[i];
  }

  // ---------------------------------------------------------------- chains in good order or not

  /** A spare block that is not empty and does not wrap around. */
  predicate SpareOK(img: Image, a: nat) {
    a != 0 && IsSpare(img, a) && 0 < img.blocks[a].length && !Wraps64(img.blocks[a].length, a)
  }

  /** With a length that fits into its 64 bits it ends below 2^64. */
  lemma SpareOKIff(img: Image, a: nat)
    requires IsSpare(img, a) && img.blocks[a].length < TWO_64 && 0 < a < TWO_64
    ensures SpareOK(img, a) <==> 0 < img.blocks[a].length && a + img.blocks[a].length < TWO_64
  {
  }

  /** Following the links leads from one offset to another over the spare blocks at path. */
  ghost predicate Links(img: Image, from: nat, path: seq<nat>, to: nat)
    decreases |path|
  {
    if path == [] then from == to
    else path[0] == from && SpareOK(img, from) && Links(img, img.blocks[from].next, path[1..], to)
  }

  /** The links lead from the info block to the end mark, and to no place twice. */
  ghost predicate GoodChain(img: Image, path: seq<nat>) {
    Links(img, img.spareChain, path, 0) && forall i, j :: 0 <= i < j < |path| ==> path[i] != path[j]
  }

  lemma {:induction false} LinksPush(img: Image, from: nat, path: seq<nat>, to: nat)
    requires Links(img, from, path, to) && SpareOK(img, to)
    ensures Links(img, from, path + [to], img.blocks[to].next)
    decreases |path|
  {
    if path == [] {
      assert (path + [to])[1..] == [];
    } else {
      LinksPush(img, img.blocks[from].next, path[1..], to);
      assert (path + [to])[1..] == path[1..] + [to];
    }
  }

  /** There is one way to follow links. */
  lemma {:induction false} LinksUnique(img: Image, from: nat, path: seq<nat>, to: nat, all: seq<nat>)
    requires Links(img, from, path, to) && Links(img, from, all, 0)
    ensures path <= all
    ensures if to == 0 then path == all else |path| < |all| && all[|path|] == to && SpareOK(img, to)
    decreases |path|
  {
    if path == [] {
    } else {
      LinksUnique(img, img.blocks[from].next, path[1..], to, all[1..]);
      assert all == [from] + all[1..] && path == [from] + path[1..];
    }
  }

  /** A place that the links lead to twice is on no good chain: a cyclic chain is none. */
  lemma CycleIsBad(img: Image, path: seq<nat>, to: nat, all: seq<nat>)
    requires Links(img, img.spareChain, path, to) && to in path
    ensures !GoodChain(img, all)
  {
    if GoodChain(img, all) {
      LinksUnique(img, img.spareChain, path, to, all);
      var i :| 0 <= i < |path| && path[i] == to;
      LinkedAt(img, img.spareChain, path, to, i);
    }
  }

  lemma {:induction false} LinkedAt(img: Image, from: nat, path: seq<nat>, to: nat, i: nat)
    requires Links(img, from, path, to) && i < |path|
    ensures SpareOK(img, path[i])
    decreases |path|
  {
    if i > 0 { LinkedAt(img, img.blocks[from].next, path[1..], to, i - 1); }
  }

  /** All blocks stand below 2^31. */
  ghost predicate LowFile(img: Image) {
    forall a :: a in img.blocks ==> a < TWO_31
  }

  /** What the loading loop has done: it followed the links along path, and the tree holds those places. */
  ghost predicate Followed(img: Image, s: seq<Extent>, l: nat, path: seq<nat>) {
    && Links(img, img.spareChain, path, l) && (forall i, j :: 0 <= i < j < |path| ==> path[i] != path[j])
    && Ascending(s) && (forall a :: a in StartSet(s) <==> a in path) && forall e :: e in s ==> LoadedFrom(img, e)
  }

  /** One round follows one link; it fails exactly when no good chain goes on like this. */
  lemma FollowOne(img: Image, s: seq<Extent>, l: nat, path: seq<nat>)
    requires LowFile(img) && Followed(img, s, l, path) && l != 0
    ensures LoadOne(img, s, l).Some? ==> Followed(img, LoadOne(img, s, l).value.0, LoadOne(img, s, l).value.1, path + [l])
    ensures LoadOne(img, s, l).None? ==> forall all :: !GoodChain(img, all)
  {
    assert forall i :: 0 <= i < |s| ==> s[i] in s && LoadedFrom(img, s[i]);
    if IsSpare(img, l) {
      var e := Extent(l, img.blocks[l].length);
      InsertAscends(s, e);
      if LoadOne(img, s, l).Some? { FollowPush(img, s, l, path); }
    }
    if LoadOne(img, s, l).None? {
      forall all ensures !GoodChain(img, all) {
        if l in path { CycleIsBad(img, path, l, all); } else if GoodChain(img, all) { LinksUnique(img, img.spareChain, path, l, all); }
      }
    }
  }

  lemma LowStarts(img: Image, s: seq<Extent>, l: nat, path: seq<nat>)
    requires LowFile(img) && Followed(img, s, l, path)
    ensures Ascending(s) && forall i :: 0 <= i < |s| ==> s[i].start < TWO_31
  {
    assert forall i :: 0 <= i < |s| ==> s[i] in s && LoadedFrom(img, s[i]);
  }

  lemma FollowPush(img: Image, s: seq<Extent>, l: nat, path: seq<nat>)
    requires Followed(img, s, l, path) && SpareOK(img, l) && l < TWO_31 && forall i :: 0 <= i < |s| ==> s[i].start < TWO_31
    requires InsertNode(s, Extent(l, img.blocks[l].length)).Some?
    ensures Followed(img, InsertNode(s, Extent(l, img.blocks[l].length)).value, img.blocks[l].next, path + [l])
  {
    var e := Extent(l, img.blocks[l].length);
    InsertAscends(s, e);
    LinksPush(img, img.spareChain, path, l);
    var t := InsertNode(s, e).value;
    forall x | x in t ensures x in s || x == e { assert x in multiset(t); }
  }

  /** A block that is its own successor. */
  lemma SelfLoopIsBad(img: Image, path: seq<nat>)
    requires img.spareChain == 32 && 32 in img.blocks && img.blocks[32] == Spare(32, 32)
    ensures !GoodChain(img, path)
  {
    assert Links(img, 32, [], 32);
    LinksPush(img, 32, [], 32);
    CycleIsBad(img, [32], 32, path);
  }

  /** RB_INSERT: None when a node compares equal. */
  function InsertNode(s: seq<Extent>, e: Extent): Option<seq<Extent>> {
    var i := SlotFor(s, e.start);
    if i < |s| && SpareComp(e.start, s[i].start) == 0 then None
    else Some(s[..i] + [e] + s[i..])
  }

  lemma OrderedAscends(s: seq<Extent>)
    requires Ordered(s)
    ensures Ascending(s)
  {
  }

  /** A freed extent finds its place between the free extents on its two sides. */
  lemma FreeSlot(img: Image, s: seq<Extent>, live: map<nat, nat>, e: Extent)
    requires Canonical(s, live, img.size) && ChainOK(img, s) && img.size <= TWO_31
    requires e.start in live && live[e.start] == e.length
    ensures var i := SlotFor(s, e.start);
      && InsertNode(s, e) == Some(s[..i] + [e] + s[i..])
      && Ready(s[..i], e, s[i..], img, live)
  {
    OrderedAscends(s);
    SlotSplits(s, e.start);
    CompSound(TWO_31);
    var i := SlotFor(s, e.start);
    assert s == s[..i] + s[i..];
    forall j | 0 <= j < |s| ensures s[j].End() <= e.start || e.End() <= s[j].start {
      FreeApart(s, live, img.size, j);
    }
    forall j | 0 <= j < i ensures s[..i][j].End() <= e.start {
      assert s[j].start < e.start;
    }
    forall j | 0 <= j < |s[i..]| ensures e.End() <= s[i..][j].start {
      assert s[i + j].start >= e.start;
    }
  }

  ghost predicate LongEnough(live: map<nat, nat>) {
    forall a :: a in live ==> DISK_SIZE_UNIT <= live[a]
  }

  /** The program runs to its end from st, leaves the live blocks alone, and makes free
      space canonical for the extents that stay live. */
  ghost predicate Compiled(ops: Program, st: State, live: map<nat, nat>, dbSize: nat) {
    var out := Run(ops, 0, st);
    && out.Done? && HeadersFree(st.spares, live) && CutsBehind(ops, live) && LongEnough(live)
    && Canonical(out.st.spares, live, out.st.img.size) && ChainOK(out.st.img, out.st.spares)
    && out.st.img.size <= dbSize
  }

  lemma CompileFree(img: Image, A: seq<Extent>, e: Extent, B: seq<Extent>, live: map<nat, nat>)
    requires Ready(A, e, B, img, live)
    ensures Compiled(SetActions(ContextOf(A, e, B, img.size)), State(img, A + [e] + B), live - {e.start}, img.size)
  {
    FreeRuns(A, e, B, img, live);
    FreeCanonical(A, e, B, live, img.size);
    ProgramCutsBehind(A, e, B, live, img.size);
    JoinSeparated(A, e, B, live, img.size);
    HeadersOfFreed(A, e, B, img, live);
  }

  /** The neighbours of the node at index i, as RB_PREV and RB_NEXT find them. */
  function ContextAt(s: seq<Extent>, i: nat, dbSize: nat): FreeCtx
    requires i < |s|
  {
    var k: int := i;
    FreeCtx(At(s, k - 2), At(s, k - 1), s[i], At(s, k + 1), At(s, k + 2), dbSize)
  }

  lemma PrepareFree(img: Image, s: seq<Extent>, live: map<nat, nat>, e: Extent)
    requires Canonical(s, live, img.size) && ChainOK(img, s) && img.size <= TWO_31
    requires e.start in live && live[e.start] == e.length
    ensures var i := SlotFor(s, e.start);
      var s' := s[..i] + [e] + s[i..];
      InsertNode(s, e) == Some(s') && Compiled(SetActions(ContextAt(s', i, img.size)), State(img, s'), live - {e.start}, img.size)
  {
    FreeSlot(img, s, live, e);
    var i := SlotFor(s, e.start);
    CompileFree(img, s[..i], e, s[i..], live);
    ContextSplit(s[..i], e, s[i..], img.size);
  }

  lemma ContextSplit(A: seq<Extent>, e: Extent, B: seq<Extent>, dbSize: nat)
    ensures ContextAt(A + [e] + B, |A|, dbSize) == ContextOf(A, e, B, dbSize)
  {
  }

  lemma HeadersOfFreed(A: seq<Extent>, e: Extent, B: seq<Extent>, img: Image, live: map<nat, nat>)
    requires Ready(A, e, B, img, live)
    ensures HeadersFree(A + [e] + B, live - {e.start})
  {
    HeadersOfCanonical(A + B, live, img.size);
    assert forall x :: x in A + [e] + B ==> x in A + B || x == e;
    forall a | a in live && a != e.start ensures Apart(e.start, SPARE_SIZE, a, live[a]) {
      assert Apart(e.start, live[e.start], a, live[a]);
    }
  }

  // ---------------------------------------------------------------- where an allocation goes

  ghost predicate HasExact(s: seq<Extent>, length: nat) {
    exists i :: 0 <= i < |s| && s[i].length == length
  }

  ghost predicate HasLarger(s: seq<Extent>, length: nat) {
    exists i :: 0 <= i < |s| && s[i].length >= length + DISK_SIZE_UNIT
  }

  /** Exact match first, then the tail of the first large enough extent, then the end of the file. */
  ghost predicate PlacedAt(s: seq<Extent>, length: nat, size: nat, start: nat) {
    if HasExact(s, length) then
      exists i :: 0 <= i < |s| && s[i].length == length && start == s[i].start
        && forall j :: 0 <= j < i ==> s[j].length != length
    else if HasLarger(s, length) then
      exists i :: 0 <= i < |s| && s[i].length >= length + DISK_SIZE_UNIT && start == s[i].End() - length
        && forall j :: 0 <= j < i ==> s[j].length < length + DISK_SIZE_UNIT
    else start == size
  }

  /** Where a spare is used, it is inside the file. */
  lemma PlacedInside(s: seq<Extent>, live: map<nat, nat>, size: nat, length: nat, start: nat)
    requires Canonical(s, live, size) && PlacedAt(s, length, size, start)
    ensures start <= size && (HasExact(s, length) || HasLarger(s, length) <==> start < size)
    ensures start < size ==> start + length <= size
  {
    assert forall i :: 0 <= i < |s| ==> s[i].End() <= size;
  }

  // ---------------------------------------------------------------- writes of the callers

  /** Writing inside a live extent leaves free space and every other live block alone. */
  lemma WriteInside(img: Image, s: seq<Extent>, live: map<nat, nat>, end: nat, owner: nat, a: nat, n: nat)
    requires Canonical(s, live, end) && ChainOK(img, s)
    requires owner in live && owner <= a && a + n <= owner + live[owner]
    ensures ChainOK(Clobber(img, a, n), s) && Keeps(img, Clobber(img, a, n), live - {owner})
  {
    forall i | 0 <= i < |s| && s[i].start in img.blocks
      ensures s[i].start in Clobber(img, a, n).blocks && Clobber(img, a, n).blocks[s[i].start] == img.blocks[s[i].start]
    {
      FreeApart(s, live, end, i);
      assert LinkAt(img, s, i, 0);
    }
    ChainFrame(img, Clobber(img, a, n), s);
    forall x | x in live && x != owner ensures Apart(x, live[x], a, n) { assert Apart(owner, live[owner], x, live[x]); }
  }

  lemma PutInside(img: Image, s: seq<Extent>, live: map<nat, nat>, end: nat, a: nat, b: Block)
    requires Canonical(s, live, end) && ChainOK(img, s) && a in live && Written(b) <= live[a]
    ensures ChainOK(Put(img, a, b), s) && Keeps(img, Put(img, a, b), live - {a})
  {
    WriteInside(img, s, live, end, a, a, Written(b));
    PokeInside(Clobber(img, a, Written(b)), s, live, end, a, b);
    KeepsTrans(img, Clobber(img, a, Written(b)), Put(img, a, b), live - {a});
  }

  function Total(pieces: seq<nat>): nat {
    if pieces == [] then 0 else pieces[0] + Total(pieces[1..])
  }

  lemma TwoPieces(a: nat, b: nat)
    ensures Total([a]) == a && Total([a, b]) == a + b
  {
    assert [a, b][1..] == [b] && [b][1..] == [] && [a][1..] == [];
    assert Total([b]) == b;
  }

  /** Changing a block inside its live extent, likewise. */
  lemma PokeInside(img: Image, s: seq<Extent>, live: map<nat, nat>, end: nat, a: nat, b: Block)
    requires Canonical(s, live, end) && ChainOK(img, s) && a in live
    ensures var img' := img.(blocks := img.blocks[a := b]); ChainOK(img', s) && Keeps(img, img', live - {a})
  {
    var img' := img.(blocks := img.blocks[a := b]);
    forall i | 0 <= i < |s| ensures s[i].start != a { FreeApart(s, live, end, i); }
    ChainFrame(img, img', s);
  }

  // ---------------------------------------------------------------- images between writes

  /** Since `from`, every image the file went through kept the live blocks of img. */
  ghost predicate Logged(log: seq<Image>, from: nat, img: Image, live: map<nat, nat>) {
    from <= |log| && forall i :: from <= i < |log| ==> Keeps(img, log[i], live)
  }

  lemma KeepsSelf(img: Image, live: map<nat, nat>)
    ensures Keeps(img, img, live)
  {
  }

  lemma KeepsTrans(a: Image, b: Image, c: Image, live: map<nat, nat>)
    requires Keeps(a, b, live) && Keeps(b, c, live)
    ensures Keeps(a, c, live)
  {
    forall x ensures KeptAt(a, c, live, x) { assert KeptAt(a, b, live, x) && KeptAt(b, c, live, x); }
  }

  /** The image and every image since `from` kept the live blocks of img0. */
  ghost predicate Progress(img0: Image, from: nat, img: Image, log: seq<Image>, live: map<nat, nat>) {
    Keeps(img0, img, live) && Logged(log, from, img0, live)
  }

  lemma Advance(img0: Image, from: nat, img: Image, log: seq<Image>, live: map<nat, nat>, next: Image)
    requires Progress(img0, from, img, log, live) && Keeps(img, next, live)
    ensures Progress(img0, from, next, log + [next], live)
  {
    KeepsTrans(img0, img, next, live);
  }

  ghost predicate Sub(live: map<nat, nat>, live': map<nat, nat>) {
    forall a {:trigger a in live, a in live'} :: a in live ==> a in live' && live'[a] == live[a]
  }

  lemma KeepsSub(img: Image, img': Image, live: map<nat, nat>, live': map<nat, nat>)
    requires Keeps(img, img', live') && Sub(live, live')
    ensures Keeps(img, img', live)
  {
    forall a ensures KeptAt(img, img', live, a) { assert KeptAt(img, img', live', a); }
  }

  /** Progress in two parts, the second one with at least the extents of the first. */
  lemma ProgressOn(img0: Image, from: nat, img1: Image, log1: seq<Image>, live0: map<nat, nat>,
                   img2: Image, log2: seq<Image>, live1: map<nat, nat>)
    requires Progress(img0, from, img1, log1, live0)
    requires log1 <= log2 && Progress(img1, |log1|, img2, log2, live1) && Sub(live0, live1)
    ensures Progress(img0, from, img2, log2, live0)
  {
    KeepsSub(img1, img2, live0, live1);
    KeepsTrans(img0, img1, img2, live0);
    forall i | from <= i < |log2| ensures Keeps(img0, log2[i], live0) {
      if i < |log1| {
        assert log2[i] == log1[i];
      } else {
        KeepsSub(img1, log2[i], live0, live1);
        KeepsTrans(img0, img1, log2[i], live0);
      }
    }
  }

  lemma AddRemove(live: map<nat, nat>, a: nat, n: nat)
    requires a !in live
    ensures live[a := n] - {a} == live && Sub(live, live[a := n])
  {
  }

  lemma HeadersOfCanonical(s: seq<Extent>, live: map<nat, nat>, end: nat)
    requires Canonical(s, live, end)
    ensures HeadersFree(s, live)
  {
    forall e, a | e in s && a in live ensures Apart(e.start, SPARE_SIZE, a, live[a]) {
      var i :| 0 <= i < |s| && s[i] == e;
      FreeApart(s, live, end, i);
    }
  }

  // ---------------------------------------------------------------- the write of an allocation

  predicate DownReady(img: Image, prev: Node, changed: Node) {
    if changed.Some? then IsSpare(img, changed.value.start)
    else prev.Some? ==> IsSpare(img, prev.value.start)
  }

  /** The length of the shortened spare, or the link around the spare that went. */
  function DownWritten(img: Image, prev: Node, changed: Node, next: Node): Image
    requires DownReady(img, prev, changed)
  {
    if changed.Some? then SetSpareLength(img, changed.value.start, changed.value.length)
    else if prev.Some? then SetSpareNext(img, prev.value.start, StartOf(next))
    else img.(spareChain := StartOf(next))
  }

  /** After the write the tree, the chain and the live extents agree again. */
  ghost predicate Allocated(img: Image, s: seq<Extent>, live: map<nat, nat>, img': Image, s': seq<Extent>, start: nat, length: nat) {
    && start !in live && start + length <= img.size == img'.size
    && Canonical(s', live[start := length], img.size) && ChainOK(img', s')
    && Keeps(img, img', live)
  }

  /** The extent at index k, or its tail, was taken out of s, leaving s'; prev, changed and next
      tell the writer what to bring in line on disk. */
  ghost predicate TakenOut(s: seq<Extent>, k: nat, s': seq<Extent>, start: nat, length: nat, prev: Node, changed: Node, next: Node) {
    && k < |s|
    && (changed.None? ==>
         && s[k] == Extent(start, length) && s' == s[..k] + s[k + 1..]
         && prev == At(s, k - 1) && next == At(s, k + 1))
    && (changed.Some? ==>
         && s[k].length >= length + DISK_SIZE_UNIT && start == s[k].End() - length
         && changed == Some(Extent(s[k].start, s[k].length - length))
         && prev.None? && next.None? && s' == s[k := changed.value])
  }

  lemma AllocTail(img: Image, s: seq<Extent>, live: map<nat, nat>, s': seq<Extent>, start: nat, length: nat, k: nat, rest: Extent)
    requires Canonical(s, live, img.size) && ChainOK(img, s) && k < |s|
    requires DISK_SIZE_UNIT <= length && length + DISK_SIZE_UNIT <= s[k].length
    requires rest == Extent(s[k].start, s[k].length - length) && start == rest.End() && s' == s[k := rest]
    ensures DownReady(img, None, Some(rest))
    ensures Allocated(img, s, live, DownWritten(img, None, Some(rest), None), s', start, length)
  {
    HeadersOfCanonical(s, live, img.size);
    TakeTail(s, live, img.size, k, length);
    ShrinkChain(img, s, k, s[k].length - length);
    assert s[k] in s;
  }

  lemma ExactChain(img: Image, s: seq<Extent>, k: nat)
    requires Separated(s) && ChainOK(img, s) && k < |s|
    ensures DownReady(img, At(s, k - 1), None)
    ensures ChainOK(DownWritten(img, At(s, k - 1), None, At(s, k + 1)), s[..k] + s[k + 1..])
  {
    var A, B := s[..k], s[k + 1..];
    assert s == A + [s[k]] + B;
    UnlinkChain(img, A, s[k], B);
    assert At(s, k + 1) == At(B, 0);
    assert WithLink(img, A, StartOf(At(B, 0))) == DownWritten(img, At(s, k - 1), None, At(s, k + 1));
  }

  lemma AllocExact(img: Image, s: seq<Extent>, live: map<nat, nat>, s': seq<Extent>, start: nat, length: nat, k: nat)
    requires Canonical(s, live, img.size) && ChainOK(img, s) && k < |s|
    requires s[k] == Extent(start, length) && s' == s[..k] + s[k + 1..]
    ensures DownReady(img, At(s, k - 1), None)
    ensures Allocated(img, s, live, DownWritten(img, At(s, k - 1), None, At(s, k + 1)), s', start, length)
  {
    TakeExact(s, live, img.size, k);
    ExactChain(img, s, k);
    HeadersOfCanonical(s, live, img.size);
    if k > 0 { assert s[k - 1] in s; }
  }

  class Volume {
    var img: Image
    var spares: seq<Extent>
    ghost var live: map<nat, nat>
    ghost var log: seq<Image>

    /** Free space is canonical up to `end`, in memory and on disk. */
    ghost predicate Sound(end: nat)
      reads this
    {
      Canonical(spares, live, end) && ChainOK(img, spares)
    }

    ghost predicate Valid()
      reads this
    {
      Sound(img.size)
    }

    /** A new database file. */
    constructor ()
      ensures Valid() && img == EMPTY_IMAGE && spares == [] && live == map[] && log == []
    {
      img := EMPTY_IMAGE;
      spares := [];
      live := map[];
      log := [];
    }

    /** butter_load_spare_chain: read the chain into an empty tree. It rebuilds any chain of a
        sound volume. On any file with all blocks below 2^31, cyclic chains included, it ends, and
        it succeeds exactly if following the links comes to the end mark over spare blocks in
        order and to no block twice; the tree then holds exactly those. */
    method LoadSpareChain(ghost s: seq<Extent>) returns (r: Status, ghost path: seq<nat>)
      requires LoadsAs(img, s) || LowFile(img)
      modifies `spares
      ensures r == OK || r == DataError
      ensures LoadsAs(img, s) ==> r == OK && spares == s
      ensures LowFile(img) ==> (r == OK <==> exists all :: GoodChain(img, all))
      ensures LowFile(img) && r == OK ==> GoodChain(img, path) && Followed(img, spares, 0, path)
    {
      spares, path := [], [];
      var l: nat := img.spareChain;
      while l != 0
        invariant LoadsAs(img, s) ==> LoadedPrefix(s, spares, l)
        invariant LowFile(img) ==> Followed(img, spares, l, path)
        decreases if LoadsAs(img, s) then |s| - |spares| else 0, img.blocks.Keys - StartSet(spares)
      {
        if LoadsAs(img, s) { LoadNext(img, s, spares, l); }
        if LowFile(img) {
          LowStarts(img, spares, l, path);
          FollowOne(img, spares, l, path);
        }
        var loaded := LoadOne(img, spares, l);
        if loaded.None? { return DataError, path; }
        if LowFile(img) { LoadStep(img, spares, l); }
        spares, l, path := loaded.value.0, loaded.value.1, path + [l];
      }
      r := OK;
      assert LowFile(img) ==> GoodChain(img, path);
    }

    /** butter_get_spare: changes the tree only; None means nothing fits. */
    method GetSpare(length: nat) returns (found: bool, start: nat, prev: Node, changed: Node, next: Node, ghost k: nat)
      requires SplitableMin(length) == length + DISK_SIZE_UNIT
      modifies `spares
      ensures PlacedAt(old(spares), length, img.size, if found then start else img.size)
      ensures !found ==> spares == old(spares)
      ensures found ==> TakenOut(old(spares), k, spares, start, length, prev, changed, next)
    {
      var splitable := SplitableMin(length);
      var avail: nat, full: nat, i: nat := |spares|, |spares|, 0;
      k := 0;
      while i < |spares|
        invariant i <= |spares| && full == |spares| && avail <= |spares|
        invariant forall j :: 0 <= j < i ==> spares[j].length != length
        invariant avail < |spares| ==> avail < i && spares[avail].length >= splitable
        invariant forall j :: 0 <= j < i && j < avail ==> spares[j].length < splitable
      {
        if spares[i].length == length {
          full := i;
          break;
        } else if spares[i].length >= splitable && avail == |spares| {
          avail := i;
        }
        i := i + 1;
      }
      assert HasExact(spares, length) <==> full < |spares|;
      assert full == |spares| ==> (HasLarger(spares, length) <==> avail < |spares|);
      if full < |spares| {
        found, start, k := true, spares[full].start, full;
        prev, changed, next := At(spares, full - 1), None, At(spares, full + 1);
        spares := spares[..full] + spares[full + 1..];
      } else if avail < |spares| {
        var rest := Extent(spares[avail].start, spares[avail].length - length);
        found, start, k := true, rest.End(), avail;
        prev, changed, next := None, Some(rest), None;
        spares := spares[avail := rest];
      } else {
        found, start, prev, changed, next := false, 0, None, None, None;
      }
    }

    /** One write of the file. */
    method Commit(next: Image)
      modifies `img, `log
      ensures img == next && log == old(log) + [next]
    {
      img := next;
      log := log + [next];
    }

    /** butter_pt_alloc_write_down: one write brings the chain on disk in line with the tree,
        out of which an extent was taken, and leaves every live block alone. */
    method WriteDown(prev: Node, changed: Node, next: Node, ghost s: seq<Extent>, ghost k: nat, ghost start: nat, ghost length: nat)
      requires Canonical(s, live, img.size) && ChainOK(img, s) && DISK_SIZE_UNIT <= length
      requires TakenOut(s, k, spares, start, length, prev, changed, next)
      modifies `img, `log
      ensures Allocated(old(img), s, live, img, spares, start, length) && log == old(log) + [img]
    {
      if changed.Some? {
        AllocTail(img, s, live, spares, start, length, k, changed.value);
        Commit(SetSpareLength(img, changed.value.start, changed.value.length));
      } else {
        AllocExact(img, s, live, spares, start, length, k);
        if prev.Some? {
          Commit(SetSpareNext(img, prev.value.start, StartOf(next)));
        } else {
          Commit(img.(spareChain := StartOf(next)));
        }
      }
    }

    /** The part of butter_alloc_space that reuses a spare extent. */
    method AllocFromSpare(length: nat) returns (found: bool, start: nat)
      requires Valid() && DISK_SIZE_UNIT <= length && SplitableMin(length) == length + DISK_SIZE_UNIT
      modifies this
      ensures !found ==> unchanged(this)
      ensures PlacedAt(old(spares), length, img.size, if found then start else img.size)
      ensures found ==>
        && Allocated(old(img), old(spares), old(live), img, spares, start, length)
        && live == old(live)[start := length] && log == old(log) + [img]
    {
      var prev, changed, next;
      ghost var k;
      found, start, prev, changed, next, k := GetSpare(length);
      if found {
        WriteDown(prev, changed, next, old(spares), k, start, length);
        live := live[start := length];
      }
    }

    /** butter_alloc_space. An allocation at the end of the file does not grow the file
        yet: the writes of the caller do. */
    method AllocSpace(request: nat) returns (r: Status, start: nat, length: nat, atEnd: bool)
      requires Valid() && request <= MAX_REQUEST
      modifies this
      ensures length == CeilLength(request)
      ensures r == OK || r == NoSpace
      ensures img.size + length < TWO_64 ==> r == OK
      ensures r == NoSpace ==> unchanged(this)
      ensures img.size < TWO_64 ==>
        (r == NoSpace <==> !HasExact(old(spares), length) && !HasLarger(old(spares), length) && img.size + length >= TWO_64)
      ensures img.size == old(img.size)
      ensures r == OK ==>
        && PlacedAt(old(spares), length, img.size, start)
        && start !in old(live) && live == old(live)[start := length]
        && Sound(if atEnd then start + length else img.size)
        && (atEnd ==> start == img.size && img == old(img))
        && (!atEnd ==> start + length <= img.size)
        && old(log) <= log && Progress(old(img), |old(log)|, img, log, old(live))
    {
      length := CeilLength(request);
      CeilFacts(request);
      if img.size < TWO_64 { WrapsOnlyPast64(length, img.size); }
      var found;
      found, start := AllocFromSpare(length);
      if found {
        r, atEnd := OK, false;
      } else {
        start, atEnd := img.size, true;
        if Wraps64(length, img.size) {
          r := NoSpace;
        } else {
          TakeEnd(spares, live, img.size, length);
          live := live[start := length];
          r := OK;
        }
      }
    }

    /** butter_add_spare_prepare: put the extent into the tree and compile the free. */
    method AddSparePrepare(start: nat, length: nat, dbSize: nat) returns (ops: Program)
      requires Valid() && img.size == dbSize <= TWO_31
      requires start in live && live[start] == length
      modifies `spares
      ensures Compiled(ops, State(img, spares), live - {start}, dbSize)
    {
      var cur := Extent(start, length);
      PrepareFree(img, spares, live, cur);
      var i := SlotFor(spares, start);
      spares := spares[..i] + [cur] + spares[i..];
      ops := SetActions(ContextAt(spares, i, dbSize));
    }

    /** The execution loop of butter_free_space. */
    method Execute(ops: Program, ghost keep: map<nat, nat>) returns (r: Status)
      requires Run(ops, 0, State(img, spares)).Done?
      requires HeadersFree(spares, keep) && CutsBehind(ops, keep) && LongEnough(keep)
      modifies `img, `spares, `log
      ensures r == OK
      ensures Done(State(img, spares)) == Run(ops, 0, State(old(img), old(spares)))
      ensures old(log) <= log && Progress(old(img), |old(log)|, img, log, keep)
    {
      r := InternalError;
      var ip := 0;
      while ip < SFOP_MAX_CNT
        invariant ip <= SFOP_MAX_CNT
        invariant Run(ops, ip, State(img, spares)) == Run(ops, 0, State(old(img), old(spares)))
        invariant HeadersFree(spares, keep)
        invariant old(log) <= log && Progress(old(img), |old(log)|, img, log, keep)
      {
        if ops[ip].End? {
          r := OK;
          break;
        }
        ExecKeeps(ops[ip], State(img, spares), keep);
        var out := Exec(ops[ip], State(img, spares));
        Advance(old(img), |old(log)|, img, log, keep, out.st.img);
        Commit(out.st.img);
        spares := out.st.spares;
        ip := ip + 1;
      }
    }

    /** butter_free_space. */
    method FreeSpace(start: nat, length: nat) returns (r: Status)
      requires Valid() && img.size <= TWO_31
      requires start in live && live[start] == length
      modifies this
      ensures r == OK && Valid()
      ensures live == old(live) - {start}
      ensures img.size <= old(img.size)
      ensures old(log) <= log && Progress(old(img), |old(log)|, img, log, live)
    {
      var dbSize := img.size;
      var ops := AddSparePrepare(start, length, dbSize);
      live := live - {start};
      r := Execute(ops, live);
    }

    /** The writes that fill a new extent, in pieces up to `request` bytes, and the padding
        byte when the extent is the new end of the file. The block can be read once its last
        piece is written. */
    method FillExtent(start: nat, length: nat, atEnd: bool, blk: Block, pieces: seq<nat>)
      requires Sound(if atEnd then start + length else img.size)
      requires start in live && live[start] == length
      requires if atEnd then start == img.size else start + length <= img.size
      requires 0 < Written(blk) <= length && Total(pieces) <= Written(blk)
      modifies `img, `log
      ensures Valid() && img.size == if atEnd then start + length else old(img.size)
      ensures start in img.blocks && img.blocks[start] == blk
      ensures old(log) <= log && Progress(old(img), |old(log)|, img, log, live - {start})
    {
      hide Canonical, ChainOK, Keeps;
      ghost var end := if atEnd then start + length else img.size;
      ghost var others := live - {start};
      KeepsSelf(img, others);
      var done: nat, i: nat := 0, 0;
      while i < |pieces|
        invariant i <= |pieces| && done + Total(pieces[i..]) <= Written(blk)
        invariant Sound(end) && old(img.size) <= img.size <= Max(old(img.size), start + done)
        invariant old(log) <= log && Progress(old(img), |old(log)|, img, log, others)
      {
        assert pieces[i..][1..] == pieces[i + 1..];
        WritePiece(start, start + done, pieces[i], |old(log)|, old(img), end);
        done, i := done + pieces[i], i + 1;
      }
      PutInside(img, spares, live, end, start, blk);
      Advance(old(img), |old(log)|, img, log, others, Put(img, start, blk));
      Commit(Put(img, start, blk));
      if atEnd && length > Written(blk) {
        WritePiece(start, start + length - 1, 1, |old(log)|, old(img), end);
      }
    }

    /** Some bytes of a live extent. */
    method WritePiece(start: nat, at: nat, n: nat, ghost from: nat, ghost img0: Image, ghost end: nat)
      requires Sound(end) && start in live && start <= at && at + n <= start + live[start]
      requires Progress(img0, from, img, log, live - {start})
      modifies `img, `log
      ensures Sound(end) && img == Clobber(old(img), at, n) && log == old(log) + [img]
      ensures Progress(img0, from, img, log, live - {start})
    {
      WriteInside(img, spares, live, end, start, at, n);
      Advance(img0, from, img, log, live - {start}, Clobber(img, at, n));
      Commit(Clobber(img, at, n));
    }

    /** Allocate an extent and fill it with the block that goes with its length. */
    method AllocAndFill(request: nat, blk: nat -> Block, pieces: seq<nat>) returns (r: Status, start: nat, length: nat)
      requires Valid() && 0 < request <= MAX_REQUEST && img.size + CeilLength(request) < TWO_64
      requires Total(pieces) <= request && forall n :: Written(blk(n)) == request
      modifies this
      ensures r == OK && Valid() && length == CeilLength(request)
      ensures start >= INFO_SIZE && start !in old(live) && live == old(live)[start := length]
      ensures start in img.blocks && img.blocks[start] == blk(length)
      ensures PlacedAt(old(spares), length, old(img.size), start)
      ensures img.size == Max(old(img.size), start + length) <= old(img.size) + length
      ensures HasExact(old(spares), length) || HasLarger(old(spares), length) <==> img.size == old(img.size)
      ensures old(log) <= log && Progress(old(img), |old(log)|, img, log, old(live))
    {
      CeilFacts(request);
      var atEnd;
      r, start, length, atEnd := AllocSpace(request);
      PlacedInside(old(spares), old(live), old(img.size), length, start);
      ghost var img1, log1 := img, log;
      FillExtent(start, length, atEnd, blk(length), pieces);
      AddRemove(old(live), start, length);
      ProgressOn(old(img), |old(log)|, img1, log1, old(live), img, log, old(live));
    }
  }
}
