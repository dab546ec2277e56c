/** What allocating and freeing do to canonical free space (src/spare.c), on values. */
module Coalesce {
  import opened Layout
  import opened Extents

  // ---------------------------------------------------------------- allocation

  /** An exact match is taken out of the free extents. */
  lemma TakeExact(s: seq<Extent>, live: map<nat, nat>, end: nat, i: nat)
    requires Canonical(s, live, end) && i < |s|
    ensures s[i].start !in live
    ensures Canonical(s[..i] + s[i + 1..], live[s[i].start := s[i].length], end)
  {
    var e := s[i];
    FreeApart(s, live, end, i);
    var live' := live[e.start := e.length];
    forall x: nat | INFO_SIZE <= x < end
      ensures InFree(s[..i] + s[i + 1..], x) <==> !InLive(live', x)
    {
      TakeOut(s, i, x);
      InLiveAdd(live, e.start, e.length, x);
    }
    if end != INFO_SIZE { InLiveAdd(live, e.start, e.length, end - 1); }
  }

  /** The tail of a larger free extent is split off. */
  lemma TakeTail(s: seq<Extent>, live: map<nat, nat>, end: nat, i: nat, length: nat)
    requires Canonical(s, live, end) && i < |s|
    requires DISK_SIZE_UNIT <= length && length + DISK_SIZE_UNIT <= s[i].length
    ensures s[i].End() - length !in live
    ensures Canonical(s[i := Extent(s[i].start, s[i].length - length)], live[s[i].End() - length := length], end)
  {
    var e := s[i];
    FreeApart(s, live, end, i);
    var a := e.End() - length;
    assert a in live ==> Apart(e.start, e.length, a, live[a]);
    var s', live' := s[i := Extent(e.start, e.length - length)], live[a := length];
    forall x: nat | INFO_SIZE <= x < end ensures InFree(s', x) <==> !InLive(live', x) {
      TailByte(s, live, end, i, length, x);
    }
    if end != INFO_SIZE { InLiveAdd(live, a, length, end - 1); }
    forall b | b in live ensures Apart(a, length, b, live[b]) && Apart(b, live[b], a, length) {
      assert Apart(e.start, e.length, b, live[b]);
    }
  }

  lemma TailByte(s: seq<Extent>, live: map<nat, nat>, end: nat, i: nat, length: nat, x: nat)
    requires Ordered(s) && Partition(s, live, end) && i < |s| && INFO_SIZE <= x < end
    requires DISK_SIZE_UNIT <= length && length + DISK_SIZE_UNIT <= s[i].length
    requires s[i].End() - length !in live
    ensures InFree(s[i := Extent(s[i].start, s[i].length - length)], x) <==> !InLive(live[s[i].End() - length := length], x)
  {
    var e := s[i];
    var s' := s[i := Extent(e.start, e.length - length)];
    InLiveAdd(live, e.End() - length, length, x);
    TakeOut(s, i, x);
    TakeOut(s', i, x);
    assert s'[..i] + s'[i + 1..] == s[..i] + s[i + 1..];
    assert e.Has(x) ==> InFree(s, x);
    assert s'[i].Has(x) ==> InFree(s', x);
  }

  /** Nothing fits: the file grows at its end. */
  lemma TakeEnd(s: seq<Extent>, live: map<nat, nat>, end: nat, length: nat)
    requires Canonical(s, live, end) && DISK_SIZE_UNIT <= length
    ensures end !in live
    ensures Canonical(s, live[end := length], end + length)
  {
    forall x: nat | INFO_SIZE <= x < end + length
      ensures InFree(s, x) <==> !InLive(live[end := length], x)
    {
      InLiveAdd(live, end, length, x);
    }
    InLiveAdd(live, end, length, end + length - 1);
  }

  /** A free extent shares no byte with a live one. */
  lemma FreeApart(s: seq<Extent>, live: map<nat, nat>, end: nat, i: nat)
    requires Ordered(s) && LiveOK(live, end) && Partition(s, live, end) && i < |s|
    ensures forall a :: a in live ==> Apart(s[i].start, s[i].length, a, live[a])
  {
    forall a | a in live ensures Apart(s[i].start, s[i].length, a, live[a]) {
      var x := Max(s[i].start, a);
      if s[i].Has(x) && a <= x < a + live[a] {
        assert InFree(s, x) && InLive(live, x);
      }
    }
  }

  lemma TakeOut(s: seq<Extent>, i: nat, x: nat)
    requires Ordered(s) && i < |s|
    ensures InFree(s[..i] + s[i + 1..], x) <==> InFree(s, x) && !s[i].Has(x)
  {
    var before, after := s[..i], s[i + 1..];
    InFreeConcat(before, after, x);
    assert s == before + [s[i]] + after;
    ThreePieces(Cut(before, s[i], after), x);
    if s[i].Has(x) {
      assert forall j :: 0 <= j < |before| ==> !before[j].Has(x);
      assert forall j :: 0 <= j < |after| ==> after[j] == s[i + 1 + j] && !after[j].Has(x);
    }
  }

  // ---------------------------------------------------------------- freeing

  /** The free extents around a freed one, after joining it with what it touches. */
  datatype Cut = Cut(before: seq<Extent>, hole: Extent, after: seq<Extent>)

  function JoinLeft(A: seq<Extent>, e: Extent): (seq<Extent>, Extent) {
    if |A| > 0 && A[|A| - 1].End() == e.start
    then (A[..|A| - 1], Extent(A[|A| - 1].start, A[|A| - 1].length + e.length))
    else (A, e)
  }

  function JoinRight(e: Extent, B: seq<Extent>): (Extent, seq<Extent>) {
    if |B| > 0 && e.End() == B[0].start
    then (Extent(e.start, e.length + B[0].length), B[1..])
    else (e, B)
  }

  function Join(A: seq<Extent>, e: Extent, B: seq<Extent>): Cut {
    var l := JoinLeft(A, e);
    var r := JoinRight(l.1, B);
    Cut(l.0, r.0, r.1)
  }

  /** A and B are the free extents on the two sides of the live extent e. */
  ghost predicate Around(A: seq<Extent>, e: Extent, B: seq<Extent>, live: map<nat, nat>, end: nat) {
    && Canonical(A + B, live, end)
    && e.start in live && live[e.start] == e.length
    && (forall i :: 0 <= i < |A| ==> A[i].End() <= e.start)
    && (forall i :: 0 <= i < |B| ==> e.End() <= B[i].start)
  }

  lemma AroundParts(A: seq<Extent>, e: Extent, B: seq<Extent>, live: map<nat, nat>, end: nat)
    requires Around(A, e, B, live, end)
    ensures Separated(A) && Separated(B)
    ensures forall i :: 0 <= i < |B| ==> B[i].End() <= end
    ensures forall i, j :: 0 <= i < |A| && 0 <= j < |B| ==> A[i].End() < B[j].start
  {
    var s := A + B;
    assert forall i :: 0 <= i < |A| ==> s[i] == A[i];
    assert forall j :: 0 <= j < |B| ==> s[|A| + j] == B[j];
    forall i, j | 0 <= i < j < |B| ensures B[i].End() < B[j].start {
      assert s[|A| + i].End() < s[|A| + j].start;
    }
    forall i, j | 0 <= i < |A| && 0 <= j < |B| ensures A[i].End() < B[j].start {
      assert s[i].End() < s[|A| + j].start;
    }
  }

  lemma JoinSeparated(A: seq<Extent>, e: Extent, B: seq<Extent>, live: map<nat, nat>, end: nat)
    requires Around(A, e, B, live, end)
    ensures var c := Join(A, e, B);
      Separated(c.before + [c.hole] + c.after) && c.hole.End() <= end
      && (c.hole.End() == end ==> c.after == [])
      && forall i :: 0 <= i < |c.after| ==> c.after[i].End() <= end
  {
    AroundParts(A, e, B, live, end);
    var c := Join(A, e, B);
    assert e.End() <= end;
    JoinBelow(A, e, B, end);
    JoinGaps(A, e, B);
    Glue(c.before, c.hole, c.after);
    hide Around, Join;
    if c.after != [] { assert c.after[0].End() <= end; }
  }

  lemma JoinBelow(A: seq<Extent>, e: Extent, B: seq<Extent>, end: nat)
    requires e.start + e.length <= end && forall i :: 0 <= i < |B| ==> B[i].End() <= end
    ensures var c := Join(A, e, B); c.hole.End() <= end && forall i :: 0 <= i < |c.after| ==> c.after[i].End() <= end
  {
  }

  lemma JoinGaps(A: seq<Extent>, e: Extent, B: seq<Extent>)
    requires Separated(A) && Separated(B) && DISK_SIZE_UNIT <= e.length && INFO_SIZE <= e.start
    requires forall i :: 0 <= i < |A| ==> A[i].End() <= e.start
    requires forall i :: 0 <= i < |B| ==> e.End() <= B[i].start
    ensures var c := Join(A, e, B);
      && Separated(c.before) && Separated(c.after)
      && DISK_SIZE_UNIT <= c.hole.length && INFO_SIZE <= c.hole.start
      && (forall i :: 0 <= i < |c.before| ==> c.before[i].End() < c.hole.start)
      && (forall i :: 0 <= i < |c.after| ==> c.hole.End() < c.after[i].start)
  {
  }

  lemma Glue(b: seq<Extent>, h: Extent, a: seq<Extent>)
    requires Separated(b) && Separated(a)
    requires DISK_SIZE_UNIT <= h.length && INFO_SIZE <= h.start
    requires forall i :: 0 <= i < |b| ==> b[i].End() < h.start
    requires forall i :: 0 <= i < |a| ==> h.End() < a[i].start
    ensures Separated(b + [h] + a)
  {
  }

  lemma JoinCovers(A: seq<Extent>, e: Extent, B: seq<Extent>, live: map<nat, nat>, end: nat, x: nat)
    requires Around(A, e, B, live, end)
    ensures var c := Join(A, e, B);
      InFree(A + B, x) || e.Has(x) <==> InFree(c.before, x) || c.hole.Has(x) || InFree(c.after, x)
  {
    AroundParts(A, e, B, live, end);
    InFreeConcat(A, B, x);
    var l := JoinLeft(A, e);
    var r := JoinRight(l.1, B);
    if l.0 != A {
      assert A == l.0 + [A[|A| - 1]];
      InFreeConcat(l.0, [A[|A| - 1]], x);
      InFreeOne(A[|A| - 1], x);
    }
    if r.1 != B {
      assert B == [B[0]] + r.1;
      InFreeConcat([B[0]], r.1, x);
      InFreeOne(B[0], x);
    }
  }

  /** Freeing a live extent and joining it with the free extents it touches is canonical
      again: with the hole kept when something live follows, with the file cut at the hole
      when nothing does. */
  lemma FreeCanonical(A: seq<Extent>, e: Extent, B: seq<Extent>, live: map<nat, nat>, end: nat)
    requires Around(A, e, B, live, end)
    ensures var c := Join(A, e, B);
      if c.hole.End() == end
      then c.after == [] && Canonical(c.before, live - {e.start}, c.hole.start)
      else Canonical(c.before + [c.hole] + c.after, live - {e.start}, end)
  {
    AroundParts(A, e, B, live, end);
    JoinSeparated(A, e, B, live, end);
    var c := Join(A, e, B);
    var live' := live - {e.start};
    forall x: nat ensures
      InFree(c.before, x) || c.hole.Has(x) || InFree(c.after, x) <==> InFree(A + B, x) || e.Has(x)
    { JoinCovers(A, e, B, live, end, x); }
    forall x: nat ensures InLive(live', x) <==> InLive(live, x) && !e.Has(x) {
      InLiveRemove(live, e.start, end, x);
    }
    if c.hole.End() == end {
      CutAtHole(A, e, B, live, end, c, live');
    } else {
      var s := c.before + [c.hole] + c.after;
      forall x: nat | INFO_SIZE <= x < end ensures InFree(s, x) <==> !InLive(live', x) {
        ThreePieces(c, x);
      }
      TailLives(A, e, B, live, end, c);
    }
  }

  lemma ThreePieces(c: Cut, x: nat)
    ensures InFree(c.before + [c.hole] + c.after, x) <==> InFree(c.before, x) || c.hole.Has(x) || InFree(c.after, x)
  {
    InFreeConcat(c.before + [c.hole], c.after, x);
    InFreeConcat(c.before, [c.hole], x);
    InFreeOne(c.hole, x);
  }

  lemma TailLives(A: seq<Extent>, e: Extent, B: seq<Extent>, live: map<nat, nat>, end: nat, c: Cut)
    requires Around(A, e, B, live, end) && c == Join(A, e, B) && c.hole.End() != end
    ensures !e.Has(end - 1)
  {
    AroundParts(A, e, B, live, end);
  }

  lemma CutAtHole(A: seq<Extent>, e: Extent, B: seq<Extent>, live: map<nat, nat>, end: nat, c: Cut, live': map<nat, nat>)
    requires Around(A, e, B, live, end) && c == Join(A, e, B) && live' == live - {e.start}
    requires c.hole.End() == end && c.after == []
    requires Separated(c.before + [c.hole] + c.after)
    requires forall x: nat :: InFree(c.before, x) || c.hole.Has(x) || InFree(c.after, x) <==> InFree(A + B, x) || e.Has(x)
    requires forall x: nat :: InLive(live', x) <==> InLive(live, x) && !e.Has(x)
    ensures Canonical(c.before, live', c.hole.start)
  {
    var s := c.before + [c.hole] + c.after;
    assert s[|c.before|] == c.hole;
    forall i | 0 <= i < |c.before| ensures c.before[i].End() < c.hole.start { assert s[i] == c.before[i]; }
    assert Separated(c.before) by {
      assert forall i :: 0 <= i < |c.before| ==> s[i] == c.before[i];
    }
    forall x: nat | INFO_SIZE <= x < c.hole.start ensures InFree(c.before, x) <==> !InLive(live', x) {
      assert INFO_SIZE <= x < end;
      assert !c.hole.Has(x);
    }
    forall a | a in live' ensures a + live'[a] <= c.hole.start {
      if a + live'[a] > c.hole.start {
        var x := a + live'[a] - 1;
        assert a in live' && a <= x < a + live'[a];
        assert InLive(live', x) && c.hole.Has(x);
      }
    }
    if c.hole.start != INFO_SIZE {
      var x := c.hole.start - 1;
      assert !InFree(c.before, x);
    }
  }
}
