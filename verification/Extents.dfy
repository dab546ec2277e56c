/** Free extents and live extents of the file, and what it means for the free ones to
    be canonical: exactly the maximal gaps between the live ones. */
module Extents {
  import opened Layout

  /** An entry of the in-memory spare tree (butter_spare_t). */
  datatype Extent = Extent(start: nat, length: nat) {
    function End(): nat { start + length }
    predicate Has(x: nat) { start <= x < End() }
  }

  /** Ascending, no overlap; neighbours may touch. */
  ghost predicate Ordered(s: seq<Extent>) {
    && (forall i :: 0 <= i < |s| ==> DISK_SIZE_UNIT <= s[i].length && INFO_SIZE <= s[i].start)
    && (forall i, j :: 0 <= i < j < |s| ==> s[i].End() <= s[j].start)
  }

  /** Ascending with a gap between neighbours: nothing left to coalesce. */
  ghost predicate Separated(s: seq<Extent>) {
    && (forall i :: 0 <= i < |s| ==> DISK_SIZE_UNIT <= s[i].length && INFO_SIZE <= s[i].start)
    && (forall i, j :: 0 <= i < j < |s| ==> s[i].End() < s[j].start)
  }

  ghost predicate InFree(s: seq<Extent>, x: nat) {
    exists i :: 0 <= i < |s| && s[i].Has(x)
  }

  ghost predicate InLive(live: map<nat, nat>, x: nat) {
    exists a :: a in live && a <= x < a + live[a]
  }

  /** Live extents (start to length) lie between the info block and end, and do not overlap. */
  ghost predicate LiveOK(live: map<nat, nat>, end: nat) {
    && INFO_SIZE <= end
    && (forall a :: a in live ==> INFO_SIZE <= a && DISK_SIZE_UNIT <= live[a] && a + live[a] <= end)
    && (forall a, b {:trigger Apart(a, live[a], b, live[b])} ::
         a in live && b in live && a != b ==> Apart(a, live[a], b, live[b]))
  }

  /** Every byte after the info block belongs to exactly one free or live extent. */
  ghost predicate Partition(s: seq<Extent>, live: map<nat, nat>, end: nat) {
    && (forall i :: 0 <= i < |s| ==> s[i].End() <= end)
    && (forall x: nat :: INFO_SIZE <= x < end ==> (InFree(s, x) <==> !InLive(live, x)))
  }

  /** The free extents are exactly the maximal gaps between live extents, and the file
      ends where the last live extent ends. */
  ghost predicate Canonical(s: seq<Extent>, live: map<nat, nat>, end: nat) {
    && Separated(s)
    && LiveOK(live, end)
    && Partition(s, live, end)
    && (end == INFO_SIZE || InLive(live, end - 1))
  }

  // ---------------------------------------------------------------- uniqueness

  lemma InFreeTail(s: seq<Extent>, x: nat)
    requires Separated(s) && |s| > 0
    ensures InFree(s[1..], x) <==> InFree(s, x) && s[0].End() <= x
  {
  }

  lemma SameHead(s: seq<Extent>, t: seq<Extent>)
    requires Separated(s) && Separated(t) && |s| > 0 && |t| > 0
    requires forall x: nat :: InFree(s, x) <==> InFree(t, x)
    ensures s[0].start == t[0].start && s[0].length <= t[0].length
  {
    assert s[0].Has(s[0].start) && t[0].Has(t[0].start);
    assert InFree(t, s[0].start) && InFree(s, t[0].start);
    if t[0].End() < s[0].End() {
      assert s[0].Has(t[0].End());
      assert InFree(s, t[0].End());
    }
  }

  lemma HeadCovered(s: seq<Extent>)
    requires Separated(s)
    ensures |s| > 0 ==> InFree(s, s[0].start)
  {
  }

  /** Separated sequences are determined by the bytes they cover. */
  lemma {:induction false} SameCover(s: seq<Extent>, t: seq<Extent>)
    requires Separated(s) && Separated(t)
    requires forall x: nat :: InFree(s, x) <==> InFree(t, x)
    ensures s == t
  {
    HeadCovered(s);
    HeadCovered(t);
    if |s| > 0 && |t| > 0 {
      SameHead(s, t);
      SameHead(t, s);
      forall x ensures InFree(s[1..], x) <==> InFree(t[1..], x) {
        InFreeTail(s, x);
        InFreeTail(t, x);
      }
      SameCover(s[1..], t[1..]);
      assert s == [s[0]] + s[1..] && t == [t[0]] + t[1..];
    }
  }

  /** The free extents and the size of the file depend on the live extents alone, not on
      the order of the operations that led there. */
  lemma CanonicalUnique(s: seq<Extent>, e: nat, t: seq<Extent>, f: nat, live: map<nat, nat>)
    requires Canonical(s, live, e) && Canonical(t, live, f)
    ensures s == t && e == f
  {
    assert e == f;
    forall x: nat ensures InFree(s, x) <==> InFree(t, x) {
      assert InFree(s, x) ==> INFO_SIZE <= x < e;
      assert InFree(t, x) ==> INFO_SIZE <= x < f;
    }
    SameCover(s, t);
  }

  /** With nothing live the file is the info block. */
  lemma CanonicalEmpty(s: seq<Extent>, end: nat)
    requires Canonical(s, map[], end)
    ensures s == [] && end == INFO_SIZE
  {
    assert !InLive(map[], end - 1);
    assert |s| > 0 ==> s[0].End() <= INFO_SIZE;
  }

  // ---------------------------------------------------------------- covering pieces

  lemma InFreeConcat(a: seq<Extent>, b: seq<Extent>, x: nat)
    ensures InFree(a + b, x) <==> InFree(a, x) || InFree(b, x)
  {
    if InFree(a, x) {
      var i :| 0 <= i < |a| && a[i].Has(x);
      assert (a + b)[i].Has(x);
    }
    if InFree(b, x) {
      var i :| 0 <= i < |b| && b[i].Has(x);
      assert (a + b)[|a| + i].Has(x);
    }
    if InFree(a + b, x) {
      var i :| 0 <= i < |a + b| && (a + b)[i].Has(x);
      if i < |a| { assert a[i].Has(x); } else { assert b[i - |a|].Has(x); }
    }
  }

  lemma InFreeOne(e: Extent, x: nat)
    ensures InFree([e], x) <==> e.Has(x)
  {
    if e.Has(x) { assert [e][0].Has(x); }
  }

  lemma InLiveAdd(live: map<nat, nat>, a: nat, n: nat, x: nat)
    requires a !in live
    ensures InLive(live[a := n], x) <==> InLive(live, x) || a <= x < a + n
  {
    var live' := live[a := n];
    if a <= x < a + n { assert a in live' && a <= x < a + live'[a]; }
    if InLive(live, x) {
      var b :| b in live && b <= x < b + live[b];
      assert b in live' && b <= x < b + live'[b];
    }
  }

  lemma InLiveRemove(live: map<nat, nat>, a: nat, end: nat, x: nat)
    requires LiveOK(live, end) && a in live
    ensures InLive(live - {a}, x) <==> InLive(live, x) && !(a <= x < a + live[a])
  {
    var live' := live - {a};
    if InLive(live', x) {
      var b :| b in live' && b <= x < b + live'[b];
      assert Apart(a, live[a], b, live[b]);
      assert b in live && b <= x < b + live[b];
    }
    if InLive(live, x) && !(a <= x < a + live[a]) {
      var b :| b in live && b <= x < b + live[b];
      assert b in live' && b <= x < b + live'[b];
    }
  }
}
