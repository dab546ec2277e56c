/** The enumeration of all records (src/enum.c): a depth-first traversal with a stack that
    only grows and 8-bit cursors into the bars on it. */
module Enumeration {
  import opened Layout
  import opened FreeProgram
  import opened VolumeManager
  import opened TrieShape
  import opened StoreModel
  import opened TrieOrder
  import opened StoreManager

  // ---------------------------------------------------------------- the machine

  /** Between two loads: where to load from, the bars loaded so far with their cursors, and the
      records handed to the callback. */
  datatype Cursor = Cursor(loc: nat, bars: seq<Slots>, next: seq<Byte>, out: seq<KV>)
  datatype Trace = More(c: Cursor) | Finished(status: Status, out: seq<KV>)

  /** First slot in use from i on; SLOTS when there is none. */
  function FirstUsed(jump: Slots, i: nat): (k: nat)
    requires i <= SLOTS
    ensures i <= k <= SLOTS && (k < SLOTS ==> jump[k] != 0)
    ensures forall j :: i <= j < k ==> jump[j] == 0
    decreases SLOTS - i
  {
    if i == SLOTS || jump[i] != 0 then i else FirstUsed(jump, i + 1)
  }

  /** The search for the next slot: from the last bar loaded down to the first one. */
  function NextSlot(bars: seq<Slots>, next: seq<Byte>, level: int): (r: Option<(nat, Byte)>)
    requires |bars| == |next| && -1 <= level < |bars|
    ensures r.Some? ==> r.value.0 <= level && r.value.1 == FirstUsed(bars[r.value.0], next[r.value.0])
    ensures r.Some? ==> forall l :: r.value.0 < l <= level ==> FirstUsed(bars[l], next[l]) == SLOTS
    ensures r.None? ==> forall l :: 0 <= l <= level ==> FirstUsed(bars[l], next[l]) == SLOTS
    decreases level + 1
  {
    if level < 0 then None
    else if FirstUsed(bars[level], next[level]) < SLOTS then Some((level, FirstUsed(bars[level], next[level])))
    else NextSlot(bars, next, level - 1)
  }

  /** The cursor behind slot i, kept in eight bits. */
  function Behind(i: Byte): Byte {
    (i + 1) % 256
  }

  predicate Paired(r: Trace) {
    r.More? ==> |r.c.bars| == |r.c.next|
  }

  function OutOf(r: Trace): seq<KV> {
    if r.More? then r.c.out else r.out
  }

  function Seek(bars: seq<Slots>, next: seq<Byte>, out: seq<KV>): (r: Trace)
    requires |bars| == |next|
    ensures Paired(r) && OutOf(r) == out
  {
    match NextSlot(bars, next, |bars| - 1)
    case None => Finished(OK, out)
    case Some((level, i)) => More(Cursor(bars[level][i], bars, next[level := Behind(i)], out))
  }

  /** Load one block and find the next one to load. */
  function Step(img: Image, quit: KV -> bool, c: Cursor): (r: Trace)
    requires |c.bars| == |c.next|
    ensures Paired(r)
  {
    if c.loc !in img.blocks then Finished(DataError, c.out)
    else match img.blocks[c.loc]
      case Spare(_, _) => Finished(DataError, c.out)
      case Bar(_, jump) =>
        if |c.bars| + 1 > HASH_LENGTH then Finished(DataError, c.out)
        else Seek(c.bars + [jump], c.next + [0], c.out)
      case Data(_, key, value) =>
        var out := c.out + [KV(key, value)];
        if quit(KV(key, value)) then Finished(OK, out) else Seek(c.bars, c.next, out)
      case DataEx(_, next, key, value) =>
        var out := c.out + [KV(key, value)];
        if quit(KV(key, value)) then Finished(OK, out)
        else if next != 0 then More(c.(loc := next, out := out))
        else Seek(c.bars, c.next, out)
  }

  function Begin(img: Image): (r: Trace)
    ensures Paired(r)
  {
    if img.treeRoot == 0 then Finished(OK, []) else More(Cursor(img.treeRoot, [], [], []))
  }

  /** At most n loads further. */
  function RunFor(img: Image, quit: KV -> bool, r: Trace, n: nat): (r': Trace)
    requires Paired(r)
    ensures Paired(r')
    decreases n
  {
    if n == 0 || r.Finished? then r else RunFor(img, quit, Step(img, quit, r.c), n - 1)
  }

  lemma RunStep(img: Image, quit: KV -> bool, c: Cursor, n: nat)
    requires |c.bars| == |c.next| && RunFor(img, quit, More(c), n).Finished?
    ensures n > 0 && RunFor(img, quit, Step(img, quit, c), n - 1) == RunFor(img, quit, More(c), n)
    ensures Step(img, quit, c).Finished? ==> Step(img, quit, c) == RunFor(img, quit, More(c), n)
  {
  }

  lemma RunOver(img: Image, quit: KV -> bool, r: Trace, n: nat)
    requires r.Finished?
    ensures RunFor(img, quit, r, n) == r
  {
  }

  /** butter_pt_enum, on a file on which it ends. */
  method Enumerate(img: Image, quit: KV -> bool, ghost n: nat) returns (status: Status, out: seq<KV>)
    requires RunFor(img, quit, Begin(img), n).Finished?
    ensures Finished(status, out) == RunFor(img, quit, Begin(img), n)
  {
    hide RunFor, NextSlot, FirstUsed;
    var bars: seq<Slots>, next: seq<Byte> := [], [];
    var loc: nat := img.treeRoot;
    out := [];
    if loc == 0 {
      RunOver(img, quit, Begin(img), n);
      return OK, out;
    }
    ghost var left, end := n, RunFor(img, quit, Begin(img), n);
    while true
      invariant |bars| == |next| && end.Finished?
      invariant RunFor(img, quit, More(Cursor(loc, bars, next, out)), left) == end
      decreases left
    {
      ghost var step := Step(img, quit, Cursor(loc, bars, next, out));
      RunStep(img, quit, Cursor(loc, bars, next, out), left);
      left := left - 1;
      if loc !in img.blocks || img.blocks[loc].Spare? { return DataError, out; }
      var blk := img.blocks[loc];
      if blk.Bar? {
        if |bars| + 1 > HASH_LENGTH { return DataError, out; }
        bars, next := bars + [blk.jump], next + [0];
      } else {
        out := out + [KV(blk.key, blk.value)];
        if quit(KV(blk.key, blk.value)) { return OK, out; }
      }
      if blk.DataEx? && blk.next != 0 {
        loc := blk.next;
        continue;
      }
      assert step == Seek(bars, next, out);
      var level, i := Search(bars, next);
      if level < 0 { return OK, out; }
      loc, next := bars[level][i], next[level := Behind(i)];
    }
  }

  /** The two loops that look for the next slot. */
  method Search(bars: seq<Slots>, next: seq<Byte>) returns (level: int, i: Byte)
    requires |bars| == |next|
    ensures -1 <= level < |bars|
    ensures var found := NextSlot(bars, next, |bars| - 1);
      if level < 0 then found.None? else found.Some? && found.value.0 == level && found.value.1 == i
  {
    level, i := |bars| - 1, 0;
    while level >= 0
      invariant -1 <= level < |bars|
      invariant NextSlot(bars, next, |bars| - 1) == NextSlot(bars, next, level)
    {
      var j: nat := next[level];
      while j < SLOTS
        invariant j <= SLOTS && FirstUsed(bars[level], next[level]) == FirstUsed(bars[level], j)
      {
        if bars[level][j] != 0 {
          i := j;
          return;
        }
        j := j + 1;
      }
      level := level - 1;
    }
  }

  // ---------------------------------------------------------------- the machine on a trie

  /** The bar at path p, as it stands on the stack. */
  ghost predicate StackedAt(t: Trie, p: Bytes, jump: Slots) {
    p in t.bars && |p| < HASH_LENGTH && forall b: Byte :: jump[b] == Ptr(t, p + [b])
  }

  /** The cursor has passed the slots before pos. Behind the last slot, which it passes only when
      that is in use, its eight bits say 0 again. */
  predicate CursorAt(jump: Slots, pos: nat, next: Byte) {
    next == pos % 256 && pos <= SLOTS && (pos == SLOTS ==> jump[255] != 0)
  }

  /** Bars on the stack whose last slot is in use have all later ones below them. */
  predicate Sheltered(ps: seq<Bytes>, bars: seq<Slots>, l: nat, m: nat)
    requires l < |ps| == |bars| && m < |ps|
  {
    bars[l][255] != 0 ==> Under(ps[l], ps[m])
  }

  /** The stack holds the bars at the paths ps, with cursors at pos. */
  ghost predicate Stacked(t: Trie, ps: seq<Bytes>, pos: seq<nat>, bars: seq<Slots>, next: seq<Byte>) {
    && |ps| == |pos| == |bars| == |next| <= HASH_LENGTH
    && (forall l {:trigger StackedAt(t, ps[l], bars[l])} :: 0 <= l < |ps| ==> StackedAt(t, ps[l], bars[l]))
    && (forall l {:trigger CursorAt(bars[l], pos[l], next[l])} :: 0 <= l < |ps| ==> CursorAt(bars[l], pos[l], next[l]))
    && (forall l, m {:trigger Sheltered(ps, bars, l, m)} :: 0 <= l < m < |ps| ==> Sheltered(ps, bars, l, m))
  }

  ghost predicate Levels(ps: seq<Bytes>, pos: seq<nat>) {
    |ps| == |pos| && forall l {:trigger ps[l]} {:trigger pos[l]} :: 0 <= l < |ps| ==> |ps[l]| < HASH_LENGTH && pos[l] <= SLOTS
  }

  /** What the cursors have not passed yet, up to a level of the stack. */
  ghost function Pending(t: Trie, ps: seq<Bytes>, pos: seq<nat>, level: int): seq<Bytes>
    requires Levels(ps, pos) && -1 <= level < |ps|
    decreases level + 1
  {
    if level < 0 then [] else PreorderFrom(t, ps[level], pos[level]) + Pending(t, ps, pos, level - 1)
  }

  /** All paths are visited or pending, and the stack holds the visited bars. */
  ghost predicate Between(t: Trie, visited: seq<Bytes>, ps: seq<Bytes>, pos: seq<nat>, here: seq<Bytes>,
                          bars: seq<Slots>, next: seq<Byte>) {
    && Stacked(t, ps, pos, bars, next) && ps == BarsOf(t, visited) && Levels(ps, pos)
    && visited + here + Pending(t, ps, pos, |ps| - 1) == Preorder(t, [])
  }

  /** About to load the bar at q, or the k-th record of the chain at q. */
  ghost predicate AtLoad(t: Trie, c: Cursor, visited: seq<Bytes>, ps: seq<Bytes>, pos: seq<nat>, q: Bytes, k: nat) {
    && |q| <= HASH_LENGTH && Between(t, visited, ps, pos, Preorder(t, q), c.bars, c.next)
    && if q in t.bars then
         c.loc == t.bars[q] && c.out == RecordsOf(t, visited)
       else
         && q in t.at && t.at[q] in t.leaves && k < |t.leaves[t.at[q]].recs|
         && c.loc == t.leaves[t.at[q]].recs[k].addr
         && c.out == RecordsOf(t, visited) + KVs(t.leaves[t.at[q]].recs)[..k]
  }

  // ---------------------------------------------------------------- what is pending

  lemma {:induction false} PendingFrame(t: Trie, ps: seq<Bytes>, pos: seq<nat>, l: nat, i: nat, level: int)
    requires Levels(ps, pos) && -1 <= level < l < |ps| && i <= SLOTS
    ensures Pending(t, ps, pos[l := i], level) == Pending(t, ps, pos, level)
    decreases level + 1
  {
    if level >= 0 { PendingFrame(t, ps, pos, l, i, level - 1); }
  }

  lemma PendingNone(t: Trie, ps: seq<Bytes>, pos: seq<nat>)
    requires Levels(ps, pos)
    ensures Pending(t, ps, pos, -1) == []
  {
  }

  lemma LevelDone(t: Trie, ps: seq<Bytes>, pos: seq<nat>, level: nat)
    requires Levels(ps, pos) && level < |ps|
    requires PreorderFrom(t, ps[level], pos[level]) == PreorderFrom(t, ps[level], SLOTS)
    ensures Pending(t, ps, pos, level) == Pending(t, ps, pos, level - 1)
  {
  }

  lemma PendingUnfold(t: Trie, ps: seq<Bytes>, pos: seq<nat>, level: nat)
    requires Levels(ps, pos) && level < |ps|
    ensures Pending(t, ps, pos, level) == PreorderFrom(t, ps[level], pos[level]) + Pending(t, ps, pos, level - 1)
  {
  }

  lemma SlotUnfold(t: Trie, p: Bytes, i: Byte)
    requires |p| < HASH_LENGTH
    ensures PreorderFrom(t, p, i) == Preorder(t, p + [i]) + PreorderFrom(t, p, i + 1)
  {
  }

  lemma Associate<T>(a: seq<T>, b: seq<T>, c: seq<T>)
    ensures a + b + c == a + (b + c)
  {
  }

  lemma PendingHere(t: Trie, ps: seq<Bytes>, pos: seq<nat>, level: nat, i: Byte)
    requires Levels(ps, pos) && level < |ps|
    requires PreorderFrom(t, ps[level], pos[level]) == PreorderFrom(t, ps[level], i)
    ensures Pending(t, ps, pos, level) == Preorder(t, ps[level] + [i]) + Pending(t, ps, pos[level := i + 1], level)
  {
    hide Pending, Preorder, PreorderFrom;
    var p, pos' := ps[level], pos[level := i + 1];
    PendingUnfold(t, ps, pos, level);
    PendingUnfold(t, ps, pos', level);
    PendingFrame(t, ps, pos, level, i + 1, level - 1);
    SlotUnfold(t, p, i);
    Associate(Preorder(t, p + [i]), PreorderFrom(t, p, i + 1), Pending(t, ps, pos, level - 1));
  }

  /** Slots not in use have nothing pending. */
  lemma LevelSkip(t: Trie, hash: Bytes -> Hash, p: Bytes, jump: Slots, i: Byte)
    requires Shape(t, hash) && StackedAt(t, p, jump)
    ensures PreorderFrom(t, p, i) == PreorderFrom(t, p, FirstUsed(jump, i))
  {
    PreorderSkip(t, hash, p, i, FirstUsed(jump, i));
  }

  /** What the search finds is the next path, or it is at a bar with nothing left, back at its
      first slot because the cursor has wrapped around. */
  lemma {:induction false} PendingSkip(t: Trie, hash: Bytes -> Hash, ps: seq<Bytes>, pos: seq<nat>, bars: seq<Slots>, next: seq<Byte>, level: int)
    requires Shape(t, hash) && Stacked(t, ps, pos, bars, next) && Levels(ps, pos) && -1 <= level < |ps|
    ensures NextSlot(bars, next, level).None? ==> Pending(t, ps, pos, level) == []
    ensures NextSlot(bars, next, level).Some? ==>
      var l, i := NextSlot(bars, next, level).value.0, NextSlot(bars, next, level).value.1;
      if pos[l] < SLOTS then Pending(t, ps, pos, level) == Preorder(t, ps[l] + [i]) + Pending(t, ps, pos[l := i + 1], level)
      else Pending(t, ps, pos, level) == Pending(t, ps, pos, l - 1)
    decreases level + 1
  {
    hide Preorder, PreorderFrom, Pending;
    if level < 0 {
      PendingNone(t, ps, pos);
    } else {
      assert StackedAt(t, ps[level], bars[level]) && CursorAt(bars[level], pos[level], next[level]);
      LevelSkip(t, hash, ps[level], bars[level], next[level]);
      var used := FirstUsed(bars[level], next[level]);
      if pos[level] == SLOTS {
        assert used <= 255;
        LevelDone(t, ps, pos, level);
      } else if used < SLOTS {
        PendingHere(t, ps, pos, level, used);
      } else {
        PendingSkip(t, hash, ps, pos, bars, next, level - 1);
        LevelDone(t, ps, pos, level);
        var r := NextSlot(bars, next, level - 1);
        if r.Some? { LevelDone(t, ps, pos[r.value.0 := r.value.1 + 1], level); }
      }
    }
  }

  /** What is pending is pending at some level. */
  lemma {:induction false} PendingFrom(t: Trie, ps: seq<Bytes>, pos: seq<nat>, level: int, x: Bytes)
    requires Levels(ps, pos) && -1 <= level < |ps|
    ensures x in Pending(t, ps, pos, level) <==> exists l :: 0 <= l <= level && x in PreorderFrom(t, ps[l], pos[l])
    decreases level + 1
  {
    if level >= 0 { PendingFrom(t, ps, pos, level - 1, x); }
  }

  lemma BeforeNotUnder(p: Bytes, q: Bytes)
    requires Before(p, q)
    ensures !Under(q, p)
  {
    var i: nat :| BeforeAt(p, q, i);
  }

  /** In ascending order nothing stands twice. */
  lemma NotTwice(a: seq<Bytes>, b: seq<Bytes>, x: Bytes)
    requires AscendingPaths(a + b) && x in a
    ensures x !in b
  {
    if x in b {
      var i :| 0 <= i < |a| && a[i] == x;
      var j :| 0 <= j < |b| && b[j] == x;
      assert (a + b)[i] == x && (a + b)[|a| + j] == x;
      BeforeIrreflexive(x);
    }
  }

  /** Of two bars on the stack the lower one is not below the other. */
  lemma StackOrder(t: Trie, hash: Bytes -> Hash, visited: seq<Bytes>, ps: seq<Bytes>, rest: seq<Bytes>, l: nat, m: nat)
    requires Shape(t, hash) && visited + rest == Preorder(t, []) && ps == BarsOf(t, visited) && l < m < |ps|
    ensures !Under(ps[m], ps[l]) && ps[m] in visited && Used(t, ps[m])
    ensures AscendingPaths(visited + rest)
  {
    PreorderFacts(t, hash, []);
    forall i, j | 0 <= i < j < |visited| ensures Before(visited[i], visited[j]) {
      assert (visited + rest)[i] == visited[i] && (visited + rest)[j] == visited[j];
    }
    BarsAscend(t, visited);
    BeforeNotUnder(ps[l], ps[m]);
    BarFrom(t, visited, ps[m]);
  }

  lemma SlottedFrom(t: Trie, hash: Bytes -> Hash, p: Bytes, i: nat, q: Bytes)
    requires Shape(t, hash) && |p| < HASH_LENGTH && i <= SLOTS
    ensures q in PreorderFrom(t, p, i) <==> Used(t, q) && Slotted(p, q, i)
  {
    PreorderFromFacts(t, hash, p, i);
  }

  /** Once a bar has nothing left, nothing pending at lower levels is below it. */
  lemma NotBelow(t: Trie, hash: Bytes -> Hash, visited: seq<Bytes>, ps: seq<Bytes>, pos: seq<nat>, m: nat, x: Bytes)
    requires Shape(t, hash) && ps == BarsOf(t, visited) && Levels(ps, pos) && m < |ps|
    requires visited + Pending(t, ps, pos, |ps| - 1) == Preorder(t, []) && x in Pending(t, ps, pos, m - 1)
    ensures !Under(ps[m], x)
  {
    hide Pending, PreorderFrom, Preorder, Shape, BarsOf, AscendingPaths, Used;
    if Under(ps[m], x) {
      PendingFrom(t, ps, pos, m - 1, x);
      var l :| 0 <= l <= m - 1 && x in PreorderFrom(t, ps[l], pos[l]);
      var rest := Pending(t, ps, pos, |ps| - 1);
      StackOrder(t, hash, visited, ps, rest, l, m);
      SlottedFrom(t, hash, ps[l], pos[l], x);
      BetweenPrefixes(ps[l], ps[m], x);
      SlottedFrom(t, hash, ps[l], pos[l], ps[m]);
      PendingFrom(t, ps, pos, |ps| - 1, ps[m]);
      NotTwice(visited, rest, ps[m]);
    }
  }

  /** Two prefixes of a path. */
  lemma BetweenPrefixes(p: Bytes, q: Bytes, x: Bytes)
    requires Under(p, x) && Under(q, x) && !Under(q, p)
    ensures |p| < |q| && Under(p, q) && q[|p|] == x[|p|]
  {
    assert q[..|p|] == x[..|q|][..|p|] == x[..|p|];
    assert q[|p|] == x[..|q|][|p|];
  }

  // ---------------------------------------------------------------- how far a run gets

  /** Past the first k paths: every bar among them that uses its last slot lies above the next path. */
  ghost predicate LastOpen(t: Trie, p: Bytes, k: nat) {
    Ptr(t, p + [255]) != 0 ==> k < |Preorder(t, [])| && Under(p, Preorder(t, [])[k])
  }

  ghost predicate Open(t: Trie, k: nat)
    requires k <= |Preorder(t, [])|
  {
    forall p :: p in BarsOf(t, Preorder(t, [])[..k]) ==> LastOpen(t, p, k)
  }

  /** Nor are there more bars among them than the stack holds. */
  ghost predicate Clean(t: Trie, k: nat) {
    k <= |Preorder(t, [])| && Open(t, k) && |BarsOf(t, Preorder(t, [])[..k])| <= HASH_LENGTH
  }

  /** About to load the k-th path in order, with everything before it reported. */
  ghost predicate Arrived(t: Trie, c: Cursor, k: nat) {
    && k < |Preorder(t, [])|
    && exists ps, pos :: AtLoad(t, c, Preorder(t, [])[..k], ps, pos, Preorder(t, [])[k], 0)
  }

  // ---------------------------------------------------------------- the search

  lemma EntryLoads(t: Trie, hash: Bytes -> Hash, c: Cursor, visited: seq<Bytes>, ps: seq<Bytes>, pos: seq<nat>, q: Bytes)
    requires Shape(t, hash) && c.loc == Ptr(t, q) != 0 && |q| <= HASH_LENGTH
    requires Between(t, visited, ps, pos, Preorder(t, q), c.bars, c.next) && c.out == RecordsOf(t, visited)
    ensures AtLoad(t, c, visited, ps, pos, q, 0)
  {
  }

  /** The traversal of a path in use starts with it. */
  lemma PreorderHead(t: Trie, hash: Bytes -> Hash, q: Bytes)
    requires Shape(t, hash) && |q| <= HASH_LENGTH && Used(t, q)
    ensures |Preorder(t, q)| > 0 && Preorder(t, q)[0] == q
  {
    assert BarPath(t, q) && ChainPath(t, q);
  }

  lemma HereIsNext(visited: seq<Bytes>, here: seq<Bytes>, rest: seq<Bytes>, all: seq<Bytes>)
    requires visited + here + rest == all && |here| > 0
    ensures |visited| < |all| && all[|visited|] == here[0] && visited == all[..|visited|]
  {
  }

  /** The search never passes a bar whose last slot is in use. */
  lemma SearchStops(bars: seq<Slots>, next: seq<Byte>, l: nat, i: Byte, m: nat)
    requires |bars| == |next| && NextSlot(bars, next, |bars| - 1) == Some((l, i)) && l < m < |bars|
    ensures bars[m][255] == 0
  {
    assert FirstUsed(bars[m], next[m]) == SLOTS;
  }

  /** The next path is found. */
  lemma SeekNext(t: Trie, hash: Bytes -> Hash, visited: seq<Bytes>, ps: seq<Bytes>, pos: seq<nat>, bars: seq<Slots>, next: seq<Byte>,
                 out: seq<KV>, l: nat, i: Byte)
    requires Shape(t, hash) && Between(t, visited, ps, pos, [], bars, next) && out == RecordsOf(t, visited)
    requires NextSlot(bars, next, |bars| - 1) == Some((l, i)) && pos[l] < SLOTS
    ensures AtLoad(t, Cursor(bars[l][i], bars, next[l := Behind(i)], out), visited, ps, pos[l := i + 1], ps[l] + [i], 0)
    ensures bars[l][i] != 0 && StackedAt(t, ps[l], bars[l])
  {
    hide NextSlot, Preorder, PreorderFrom, Ptr, Shape, RecordsOf, Pending;
    PendingSkip(t, hash, ps, pos, bars, next, |ps| - 1);
    var q, pos', next' := ps[l] + [i], pos[l := i + 1], next[l := Behind(i)];
    assert StackedAt(t, ps[l], bars[l]);
    assert bars[l][i] == Ptr(t, q);
    assert CursorAt(bars[l], pos'[l], next'[l]);
    assert Stacked(t, ps, pos', bars, next') by {
      forall m | 0 <= m < |ps| ensures CursorAt(bars[m], pos'[m], next'[m]) {
        if m != l { assert CursorAt(bars[m], pos[m], next[m]); }
      }
    }
    Associate(visited, Preorder(t, q), Pending(t, ps, pos', |ps| - 1));
    assert visited + [] == visited;
    EntryLoads(t, hash, Cursor(bars[l][i], bars, next', out), visited, ps, pos', q);
  }

  /** Then all bars that use their last slot are above it. */
  lemma NextIsOpen(t: Trie, hash: Bytes -> Hash, visited: seq<Bytes>, ps: seq<Bytes>, pos: seq<nat>, bars: seq<Slots>, next: seq<Byte>,
                   l: nat, i: Byte)
    requires Shape(t, hash) && Between(t, visited, ps, pos, [], bars, next)
    requires NextSlot(bars, next, |bars| - 1) == Some((l, i))
    requires var k := |visited|; k < |Preorder(t, [])| && visited == Preorder(t, [])[..k] && Preorder(t, [])[k] == ps[l] + [i]
    ensures Open(t, |visited|)
  {
    hide Pending, Preorder, PreorderFrom, Shape, NextSlot, BarsOf, Ptr;
    forall m | l < m < |bars| ensures bars[m][255] == 0 { SearchStops(bars, next, l, i, m); }
    forall p | p in ps ensures LastOpen(t, p, |visited|) {
      var m :| 0 <= m < |ps| && ps[m] == p;
      assert StackedAt(t, ps[m], bars[m]);
      if Ptr(t, p + [255]) != 0 {
        if m < l { assert Sheltered(ps, bars, m, l); }
      }
    }
  }

  /** Nothing is left. */
  lemma SeekDone(t: Trie, hash: Bytes -> Hash, visited: seq<Bytes>, ps: seq<Bytes>, pos: seq<nat>, bars: seq<Slots>, next: seq<Byte>)
    requires Shape(t, hash) && Between(t, visited, ps, pos, [], bars, next)
    requires NextSlot(bars, next, |bars| - 1) == None
    ensures visited == Preorder(t, []) && Open(t, |visited|)
  {
    hide NextSlot, Preorder, PreorderFrom, Ptr, Shape, RecordsOf, Pending;
    PendingSkip(t, hash, ps, pos, bars, next, |ps| - 1);
    assert visited + [] + [] == visited;
    assert Preorder(t, [])[..|visited|] == visited;
    forall p | p in ps ensures LastOpen(t, p, |visited|) {
      var m :| 0 <= m < |ps| && ps[m] == p;
      assert StackedAt(t, ps[m], bars[m]);
      assert FirstUsed(bars[m], next[m]) == SLOTS;
    }
  }

  /** No record below p makes the callback stop. */
  ghost predicate QuietBelow(t: Trie, quit: KV -> bool, p: Bytes) {
    forall x :: x in t.at && Under(p, x) && t.at[x] in t.leaves ==> NoneQuit(quit, KVs(t.leaves[t.at[x]].recs))
  }

  ghost predicate NoneQuit(quit: KV -> bool, s: seq<KV>) {
    forall i :: 0 <= i < |s| ==> !quit(s[i])
  }

  /** Everything below the bar at p was visited, but its cursor wrapped around. */
  lemma BelowVisited(t: Trie, hash: Bytes -> Hash, visited: seq<Bytes>, ps: seq<Bytes>, pos: seq<nat>, bars: seq<Slots>, next: seq<Byte>,
                     l: nat, i: Byte, x: Bytes)
    requires Shape(t, hash) && Between(t, visited, ps, pos, [], bars, next)
    requires NextSlot(bars, next, |bars| - 1) == Some((l, i)) && pos[l] == SLOTS
    requires Used(t, x) && Under(ps[l], x)
    ensures x in visited
  {
    hide NextSlot, Preorder, PreorderFrom, Ptr, Shape, Pending, AscendingPaths, Used, BarsOf, StackedAt;
    PendingSkip(t, hash, ps, pos, bars, next, |ps| - 1);
    PreorderFacts(t, hash, []);
    assert visited + [] == visited;
    var rest := Pending(t, ps, pos, l - 1);
    if x !in visited {
      assert x in Preorder(t, []) && x in visited + rest;
      NotBelow(t, hash, visited, ps, pos, l, x);
    }
  }

  lemma {:induction false} RecordsAt(t: Trie, visited: seq<Bytes>, x: Bytes, kv: KV)
    requires x in visited && x in t.at && t.at[x] in t.leaves && kv in KVs(t.leaves[t.at[x]].recs)
    ensures kv in RecordsOf(t, visited)
  {
    if visited[0] != x { RecordsAt(t, visited[1..], x, kv); }
  }

  // ---------------------------------------------------------------- after a wrap-around

  /** The stack from level L on holds bars at or below p, and the one at L uses its last slot. */
  ghost predicate RoundAt(t: Trie, p: Bytes, bars: seq<Slots>, L: nat, qs: seq<Bytes>) {
    && L < |qs| == |bars| && bars[L][255] != 0
    && forall l {:trigger StackedAt(t, qs[l], bars[l])} :: L <= l < |qs| ==> StackedAt(t, qs[l], bars[l]) && Under(p, qs[l])
  }

  /** loc is where the bar at x, or the k-th record of the chain at x, stands. */
  ghost predicate LoadsFrom(t: Trie, p: Bytes, loc: nat, x: Bytes, k: nat) {
    && Under(p, x) && |x| <= HASH_LENGTH
    && if x in t.bars then loc == t.bars[x]
       else x in t.at && t.at[x] in t.leaves && k < |t.leaves[t.at[x]].recs| && loc == t.leaves[t.at[x]].recs[k].addr
  }

  /** The run goes round below a path where no record makes the callback stop. */
  ghost predicate Doomed(t: Trie, quit: KV -> bool, c: Cursor) {
    && |c.bars| == |c.next|
    && exists p, L, qs, x, k :: QuietBelow(t, quit, p) && RoundAt(t, p, c.bars, L, qs) && LoadsFrom(t, p, c.loc, x, k)
  }

  /** The search ends at level L at the latest, with something below p. */
  lemma RoundSeek(t: Trie, hash: Bytes -> Hash, p: Bytes, bars: seq<Slots>, next: seq<Byte>, out: seq<KV>, L: nat, qs: seq<Bytes>)
    returns (x: Bytes)
    requires Shape(t, hash) && RoundAt(t, p, bars, L, qs) && |bars| == |next|
    ensures Seek(bars, next, out).More? && Seek(bars, next, out).c.bars == bars && LoadsFrom(t, p, Seek(bars, next, out).c.loc, x, 0)
  {
    var found := NextSlot(bars, next, |bars| - 1);
    assert FirstUsed(bars[L], next[L]) <= 255;
    assert found.Some? && found.value.0 >= L;
    var l, i := found.value.0, found.value.1;
    assert StackedAt(t, qs[l], bars[l]);
    hide NextSlot, RoundAt;
    x := qs[l] + [i];
    PtrUsed(t, hash, x);
    assert bars[l][i] == Ptr(t, x) != 0;
  }

  /** One more load: the stack overflows, or the run goes on below p. */
  lemma RoundStep(img: Image, t: Trie, hash: Bytes -> Hash, quit: KV -> bool, c: Cursor, p: Bytes, L: nat, qs: seq<Bytes>, x: Bytes, k: nat)
    returns (qs': seq<Bytes>, x': Bytes, k': nat)
    requires Shape(t, hash) && Holds(img, t) && |c.bars| == |c.next|
    requires QuietBelow(t, quit, p) && RoundAt(t, p, c.bars, L, qs) && LoadsFrom(t, p, c.loc, x, k)
    ensures match Step(img, quit, c)
      case Finished(status, _) => status == DataError
      case More(c') => RoundAt(t, p, c'.bars, L, qs') && LoadsFrom(t, p, c'.loc, x', k')
  {
    qs', x', k' := qs, x, 0;
    if x in t.bars {
      assert BarHolds(img, t, x, t.bars[x]) && BarPath(t, x);
      var jump := img.blocks[c.loc].jump;
      if |c.bars| < HASH_LENGTH {
        qs' := qs + [x];
        RoundPush(t, p, c.bars, L, qs, x, jump);
        x' := RoundSeek(t, hash, p, c.bars + [jump], c.next + [0], c.out, L, qs');
      }
    } else {
      var recs := t.leaves[t.at[x]].recs;
      assert ChainPath(t, x) && LeafPath(t, hash, t.at[x]) && RecHolds(img, recs, k);
      assert KVs(recs)[k] == KV(recs[k].key, recs[k].value);
      if k + 1 < |recs| {
        assert RecOK(recs[k + 1]);
        k' := k + 1;
      } else {
        x' := RoundSeek(t, hash, p, c.bars, c.next, c.out + [KV(recs[k].key, recs[k].value)], L, qs);
      }
    }
  }

  lemma RoundPush(t: Trie, p: Bytes, bars: seq<Slots>, L: nat, qs: seq<Bytes>, x: Bytes, jump: Slots)
    requires RoundAt(t, p, bars, L, qs) && StackedAt(t, x, jump) && Under(p, x)
    ensures RoundAt(t, p, bars + [jump], L, qs + [x])
  {
    var bars', qs' := bars + [jump], qs + [x];
    forall l | L <= l < |qs'| ensures StackedAt(t, qs'[l], bars'[l]) && Under(p, qs'[l]) {
      if l < |qs| { assert StackedAt(t, qs[l], bars[l]); }
    }
  }

  lemma {:induction false} RoundRun(img: Image, t: Trie, hash: Bytes -> Hash, quit: KV -> bool, c: Cursor, p: Bytes, L: nat,
                                    qs: seq<Bytes>, x: Bytes, k: nat, n: nat)
    requires Shape(t, hash) && Holds(img, t) && |c.bars| == |c.next|
    requires QuietBelow(t, quit, p) && RoundAt(t, p, c.bars, L, qs) && LoadsFrom(t, p, c.loc, x, k)
    ensures var r := RunFor(img, quit, More(c), n); r.Finished? ==> r.status == DataError
    decreases n
  {
    hide Step, RoundAt, LoadsFrom, QuietBelow, Shape, Holds;
    if n > 0 {
      var qs', x', k' := RoundStep(img, t, hash, quit, c, p, L, qs, x, k);
      if Step(img, quit, c).More? { RoundRun(img, t, hash, quit, Step(img, quit, c).c, p, L, qs', x', k', n - 1); }
    }
  }

  /** Such a run never ends well. */
  lemma DoomedRun(img: Image, t: Trie, hash: Bytes -> Hash, quit: KV -> bool, c: Cursor, n: nat)
    requires Shape(t, hash) && Holds(img, t) && Doomed(t, quit, c)
    ensures var r := RunFor(img, quit, More(c), n); r.Finished? ==> r.status == DataError
  {
    var p, L: nat, qs, x, k: nat :| QuietBelow(t, quit, p) && RoundAt(t, p, c.bars, L, qs) && LoadsFrom(t, p, c.loc, x, k);
    RoundRun(img, t, hash, quit, c, p, L, qs, x, k, n);
  }

  // ---------------------------------------------------------------- one path

  /** Between two paths: the run goes round, or is over, or comes to the next path. */
  ghost predicate After(t: Trie, quit: KV -> bool, r: Trace, k: nat) {
    && k <= |Preorder(t, [])|
    && if !Open(t, k) then r.More? && Doomed(t, quit, r.c)
       else if k == |Preorder(t, [])| then r == Finished(OK, AllRecords(t))
       else r.More? && Arrived(t, r.c, k)
  }

  /** Below a bar whose cursor has wrapped around everything was reported. */
  lemma RoundQuiet(t: Trie, hash: Bytes -> Hash, quit: KV -> bool, visited: seq<Bytes>, ps: seq<Bytes>, pos: seq<nat>,
                   bars: seq<Slots>, next: seq<Byte>, l: nat, i: Byte)
    requires Shape(t, hash) && Between(t, visited, ps, pos, [], bars, next) && NoneQuit(quit, RecordsOf(t, visited))
    requires NextSlot(bars, next, |bars| - 1) == Some((l, i)) && pos[l] == SLOTS
    ensures QuietBelow(t, quit, ps[l])
  {
    hide Pending, Preorder, PreorderFrom, Shape, RecordsOf, NextSlot, KVs, BarsOf;
    forall x | x in t.at && Under(ps[l], x) && t.at[x] in t.leaves ensures NoneQuit(quit, KVs(t.leaves[t.at[x]].recs)) {
      BelowVisited(t, hash, visited, ps, pos, bars, next, l, i, x);
      forall kv | kv in KVs(t.leaves[t.at[x]].recs) ensures !quit(kv) { RecordsAt(t, visited, x, kv); }
    }
  }

  /** The search at such a bar. */
  lemma SeekRound(t: Trie, hash: Bytes -> Hash, quit: KV -> bool, visited: seq<Bytes>, ps: seq<Bytes>, pos: seq<nat>,
                  bars: seq<Slots>, next: seq<Byte>, out: seq<KV>, l: nat, i: Byte)
    requires Shape(t, hash) && Between(t, visited, ps, pos, [], bars, next) && NoneQuit(quit, RecordsOf(t, visited))
    requires NextSlot(bars, next, |bars| - 1) == Some((l, i)) && pos[l] == SLOTS
    ensures Seek(bars, next, out).More? && Doomed(t, quit, Seek(bars, next, out).c)
  {
    hide Pending, Preorder, PreorderFrom, Shape, RecordsOf, NextSlot, KVs, BarsOf, QuietBelow, LoadsFrom;
    RoundQuiet(t, hash, quit, visited, ps, pos, bars, next, l, i);
    assert CursorAt(bars[l], pos[l], next[l]) && StackedAt(t, ps[l], bars[l]);
    assert RoundAt(t, ps[l], bars, l, ps) by {
      forall m | l <= m < |ps| ensures StackedAt(t, ps[m], bars[m]) && Under(ps[l], ps[m]) {
        if m > l { assert Sheltered(ps, bars, l, m); }
      }
    }
    var x := RoundSeek(t, hash, ps[l], bars, next, out, l, ps);
  }

  /** It happens exactly when a bar that uses its last slot is not above the next path. */
  lemma RoundNotOpen(t: Trie, hash: Bytes -> Hash, visited: seq<Bytes>, ps: seq<Bytes>, pos: seq<nat>,
                     bars: seq<Slots>, next: seq<Byte>, l: nat, i: Byte)
    requires Shape(t, hash) && Between(t, visited, ps, pos, [], bars, next)
    requires NextSlot(bars, next, |bars| - 1) == Some((l, i)) && pos[l] == SLOTS
    ensures |visited| <= |Preorder(t, [])| && !Open(t, |visited|)
  {
    PendingSkip(t, hash, ps, pos, bars, next, |ps| - 1);
    hide Pending, Preorder, PreorderFrom, Shape, NextSlot;
    assert visited + [] == visited;
    var all, k, rest := Preorder(t, []), |visited|, Pending(t, ps, pos, l - 1);
    assert visited + rest == all && all[..k] == visited;
    assert CursorAt(bars[l], pos[l], next[l]) && StackedAt(t, ps[l], bars[l]);
    assert Ptr(t, ps[l] + [255]) != 0 && ps[l] in ps;
    if k < |all| {
      assert all[k] == rest[0] && rest[0] in rest;
      NotBelow(t, hash, visited, ps, pos, l, rest[0]);
    }
    assert !LastOpen(t, ps[l], k);
  }

  lemma VisitedFirst(t: Trie, visited: seq<Bytes>, ps: seq<Bytes>, pos: seq<nat>, bars: seq<Slots>, next: seq<Byte>)
    requires Between(t, visited, ps, pos, [], bars, next)
    ensures |visited| <= |Preorder(t, [])| && visited == Preorder(t, [])[..|visited|]
  {
    hide Pending, Preorder, Stacked;
    assert visited + [] == visited;
  }

  lemma FoundAfter(t: Trie, hash: Bytes -> Hash, quit: KV -> bool, visited: seq<Bytes>, ps: seq<Bytes>, pos: seq<nat>,
                   bars: seq<Slots>, next: seq<Byte>, out: seq<KV>, l: nat, i: Byte)
    requires Shape(t, hash) && Between(t, visited, ps, pos, [], bars, next) && out == RecordsOf(t, visited)
    requires NextSlot(bars, next, |bars| - 1) == Some((l, i)) && pos[l] < SLOTS
    ensures After(t, quit, Seek(bars, next, out), |visited|)
  {
    hide Pending, Preorder, PreorderFrom, Shape, NextSlot, RecordsOf, Open, Doomed, AtLoad, Arrived;
    SeekNext(t, hash, visited, ps, pos, bars, next, out, l, i);
    NextArrives(t, hash, Cursor(bars[l][i], bars, next[l := Behind(i)], out), visited, ps, pos[l := i + 1], ps[l], i);
    NextIsOpen(t, hash, visited, ps, pos, bars, next, l, i);
  }

  /** After a path, the search leads where it should, or round. */
  lemma SeekAfter(t: Trie, hash: Bytes -> Hash, quit: KV -> bool, visited: seq<Bytes>, ps: seq<Bytes>, pos: seq<nat>,
                  bars: seq<Slots>, next: seq<Byte>, out: seq<KV>)
    requires Shape(t, hash) && Between(t, visited, ps, pos, [], bars, next)
    requires out == RecordsOf(t, visited) && NoneQuit(quit, out)
    ensures After(t, quit, Seek(bars, next, out), |visited|) && visited == Preorder(t, [])[..|visited|]
  {
    VisitedFirst(t, visited, ps, pos, bars, next);
    var found := NextSlot(bars, next, |bars| - 1);
    if found.None? {
      SeekDone(t, hash, visited, ps, pos, bars, next);
    } else {
      hide Pending, Preorder, PreorderFrom, Shape, NextSlot, RecordsOf, Open, Doomed, AtLoad, NoneQuit, Stacked, Seek, Arrived;
      var l, i := found.value.0, found.value.1;
      if pos[l] == SLOTS {
        SeekRound(t, hash, quit, visited, ps, pos, bars, next, out, l, i);
        RoundNotOpen(t, hash, visited, ps, pos, bars, next, l, i);
      } else {
        FoundAfter(t, hash, quit, visited, ps, pos, bars, next, out, l, i);
      }
    }
  }

  lemma NextArrives(t: Trie, hash: Bytes -> Hash, c: Cursor, visited: seq<Bytes>, ps: seq<Bytes>, pos: seq<nat>, p: Bytes, i: Byte)
    requires Shape(t, hash) && |p| < HASH_LENGTH && AtLoad(t, c, visited, ps, pos, p + [i], 0)
    ensures |visited| < |Preorder(t, [])| && visited == Preorder(t, [])[..|visited|] && Preorder(t, [])[|visited|] == p + [i]
    ensures Arrived(t, c, |visited|)
  {
    PreorderHead(t, hash, p + [i]);
    hide Pending, Preorder, PreorderFrom, Shape;
    HereIsNext(visited, Preorder(t, p + [i]), Pending(t, ps, pos, |ps| - 1), Preorder(t, []));
  }
  lemma PushStacked(t: Trie, ps: seq<Bytes>, pos: seq<nat>, bars: seq<Slots>, next: seq<Byte>, q: Bytes, jump: Slots)
    requires Stacked(t, ps, pos, bars, next) && |ps| < HASH_LENGTH && StackedAt(t, q, jump)
    requires forall l :: 0 <= l < |ps| && bars[l][255] != 0 ==> Under(ps[l], q)
    ensures Stacked(t, ps + [q], pos + [0], bars + [jump], next + [0])
  {
    var ps', bars' := ps + [q], bars + [jump];
    forall l, m | 0 <= l < m < |ps'| ensures Sheltered(ps', bars', l, m) {
      if m < |ps| { assert Sheltered(ps, bars, l, m); }
    }
    forall l | 0 <= l < |ps'| ensures CursorAt(bars'[l], (pos + [0])[l], (next + [0])[l]) {
      if l < |ps| { assert CursorAt(bars[l], pos[l], next[l]); }
    }
  }

  lemma {:induction false} PendingPush(t: Trie, ps: seq<Bytes>, pos: seq<nat>, q: Bytes, i: nat, level: int)
    requires Levels(ps, pos) && -1 <= level < |ps| && |q| < HASH_LENGTH && i <= SLOTS
    ensures Levels(ps + [q], pos + [i]) && Pending(t, ps + [q], pos + [i], level) == Pending(t, ps, pos, level)
    decreases level + 1
  {
    if level >= 0 { PendingPush(t, ps, pos, q, i, level - 1); }
  }

  lemma PushPending(t: Trie, ps: seq<Bytes>, pos: seq<nat>, q: Bytes)
    requires Levels(ps, pos) && q in t.bars && |q| < HASH_LENGTH
    ensures Levels(ps + [q], pos + [0])
    ensures Preorder(t, q) + Pending(t, ps, pos, |ps| - 1) == [q] + Pending(t, ps + [q], pos + [0], |ps|)
  {
    PendingPush(t, ps, pos, q, 0, |ps| - 1);
  }

  lemma NoChainAtBar(t: Trie, hash: Bytes -> Hash, q: Bytes)
    requires Shape(t, hash) && q in t.bars
    ensures q !in t.at && |q| < HASH_LENGTH
  {
    assert ChainPath(t, q) && BarPath(t, q);
  }

  lemma PushBar(t: Trie, hash: Bytes -> Hash, visited: seq<Bytes>, ps: seq<Bytes>, pos: seq<nat>, bars: seq<Slots>, next: seq<Byte>,
                q: Bytes, jump: Slots)
    requires Shape(t, hash) && q in t.bars && |ps| < HASH_LENGTH && |q| < HASH_LENGTH && StackedAt(t, q, jump)
    requires Between(t, visited, ps, pos, Preorder(t, q), bars, next)
    requires forall l :: 0 <= l < |ps| && bars[l][255] != 0 ==> Under(ps[l], q)
    ensures Between(t, visited + [q], ps + [q], pos + [0], [], bars + [jump], next + [0])
    ensures RecordsOf(t, visited + [q]) == RecordsOf(t, visited)
  {
    hide Preorder, PreorderFrom, Shape, Pending, StackedAt, Stacked;
    PushStacked(t, ps, pos, bars, next, q, jump);
    BarsConcat(t, visited, [q]);
    RecordsConcat(t, visited, [q]);
    NoChainAtBar(t, hash, q);
    PushPending(t, ps, pos, q);
    Associate(visited, Preorder(t, q), Pending(t, ps, pos, |ps| - 1));
    Associate(visited, [q], Pending(t, ps + [q], pos + [0], |ps|));
    assert visited + [q] + [] == visited + [q];
  }

  /** The bars on the stack that use their last slot are above the path to load. */
  lemma OpenStack(t: Trie, hash: Bytes -> Hash, c: Cursor, visited: seq<Bytes>, ps: seq<Bytes>, pos: seq<nat>, q: Bytes)
    requires Shape(t, hash) && AtLoad(t, c, visited, ps, pos, q, 0) && Used(t, q)
    ensures |visited| < |Preorder(t, [])| && visited == Preorder(t, [])[..|visited|] && Preorder(t, [])[|visited|] == q
    ensures Open(t, |visited|) ==> forall l :: 0 <= l < |ps| && c.bars[l][255] != 0 ==> Under(ps[l], q)
  {
    PreorderHead(t, hash, q);
    hide Pending, Preorder, PreorderFrom, Shape;
    HereIsNext(visited, Preorder(t, q), Pending(t, ps, pos, |ps| - 1), Preorder(t, []));
    if Open(t, |visited|) {
      forall l | 0 <= l < |ps| && c.bars[l][255] != 0 ensures Under(ps[l], q) {
        assert StackedAt(t, ps[l], c.bars[l]) && ps[l] in ps && LastOpen(t, ps[l], |visited|);
      }
    }
  }

  /** What a load finds at the place of a bar. */
  lemma BarRead(img: Image, t: Trie, hash: Bytes -> Hash, quit: KV -> bool, c: Cursor, visited: seq<Bytes>, ps: seq<Bytes>, pos: seq<nat>, q: Bytes)
    returns (jump: Slots)
    requires Shape(t, hash) && Holds(img, t) && AtLoad(t, c, visited, ps, pos, q, 0) && q in t.bars
    ensures StackedAt(t, q, jump) && |q| < HASH_LENGTH && |c.bars| == |c.next| == |ps| <= HASH_LENGTH
    ensures Step(img, quit, c) == if |ps| == HASH_LENGTH then Finished(DataError, c.out) else Seek(c.bars + [jump], c.next + [0], c.out)
  {
    hide Pending, Preorder, PreorderFrom, RecordsOf, BarsOf, Seek;
    assert BarHolds(img, t, q, t.bars[q]) && BarPath(t, q);
    jump := img.blocks[c.loc].jump;
  }

  /** Loading a bar: too many bars, or on from the path behind it. */
  lemma LoadBar(img: Image, t: Trie, hash: Bytes -> Hash, quit: KV -> bool, c: Cursor, visited: seq<Bytes>, ps: seq<Bytes>, pos: seq<nat>, q: Bytes)
    requires Shape(t, hash) && Holds(img, t) && AtLoad(t, c, visited, ps, pos, q, 0) && q in t.bars
    requires |visited| <= |Preorder(t, [])| && Open(t, |visited|) && NoneQuit(quit, RecordsOf(t, visited))
    ensures if |ps| == HASH_LENGTH then Step(img, quit, c) == Finished(DataError, c.out)
            else After(t, quit, Step(img, quit, c), |visited| + 1)
  {
    hide Pending, Preorder, PreorderFrom, RecordsOf, BarsOf, Seek, Open, After, Shape, Step, Holds, StackedAt, NoneQuit;
    OpenStack(t, hash, c, visited, ps, pos, q);
    var jump := BarRead(img, t, hash, quit, c, visited, ps, pos, q);
    if |ps| < HASH_LENGTH {
      PushBar(t, hash, visited, ps, pos, c.bars, c.next, q, jump);
      SeekAfter(t, hash, quit, visited + [q], ps + [q], pos + [0], c.bars + [jump], c.next + [0], c.out);
    }
  }

  lemma ChainDone(t: Trie, hash: Bytes -> Hash, visited: seq<Bytes>, ps: seq<Bytes>, pos: seq<nat>, bars: seq<Slots>, next: seq<Byte>, q: Bytes)
    requires Shape(t, hash) && q in t.at && |q| <= HASH_LENGTH && Between(t, visited, ps, pos, Preorder(t, q), bars, next)
    ensures q !in t.bars && t.at[q] in t.leaves
    ensures Between(t, visited + [q], ps, pos, [], bars, next)
    ensures RecordsOf(t, visited + [q]) == RecordsOf(t, visited) + KVs(t.leaves[t.at[q]].recs)
  {
    assert ChainPath(t, q);
    BarsConcat(t, visited, [q]);
    RecordsConcat(t, visited, [q]);
    assert visited + [q] + [] == visited + [q];
  }

  /** The records up to the first one at which the callback asks to stop. */
  function UpTo(quit: KV -> bool, s: seq<KV>): seq<KV> {
    if s == [] then [] else if quit(s[0]) then [s[0]] else [s[0]] + UpTo(quit, s[1..])
  }

  lemma {:induction false} UpToConcat(quit: KV -> bool, a: seq<KV>, b: seq<KV>)
    requires NoneQuit(quit, a)
    ensures UpTo(quit, a + b) == a + UpTo(quit, b)
  {
    if a == [] { assert a + b == b; } else {
      assert (a + b)[1..] == a[1..] + b;
      UpToConcat(quit, a[1..], b);
    }
  }

  lemma UpToAll(quit: KV -> bool, s: seq<KV>)
    requires NoneQuit(quit, s)
    ensures UpTo(quit, s) == s
  {
  }

  lemma UpToQuit(quit: KV -> bool, a: seq<KV>, kv: KV, b: seq<KV>)
    requires NoneQuit(quit, a) && quit(kv)
    ensures UpTo(quit, a + [kv] + b) == a + [kv]
  {
    assert a + [kv] + b == a + ([kv] + b);
    UpToConcat(quit, a, [kv] + b);
  }

  /** Loading a record: stopped by the callback, on along the chain, or on to the search. */
  lemma LoadRec(img: Image, t: Trie, hash: Bytes -> Hash, quit: KV -> bool, c: Cursor, visited: seq<Bytes>, ps: seq<Bytes>, pos: seq<nat>,
                q: Bytes, k: nat)
    requires Shape(t, hash) && Holds(img, t) && AtLoad(t, c, visited, ps, pos, q, k) && q !in t.bars
    ensures var kvs, r := KVs(t.leaves[t.at[q]].recs), Step(img, quit, c);
      && k < |kvs|
      && if quit(kvs[k]) then r == Finished(OK, RecordsOf(t, visited) + kvs[..k + 1])
         else if k + 1 < |kvs| then r.More? && r.c.bars == c.bars && r.c.next == c.next && AtLoad(t, r.c, visited, ps, pos, q, k + 1)
         else r == Seek(c.bars, c.next, RecordsOf(t, visited) + kvs)
  {
    hide Seek, Pending, Preorder, RecordsOf, BarsOf;
    var recs := t.leaves[t.at[q]].recs;
    var kvs := KVs(recs);
    assert ChainPath(t, q) && LeafPath(t, hash, t.at[q]) && RecHolds(img, recs, k);
    Associate(RecordsOf(t, visited), kvs[..k], [kvs[k]]);
    assert kvs[..k + 1] == kvs[..k] + [kvs[k]];
    if k + 1 < |recs| {
      assert RecHolds(img, recs, k + 1) && RecOK(recs[k + 1]);
    } else {
      assert kvs[..k + 1] == kvs;
    }
  }

  /** The whole chain at q, from its k-th record on. */
  lemma {:induction false} LoadChain(img: Image, t: Trie, hash: Bytes -> Hash, quit: KV -> bool, c: Cursor, visited: seq<Bytes>,
                                     ps: seq<Bytes>, pos: seq<nat>, q: Bytes, k: nat) returns (n: nat)
    requires Shape(t, hash) && Holds(img, t) && AtLoad(t, c, visited, ps, pos, q, k) && q !in t.bars
    requires k <= |KVs(t.leaves[t.at[q]].recs)| && NoneQuit(quit, KVs(t.leaves[t.at[q]].recs)[..k])
    ensures var kvs := KVs(t.leaves[t.at[q]].recs);
      RunFor(img, quit, More(c), n) ==
        if NoneQuit(quit, kvs) then Seek(c.bars, c.next, RecordsOf(t, visited) + kvs)
        else Finished(OK, RecordsOf(t, visited) + UpTo(quit, kvs))
    decreases |t.leaves[t.at[q]].recs| - k
  {
    hide Seek, Pending, Preorder, RecordsOf, BarsOf, Shape, Holds, Step, KVs;
    var kvs := KVs(t.leaves[t.at[q]].recs);
    LoadRec(img, t, hash, quit, c, visited, ps, pos, q, k);
    n := 0;
    if quit(kvs[k]) {
      assert kvs == kvs[..k] + [kvs[k]] + kvs[k + 1..];
      UpToQuit(quit, kvs[..k], kvs[k], kvs[k + 1..]);
      assert kvs[..k + 1] == kvs[..k] + [kvs[k]];
    } else if k + 1 < |kvs| {
      assert kvs[..k + 1] == kvs[..k] + [kvs[k]];
      n := LoadChain(img, t, hash, quit, Step(img, quit, c).c, visited, ps, pos, q, k + 1);
    } else {
      assert kvs == kvs[..k] + [kvs[k]];
    }
    n := n + 1;
  }

  // ---------------------------------------------------------------- whole runs

  lemma {:induction false} RunAdd(img: Image, quit: KV -> bool, r: Trace, m: nat, n: nat)
    requires Paired(r)
    ensures RunFor(img, quit, r, m + n) == RunFor(img, quit, RunFor(img, quit, r, m), n)
    decreases m
  {
    if m > 0 {
      if r.More? { RunAdd(img, quit, Step(img, quit, r.c), m - 1, n); } else { RunOver(img, quit, r, n); }
    }
  }

  /** Two ends of the same run are the same. */
  lemma SameEnd(img: Image, quit: KV -> bool, m: nat, n: nat)
    requires RunFor(img, quit, Begin(img), m).Finished?
    ensures RunFor(img, quit, RunFor(img, quit, Begin(img), n), m) == RunFor(img, quit, Begin(img), m)
    ensures RunFor(img, quit, Begin(img), n).Finished? ==> RunFor(img, quit, Begin(img), n) == RunFor(img, quit, Begin(img), m)
  {
    RunAdd(img, quit, Begin(img), n, m);
    RunAdd(img, quit, Begin(img), m, n);
    RunOver(img, quit, RunFor(img, quit, Begin(img), m), n);
    if RunFor(img, quit, Begin(img), n).Finished? { RunOver(img, quit, RunFor(img, quit, Begin(img), n), m); }
  }

  ghost predicate EndsWell(img: Image, quit: KV -> bool, n: nat) {
    var end := RunFor(img, quit, Begin(img), n); end.Finished? && end.status == OK
  }

  ghost predicate StopsIn(t: Trie, quit: KV -> bool, q: Bytes) {
    q in t.at && t.at[q] in t.leaves && !NoneQuit(quit, KVs(t.leaves[t.at[q]].recs))
  }

  /** The callback stops at a record of the k-th path and at none before, or at none at all. */
  ghost predicate Stops(t: Trie, quit: KV -> bool, k: nat) {
    && k <= |Preorder(t, [])| && NoneQuit(quit, RecordsOf(t, Preorder(t, [])[..k]))
    && (k < |Preorder(t, [])| ==> StopsIn(t, quit, Preorder(t, [])[k]))
  }

  lemma RecordsPush(t: Trie, all: seq<Bytes>, k: nat)
    requires k < |all|
    ensures RecordsOf(t, all[..k + 1]) ==
      RecordsOf(t, all[..k]) + (if all[k] in t.at && t.at[all[k]] in t.leaves then KVs(t.leaves[t.at[all[k]]].recs) else [])
    ensures BarsOf(t, all[..k + 1]) == BarsOf(t, all[..k]) + (if all[k] in t.bars then [all[k]] else [])
  {
    assert all[..k + 1] == all[..k] + [all[k]];
    RecordsConcat(t, all[..k], [all[k]]);
    BarsConcat(t, all[..k], [all[k]]);
  }

  /** Past a path at whose records the callback does not stop. */
  lemma PassPath(img: Image, t: Trie, hash: Bytes -> Hash, quit: KV -> bool, c: Cursor, k: nat) returns (n: nat)
    requires Shape(t, hash) && Holds(img, t) && Arrived(t, c, k) && Clean(t, k)
    requires NoneQuit(quit, RecordsOf(t, Preorder(t, [])[..k + 1]))
    ensures |c.bars| == |c.next|
    ensures if Preorder(t, [])[k] in t.bars && |BarsOf(t, Preorder(t, [])[..k])| == HASH_LENGTH
            then RunFor(img, quit, More(c), n) == Finished(DataError, c.out)
            else After(t, quit, RunFor(img, quit, More(c), n), k + 1)
  {
    hide Preorder, RecordsOf, BarsOf, Step, Open, KVs, Shape, Holds, After, Seek, AtLoad;
    var all := Preorder(t, []);
    var q := all[k];
    var ps, pos :| AtLoad(t, c, all[..k], ps, pos, q, 0);
    LoadPaired(t, c, all[..k], ps, pos, q);
    RecordsPush(t, all, k);
    assert NoneQuit(quit, RecordsOf(t, all[..k])) by { assert RecordsOf(t, all[..k]) <= RecordsOf(t, all[..k + 1]); }
    if q in t.bars {
      LoadBar(img, t, hash, quit, c, all[..k], ps, pos, q);
      n := 1;
    } else {
      ChainPasses(t, hash, quit, all, k, c, ps, pos);
      n := LoadChain(img, t, hash, quit, c, all[..k], ps, pos, q, 0);
    }
  }

  lemma LoadPaired(t: Trie, c: Cursor, visited: seq<Bytes>, ps: seq<Bytes>, pos: seq<nat>, q: Bytes)
    requires AtLoad(t, c, visited, ps, pos, q, 0)
    ensures |c.bars| == |c.next| && ps == BarsOf(t, visited)
    ensures q !in t.bars ==> q in t.at && t.at[q] in t.leaves
  {
    hide Preorder, BarsOf, Pending;
  }

  lemma ChainPasses(t: Trie, hash: Bytes -> Hash, quit: KV -> bool, all: seq<Bytes>, k: nat, c: Cursor, ps: seq<Bytes>, pos: seq<nat>)
    requires Shape(t, hash) && all == Preorder(t, []) && k < |all| && all[k] !in t.bars && AtLoad(t, c, all[..k], ps, pos, all[k], 0)
    requires NoneQuit(quit, RecordsOf(t, all[..k + 1]))
    ensures var kvs := KVs(t.leaves[t.at[all[k]]].recs);
      NoneQuit(quit, kvs) && After(t, quit, Seek(c.bars, c.next, RecordsOf(t, all[..k]) + kvs), k + 1)
  {
    hide Preorder, RecordsOf, BarsOf, Open, KVs, Pending, Stacked, Shape, After, Seek;
    ChainDone(t, hash, all[..k], ps, pos, c.bars, c.next, all[k]);
    var kvs := KVs(t.leaves[t.at[all[k]]].recs);
    assert all[..k] + [all[k]] == all[..k + 1];
    var recs := RecordsOf(t, all[..k]);
    assert recs + kvs == RecordsOf(t, all[..k + 1]);
    forall i | 0 <= i < |kvs| ensures !quit(kvs[i]) { assert (recs + kvs)[|recs| + i] == kvs[i]; }
    SeekAfter(t, hash, quit, all[..k + 1], ps, pos, c.bars, c.next, RecordsOf(t, all[..k + 1]));
  }

  /** In ascending order, what lies between a path and one below it is below it too. */
  lemma Convex(p: Bytes, x: Bytes, y: Bytes)
    requires Before(p, x) && Before(x, y) && Under(p, y)
    ensures Under(p, x)
  {
    var i: nat :| BeforeAt(p, x, i);
    var j: nat :| BeforeAt(x, y, j);
  }

  lemma CleanBefore(t: Trie, hash: Bytes -> Hash, k: nat)
    requires Shape(t, hash) && Clean(t, k + 1)
    ensures Clean(t, k)
  {
    var all := Preorder(t, []);
    PreorderFacts(t, hash, []);
    RecordsPush(t, all, k);
    hide Preorder, BarsOf, RecordsOf, Shape;
    forall p | p in BarsOf(t, all[..k]) ensures LastOpen(t, p, k) {
      assert p in BarsOf(t, all[..k + 1]) && LastOpen(t, p, k + 1);
      BarFrom(t, all[..k], p);
      var i :| 0 <= i < k && all[i] == p;
      if Ptr(t, p + [255]) != 0 { Convex(p, all[k], all[k + 1]); }
    }
  }

  /** An empty tree has no paths. */
  lemma NoPaths(t: Trie, hash: Bytes -> Hash)
    requires Shape(t, hash) && Ptr(t, []) == 0
    ensures Preorder(t, []) == []
  {
    PtrUsed(t, hash, []);
  }

  lemma NothingYet(t: Trie)
    ensures RecordsOf(t, []) == [] && BarsOf(t, []) == []
  {
  }

  lemma NothingVisited(t: Trie)
    ensures Between(t, [], [], [], Preorder(t, []), [], [])
  {
    hide Preorder, Pending, BarsOf, RecordsOf, StackedAt, CursorAt, Sheltered;
    NothingYet(t);
    PendingNone(t, [], []);
    assert [] + Preorder(t, []) + [] == Preorder(t, []);
  }

  lemma FirstLoad(img: Image, t: Trie, hash: Bytes -> Hash)
    requires Shape(t, hash) && Holds(img, t) && img.treeRoot != 0
    ensures Arrived(t, Cursor(img.treeRoot, [], [], []), 0)
  {
    PtrUsed(t, hash, []);
    PreorderHead(t, hash, []);
    NothingYet(t);
    NothingVisited(t);
    hide Shape, Preorder, RecordsOf, BarsOf, Between;
    EntryLoads(t, hash, Cursor(img.treeRoot, [], [], []), [], [], [], []);
    assert Preorder(t, [])[..0] == [];
  }

  lemma ArriveFirst(img: Image, t: Trie, hash: Bytes -> Hash, quit: KV -> bool)
    requires Shape(t, hash) && Holds(img, t)
    ensures After(t, quit, Begin(img), 0) && Clean(t, 0)
  {
    CleanAtStart(t);
    if img.treeRoot == 0 {
      NoPaths(t, hash);
      NothingYet(t);
    } else {
      FirstLoad(img, t, hash);
      hide Shape, Preorder, RecordsOf, BarsOf, Arrived;
    }
  }

  lemma CleanAtStart(t: Trie)
    ensures Clean(t, 0)
  {
    NothingYet(t);
    assert Preorder(t, [])[..0] == [];
  }

  lemma OnePathOn(img: Image, t: Trie, hash: Bytes -> Hash, quit: KV -> bool, r: Trace, k: nat) returns (n: nat)
    requires Shape(t, hash) && Holds(img, t) && Paired(r) && After(t, quit, r, k)
    requires Clean(t, k) && Clean(t, k + 1) && NoneQuit(quit, RecordsOf(t, Preorder(t, [])[..k + 1]))
    ensures After(t, quit, RunFor(img, quit, r, n), k + 1)
  {
    hide Preorder, RecordsOf, BarsOf, Shape, Holds, Open, Step, RunFor, KVs, Begin, Arrived, Doomed;
    n := PassPath(img, t, hash, quit, r.c, k);
    RecordsPush(t, Preorder(t, []), k);
  }

  /** On any tree, with any callback: as long as the first k paths are clean and nothing stops it,
      the run comes to the k-th path with everything before it reported. */
  lemma {:induction false} Arrive(img: Image, t: Trie, hash: Bytes -> Hash, quit: KV -> bool, k: nat) returns (n: nat)
    requires Shape(t, hash) && Holds(img, t) && Clean(t, k) && NoneQuit(quit, RecordsOf(t, Preorder(t, [])[..k]))
    ensures After(t, quit, RunFor(img, quit, Begin(img), n), k)
  {
    hide Preorder, RecordsOf, BarsOf, Shape, Holds, Open, Step, KVs, Begin, After;
    if k == 0 {
      n := 0;
      ArriveFirst(img, t, hash, quit);
    } else {
      hide RunFor;
      CleanBefore(t, hash, k - 1);
      RecordsPrefix(t, Preorder(t, []), k - 1, k);
      var m := Arrive(img, t, hash, quit, k - 1);
      n := OnePathOn(img, t, hash, quit, RunFor(img, quit, Begin(img), m), k - 1);
      RunAdd(img, quit, Begin(img), m, n);
      n := m + n;
    }
  }

  /** The stop itself. */
  lemma {:induction false} UpToStop(quit: KV -> bool, a: seq<KV>, b: seq<KV>)
    requires !NoneQuit(quit, a)
    ensures UpTo(quit, a + b) == UpTo(quit, a)
  {
    assert (a + b)[1..] == a[1..] + b;
    if !quit(a[0]) {
      var i :| 0 <= i < |a| && quit(a[i]);
      assert a[1..][i - 1] == a[i];
      UpToStop(quit, a[1..], b);
    }
  }

  lemma StopRecords(t: Trie, quit: KV -> bool, k: nat)
    requires Stops(t, quit, k)
    ensures UpTo(quit, AllRecords(t)) == RecordsOf(t, Preorder(t, [])[..k]) +
      if k < |Preorder(t, [])| then UpTo(quit, KVs(t.leaves[t.at[Preorder(t, [])[k]]].recs)) else []
  {
    var all := Preorder(t, []);
    hide Preorder, RecordsOf, KVs;
    if k < |all| {
      var head, kvs, tail := RecordsOf(t, all[..k]), KVs(t.leaves[t.at[all[k]]].recs), RecordsOf(t, all[k + 1..]);
      RecordsPush(t, all, k);
      RecordsConcat(t, all[..k + 1], all[k + 1..]);
      assert all[..k + 1] + all[k + 1..] == all;
      Associate(head, kvs, tail);
      UpToConcat(quit, head, kvs + tail);
      UpToStop(quit, kvs, tail);
    } else {
      assert all[..k] == all;
      UpToAll(quit, RecordsOf(t, all));
    }
  }

  /** A run whose stop is clean ends well there. */
  lemma StopReached(img: Image, t: Trie, hash: Bytes -> Hash, quit: KV -> bool, k: nat) returns (n: nat)
    requires Shape(t, hash) && Holds(img, t) && Stops(t, quit, k) && Clean(t, k)
    ensures RunFor(img, quit, Begin(img), n) == Finished(OK, UpTo(quit, AllRecords(t)))
  {
    hide Preorder, RecordsOf, BarsOf, Holds, Open, Step, RunFor, KVs, Begin, Shape, Pending, Stacked, AtLoad;
    var all := Preorder(t, []);
    StopRecords(t, quit, k);
    n := Arrive(img, t, hash, quit, k);
    if k < |all| {
      var m := StopChain(img, t, hash, quit, RunFor(img, quit, Begin(img), n).c, k);
      RunAdd(img, quit, Begin(img), n, m);
      n := n + m;
    } else {
      assert all[..k] == all;
    }
  }

  lemma StopChain(img: Image, t: Trie, hash: Bytes -> Hash, quit: KV -> bool, c: Cursor, k: nat) returns (n: nat)
    requires Shape(t, hash) && Holds(img, t) && Arrived(t, c, k) && StopsIn(t, quit, Preorder(t, [])[k])
    ensures |c.bars| == |c.next|
    ensures RunFor(img, quit, More(c), n) ==
      Finished(OK, RecordsOf(t, Preorder(t, [])[..k]) + UpTo(quit, KVs(t.leaves[t.at[Preorder(t, [])[k]]].recs)))
  {
    var all := Preorder(t, []);
    var ps, pos :| AtLoad(t, c, all[..k], ps, pos, all[k], 0);
    assert ChainPath(t, all[k]);
    hide Preorder, RecordsOf, BarsOf, Holds, RunFor, KVs, Shape, Pending, Stacked;
    n := LoadChain(img, t, hash, quit, c, all[..k], ps, pos, all[k], 0);
  }

  lemma {:induction false} SomeStop(t: Trie, quit: KV -> bool, k: nat) returns (j: nat)
    requires k <= |Preorder(t, [])| && NoneQuit(quit, RecordsOf(t, Preorder(t, [])[..k]))
    ensures Stops(t, quit, j)
    decreases |Preorder(t, [])| - k
  {
    var all := Preorder(t, []);
    hide Preorder, RecordsOf, KVs;
    if k == |all| || StopsIn(t, quit, all[k]) {
      j := k;
    } else {
      RecordsPush(t, all, k);
      j := SomeStop(t, quit, k + 1);
    }
  }

  /** Clean up to the j-th path, but not past it. */
  ghost predicate LastClean(t: Trie, j: nat) {
    Clean(t, j) && !Clean(t, j + 1)
  }

  lemma {:induction false} FirstUnclean(t: Trie, k: nat) returns (j: nat)
    requires k <= |Preorder(t, [])| && !Clean(t, k)
    ensures j < k && LastClean(t, j)
  {
    hide Clean, Preorder;
    if k == 0 {
      CleanAtStart(t);
    } else if Clean(t, k - 1) {
      j := k - 1;
    } else {
      j := FirstUnclean(t, k - 1);
    }
  }

  lemma RecordsPrefix(t: Trie, all: seq<Bytes>, j: nat, k: nat)
    requires j <= k <= |all|
    ensures RecordsOf(t, all[..j]) <= RecordsOf(t, all[..k])
    ensures |BarsOf(t, all[..j])| <= |BarsOf(t, all[..k])|
  {
    assert all[..k] == all[..j] + all[..k][j..];
    RecordsConcat(t, all[..j], all[..k][j..]);
    BarsConcat(t, all[..j], all[..k][j..]);
  }

  /** A run that is no longer clean before its stop never ends well. */
  lemma UncleanNeverEnds(img: Image, t: Trie, hash: Bytes -> Hash, quit: KV -> bool, j: nat, n: nat)
    requires Shape(t, hash) && Holds(img, t) && j < |Preorder(t, [])|
    requires NoneQuit(quit, RecordsOf(t, Preorder(t, [])[..j + 1])) && LastClean(t, j)
    ensures !EndsWell(img, quit, n)
  {
    hide Preorder, RecordsOf, BarsOf, Shape, Holds, Open, Step, RunFor, KVs, Begin, Doomed, Arrived;
    var all := Preorder(t, []);
    RecordsPrefix(t, all, j, j + 1);
    var m := Arrive(img, t, hash, quit, j);
    var c := RunFor(img, quit, Begin(img), m).c;
    var m' := PassPath(img, t, hash, quit, c, j);
    RunAdd(img, quit, Begin(img), m, m');
    RecordsPush(t, all, j);
    var r := RunFor(img, quit, Begin(img), m + m');
    assert r.More? ==> Doomed(t, quit, r.c);
    if EndsWell(img, quit, n) {
      SameEnd(img, quit, n, m + m');
      if r.More? { DoomedRun(img, t, hash, quit, r.c, n); }
    }
  }

  /** The traversal of any tree with any callback ends well exactly when it is clean up to its stop:
      at most 32 bars come before, and those of them that use their last slot lie above the path
      at which it stops. It has then reported every record in order, up to the one it stops at. */
  lemma EnumExactly(img: Image, t: Trie, hash: Bytes -> Hash, quit: KV -> bool)
    requires Shape(t, hash) && Holds(img, t)
    ensures (exists n :: EndsWell(img, quit, n)) <==> exists k :: Stops(t, quit, k) && Clean(t, k)
    ensures forall n :: EndsWell(img, quit, n) ==> RunFor(img, quit, Begin(img), n) == Finished(OK, UpTo(quit, AllRecords(t)))
  {
    NothingYet(t);
    hide Preorder, RecordsOf, Shape, Holds, Clean, RunFor, UpTo;
    assert Preorder(t, [])[..0] == [];
    var k := SomeStop(t, quit, 0);
    if Clean(t, k) {
      var m := StopReached(img, t, hash, quit, k);
      assert EndsWell(img, quit, m);
      forall n | EndsWell(img, quit, n) ensures RunFor(img, quit, Begin(img), n) == Finished(OK, UpTo(quit, AllRecords(t))) {
        SameEnd(img, quit, m, n);
      }
    } else {
      var j := FirstUnclean(t, k);
      RecordsPrefix(t, Preorder(t, []), j + 1, k);
      forall n ensures !EndsWell(img, quit, n) { UncleanNeverEnds(img, t, hash, quit, j, n); }
      if k': nat :| Stops(t, quit, k') && Clean(t, k') {
        var m := StopReached(img, t, hash, quit, k');
        UncleanNeverEnds(img, t, hash, quit, j, m);
      }
    }
  }

  // ---------------------------------------------------------------- trees without wrap-around

  /** The stack fits, and no bar has its last slot in use. */
  ghost predicate Enumerable(t: Trie) {
    |t.bars| <= HASH_LENGTH && forall p :: p in t.bars ==> Ptr(t, p + [255]) == 0
  }

  lemma EnumerableClean(t: Trie, hash: Bytes -> Hash, k: nat)
    requires Shape(t, hash) && k <= |Preorder(t, [])|
    ensures Enumerable(t) ==> Clean(t, k)
    ensures k == |Preorder(t, [])| && Clean(t, k) ==> Enumerable(t)
  {
    var all := Preorder(t, []);
    AllBars(t, hash);
    RecordsPrefix(t, all, k, |all|);
    hide Preorder, Shape, BarsOf;
    assert all[..|all|] == all;
    if Enumerable(t) {
      forall p | p in BarsOf(t, all[..k]) ensures LastOpen(t, p, k) { BarFrom(t, all[..k], p); }
    }
    if k == |all| && Clean(t, k) {
      forall p | p in t.bars ensures Ptr(t, p + [255]) == 0 { assert p in BarsOf(t, all[..k]) && LastOpen(t, p, k); }
    }
  }

  /** The enumeration ends well without a stop only on trees of at most 32 bars none of which has
      its last slot in use, and then it has reported every record. */
  lemma EnumExact(img: Image, t: Trie, hash: Bytes -> Hash, quit: KV -> bool, n: nat)
    requires Shape(t, hash) && Holds(img, t) && forall kv :: !quit(kv)
    ensures var end := RunFor(img, quit, Begin(img), n);
      end.Finished? && end.status == OK ==> Enumerable(t) && end.out == AllRecords(t)
  {
    hide Preorder, RecordsOf, Shape, Holds, Clean, RunFor, UpTo, KVs;
    if EndsWell(img, quit, n) {
      EnumExactly(img, t, hash, quit);
      var k: nat :| Stops(t, quit, k) && Clean(t, k);
      EnumerableClean(t, hash, k);
      UpToAll(quit, AllRecords(t));
    }
  }

  /** On such a tree the enumeration ends well after finitely many loads, whatever the callback. */
  lemma EnumEnds(img: Image, t: Trie, hash: Bytes -> Hash, quit: KV -> bool) returns (n: nat)
    requires Shape(t, hash) && Holds(img, t) && Enumerable(t)
    ensures RunFor(img, quit, Begin(img), n) == Finished(OK, UpTo(quit, AllRecords(t)))
  {
    NothingYet(t);
    assert Preorder(t, [])[..0] == [];
    var k := SomeStop(t, quit, 0);
    EnumerableClean(t, hash, k);
    n := StopReached(img, t, hash, quit, k);
  }

  /** With a callback that never stops it, the enumeration ends well exactly on trees of at most
      32 bars none of which has its last slot in use, and exactly then it reports every record. */
  lemma EnumIff(img: Image, t: Trie, hash: Bytes -> Hash, quit: KV -> bool)
    requires Shape(t, hash) && Holds(img, t) && forall kv :: !quit(kv)
    ensures Enumerable(t) <==> exists n :: EndsWell(img, quit, n)
    ensures Enumerable(t) <==> exists n: nat :: RunFor(img, quit, Begin(img), n) == Finished(OK, AllRecords(t))
  {
    if Enumerable(t) {
      var n := EnumEnds(img, t, hash, quit);
      UpToAll(quit, AllRecords(t));
      assert EndsWell(img, quit, n);
    }
    if n :| EndsWell(img, quit, n) { EnumExact(img, t, hash, quit, n); }
    if n: nat :| RunFor(img, quit, Begin(img), n) == Finished(OK, AllRecords(t)) { assert EndsWell(img, quit, n); }
  }

  /** butter_data_enum on a store: every record exactly once, group by group in ascending order
      of their hashes and in chain order within a group, up to where the callback stops it. */
  method EnumStore(store: Store, quit: KV -> bool) returns (status: Status, out: seq<KV>, ghost hs: seq<Hash>)
    requires store.Valid() && Enumerable(store.t)
    ensures status == OK && out == UpTo(quit, GroupsOf(store.Contents(), hs))
    ensures AscendingHashes(hs) && forall h :: h in hs <==> h in store.Contents()
  {
    ghost var n := EnumEnds(store.vol.img, store.t, store.hash, quit);
    RecordsInOrder(store.t, store.hash);
    hs := HashesOf(store.t, Preorder(store.t, []));
    status, out := Enumerate(store.vol.img, quit, n);
  }
}
