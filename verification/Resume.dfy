/** Lookup as the program runs it (include/pt.h, src/lookup.c): at every i/o request it returns
    to its caller, and goes on later from the line it left with nothing but the request. */
module Resumption {
  import opened Layout
  import opened FreeProgram
  import opened VolumeManager
  import opened TrieShape
  import opened Lookups
  import opened StoreModel
  import opened TrieLookups

  /** Where a suspended lookup goes on. */
  datatype Line = HeadSeek | HeadRead | JumpSeek | JumpRead | DataHeader | DataKey | ExHeader | ExKey | NextSeek | NextRead

  datatype Kind = BarKind | DataKind | ExKind | OtherKind

  /** The header fields loaded so far; word is the counter of a bar or the length of a block. */
  datatype Head = Head(kind: Kind, word: nat, next: nat, keyLen: nat, valLen: nat)

  /** All that survives a suspension. */
  datatype Req = Req(line: Line, loc: nat, head: Head, idx: nat, mismatch: bool, info: Info)

  /** The file cursor moves with every seek and read. What a finished lookup leaves for its caller
      is its findings and the length of the value in the last header it read. */
  datatype Run = Yield(m: Req, cursor: nat) | Quit(info: Info, valLen: nat, cursor: nat)

  // ---------------------------------------------------------------- what a read finds at the cursor

  const HEAD_SIZE: nat := 8

  function HeadAt(img: Image, cursor: nat): Head {
    if cursor !in img.blocks then Head(OtherKind, 0, 0, 0, 0)
    else match img.blocks[cursor]
      case Spare(_, _) => Head(OtherKind, 0, 0, 0, 0)
      case Bar(cnt, _) => Head(BarKind, cnt, 0, 0, 0)
      case Data(blkLength, _, _) => Head(DataKind, blkLength, 0, 0, 0)
      case DataEx(blkLength, _, _, _) => Head(ExKind, blkLength, 0, 0, 0)
  }

  function SlotOffset(a: nat, i: nat): nat { a + HEAD_SIZE + 8 * i }

  /** A slot of the bar at a; None when the cursor stands anywhere else. */
  function SlotAt(img: Image, a: nat, i: Byte, cursor: nat): Option<nat> {
    if IsBar(img, a) && cursor == SlotOffset(a, i) then Some(img.blocks[a].jump[i]) else None
  }

  /** The lengths (and the link) behind the first eight bytes of the header at a. */
  function RestAt(img: Image, a: nat, head: Head, cursor: nat): Option<Head> {
    if a !in img.blocks || cursor != a + HEAD_SIZE then None
    else match img.blocks[a]
      case Data(_, key, value) => Some(head.(keyLen := |key|, valLen := |value|))
      case DataEx(_, next, key, value) => Some(head.(next := next, keyLen := |key|, valLen := |value|))
      case _ => None
  }

  /** The key of the block at a. */
  function KeyAt(img: Image, a: nat, n: nat, cursor: nat): Option<Bytes> {
    if a !in img.blocks then None
    else match img.blocks[a]
      case Data(_, key, _) => if cursor == a + DATA_SIZE && n == |key| then Some(key) else None
      case DataEx(_, _, key, _) => if cursor == a + DATA_EX_SIZE && n == |key| then Some(key) else None
      case _ => None
  }

  /** The value of the block at a. */
  function ValueAt(img: Image, a: nat, n: nat, cursor: nat): Option<Bytes> {
    if a !in img.blocks then None
    else match img.blocks[a]
      case Data(_, key, value) => if cursor == a + DATA_SIZE + |key| && n == |value| then Some(value) else None
      case DataEx(_, _, key, value) => if cursor == a + DATA_EX_SIZE + |key| && n == |value| then Some(value) else None
      case _ => None
  }

  // ---------------------------------------------------------------- from one suspension to the next

  function Stop(m: Req, status: Status, cursor: nat): Run {
    Quit(m.info.(status := status), m.head.valLen, cursor)
  }

  /** A read that does not find its field where the cursor stands. */
  function Fault(m: Req, cursor: nat): Run {
    Stop(m, InternalError, cursor)
  }

  /** The top of the descent loop. */
  function Descend(m: Req, cursor: nat): Run {
    if m.loc == 0 then Stop(m, NotFound, cursor) else Yield(m.(line := HeadSeek), cursor)
  }

  function EnterData(m: Req, cursor: nat): Run {
    var info := m.info.(dKey := None, dPrev := m.info.dStart, dNext := 0, dStart := m.loc, blkLength := m.head.word, isEx := false);
    if m.idx >= HASH_COLLISION_MAX then Stop(m, DataError, cursor)
    else Yield(m.(line := DataHeader, info := info), cursor)
  }

  function EnterEx(m: Req, cursor: nat): Run {
    var info := m.info.(dKey := None, dPrev := m.info.dStart, dStart := m.loc, blkLength := m.head.word, isEx := true);
    if m.idx >= HASH_COLLISION_MAX then Stop(m, DataError, cursor)
    else Yield(m.(line := ExHeader, info := info), cursor)
  }

  /** On to the next block of the chain. */
  function NextInChain(m: Req, cursor: nat): Run {
    if m.head.next == 0 then Stop(m, NotFound, cursor)
    else Yield(m.(line := NextSeek, loc := m.head.next), cursor)
  }

  /** Serve the pending i/o request, resume, and run to the next request or to the end. */
  function Resume(img: Image, h: Hash, wanted: Bytes, load: bool, m: Req, cursor: nat): Run {
    match m.line
    case HeadSeek => Yield(m.(line := HeadRead), m.loc)
    case HeadRead =>
      var m1 := m.(head := HeadAt(img, cursor));
      var at := cursor + HEAD_SIZE;
      (match m1.head.kind
       case BarKind =>
         if |m.info.starts| >= HASH_LENGTH then Stop(m1, DataError, at)
         else Yield(m1.(line := JumpSeek, info := m.info.(starts := m.info.starts + [m.loc], cnts := m.info.cnts + [m1.head.word])), at)
       case DataKind => EnterData(m1, at)
       case ExKind =>
         var m2 := m1.(info := m.info.(firstEx := m.loc), idx := 0);
         if |m.info.starts| != HASH_LENGTH then Stop(m2, DataError, at) else EnterEx(m2, at)
       case OtherKind => Stop(m1, DataError, at))
    case JumpSeek =>
      if |m.info.starts| == 0 || |m.info.starts| > HASH_LENGTH then Fault(m, cursor)
      else Yield(m.(line := JumpRead), SlotOffset(m.loc, h[|m.info.starts| - 1]))
    case JumpRead =>
      if |m.info.starts| == 0 || |m.info.starts| > HASH_LENGTH then Fault(m, cursor)
      else
        (match SlotAt(img, m.loc, h[|m.info.starts| - 1], cursor)
         case None => Fault(m, cursor)
         case Some(loc) => Descend(m.(loc := loc), cursor + 8))
    case DataHeader =>
      (match RestAt(img, m.loc, m.head, cursor)
       case None => Fault(m, cursor)
       case Some(head) =>
         var m1 := m.(head := head);
         var at := cursor + (DATA_SIZE - HEAD_SIZE);
         if head.word < DISK_SIZE_UNIT || head.keyLen == 0 then Stop(m1, DataError, at)
         else if head.keyLen != |wanted| && !load then Stop(m1, NotFound, at)
         else Yield(m1.(line := DataKey, mismatch := m.mismatch || head.keyLen != |wanted|), at))
    case DataKey =>
      (match KeyAt(img, m.loc, m.head.keyLen, cursor)
       case None => Fault(m, cursor)
       case Some(key) =>
         var m1 := m.(info := m.info.(dKey := Some(key)));
         var at := cursor + m.head.keyLen;
         if m.mismatch || key != wanted then Stop(m1, NotFound, at)
         else Stop(m1.(info := m1.info.(matched := true)), OK, at))
    case ExHeader =>
      (match RestAt(img, m.loc, m.head, cursor)
       case None => Fault(m, cursor)
       case Some(head) =>
         var m1 := m.(head := head, info := m.info.(dNext := head.next));
         var at := cursor + (DATA_EX_SIZE - HEAD_SIZE);
         if head.word < DISK_SIZE_UNIT || head.keyLen == 0 then Stop(m1, DataError, at)
         else if head.keyLen != |wanted| then NextInChain(m1, at)
         else Yield(m1.(line := ExKey), at))
    case ExKey =>
      (match KeyAt(img, m.loc, |wanted|, cursor)
       case None => Fault(m, cursor)
       case Some(key) =>
         var m1 := m.(info := m.info.(dKey := Some(key)));
         var at := cursor + |wanted|;
         if key != wanted then NextInChain(m1, at)
         else Stop(m1.(info := m1.info.(matched := true)), OK, at))
    case NextSeek => Yield(m.(line := NextRead), m.loc)
    case NextRead =>
      var m1 := m.(head := HeadAt(img, cursor));
      var at := cursor + HEAD_SIZE;
      (match m1.head.kind
       case DataKind => EnterData(m1, at)
       case ExKind => EnterEx(m1.(idx := m.idx + 1), at)
       case _ => Stop(m1, DataError, at))
  }

  /** A request filled with zeros. */
  const NEW_INFO := Info(InternalError, [], [], 0, 0, 0, 0, false, 0, None, false, [])

  function Start(root: nat, cursor: nat): Run {
    Descend(Req(HeadSeek, root, Head(OtherKind, 0, 0, 0, 0), 0, false, NEW_INFO), cursor)
  }

  /** At most n suspensions further. */
  function Drive(img: Image, h: Hash, wanted: Bytes, load: bool, r: Run, n: nat): Run
    decreases n
  {
    if n == 0 || r.Quit? then r else Drive(img, h, wanted, load, Resume(img, h, wanted, load, r.m, r.cursor), n - 1)
  }

  // ---------------------------------------------------------------- the uninterrupted lookup

  /** The file offset of the value of a record. */
  function ValueOffset(info: Info, keyLen: nat): nat {
    info.dStart + (if info.isEx then DATA_EX_SIZE else DATA_SIZE) + keyLen
  }

  /** The same status; unless it is an error, the same findings; and after success the cursor
      stands at the first byte of the value, whose length is known. Lookup itself does not read
      the value. */
  ghost predicate Agrees(r: Run, spec: Info, wanted: Bytes) {
    && r.Quit? && r.info.status == spec.status && r.info.starts == spec.starts && r.info.cnts == spec.cnts
    && (spec.status != DataError ==> r.info.(value := []) == spec.(value := []))
    && (spec.status == OK ==> r.cursor == ValueOffset(spec, |wanted|) && r.valLen == |spec.value|)
  }

  /** After n suspensions, and not before. */
  ghost predicate Ends(img: Image, h: Hash, wanted: Bytes, load: bool, r: Run, n: nat, spec: Info) {
    Agrees(Drive(img, h, wanted, load, r, n), spec, wanted) && (n > 0 ==> Drive(img, h, wanted, load, r, n - 1).Yield?)
  }

  lemma Again(img: Image, h: Hash, wanted: Bytes, load: bool, m: Req, cursor: nat, n: nat, spec: Info)
    requires Ends(img, h, wanted, load, Resume(img, h, wanted, load, m, cursor), n, spec)
    ensures Ends(img, h, wanted, load, Yield(m, cursor), n + 1, spec)
  {
  }

  /** The Data block that ends a chain, or is all there is. */
  lemma DataEnds(img: Image, h: Hash, wanted: Bytes, load: bool, d: Descent, m: Req, k: nat) returns (n: nat)
    requires m.loc in img.blocks && img.blocks[m.loc].Data? && m.head == HeadAt(img, m.loc)
    requires k <= HASH_COLLISION_MAX && m.idx < HASH_COLLISION_MAX && !m.mismatch && !m.info.matched
    requires m.info.starts == d.starts && m.info.cnts == d.cnts && m.info.firstEx == if k == 0 then 0 else d.loc
    ensures n == ScanRequests(img, m.loc, k, wanted, load)
    ensures Ends(img, h, wanted, load, EnterData(m, m.loc + HEAD_SIZE), n, Scan(img, d, m.loc, m.info.dStart, k, wanted, load))
  {
    var b := img.blocks[m.loc];
    var spec := Scan(img, d, m.loc, m.info.dStart, k, wanted, load);
    var r := EnterData(m, m.loc + HEAD_SIZE);
    var r1 := Resume(img, h, wanted, load, r.m, r.cursor);
    if r1.Quit? {
      n := 1;
      assert Ends(img, h, wanted, load, r1, 0, spec);
      Again(img, h, wanted, load, r.m, r.cursor, 0, spec);
    } else {
      n := 2;
      var r2 := Resume(img, h, wanted, load, r1.m, r1.cursor);
      assert r2.Quit? && Ends(img, h, wanted, load, r2, 0, spec);
      Again(img, h, wanted, load, r1.m, r1.cursor, 0, spec);
      Again(img, h, wanted, load, r.m, r.cursor, 1, spec);
    }
  }

  /** What the two requests between the blocks of a chain lead to. */
  function AfterNext(img: Image, m: Req): Run {
    var m1 := m.(line := NextRead, loc := m.head.next, head := HeadAt(img, m.head.next));
    match m1.head.kind
    case DataKind => EnterData(m1, m1.loc + HEAD_SIZE)
    case ExKind => EnterEx(m1.(idx := m.idx + 1), m1.loc + HEAD_SIZE)
    case _ => Stop(m1, DataError, m1.loc + HEAD_SIZE)
  }

  lemma ThroughNext(img: Image, h: Hash, wanted: Bytes, load: bool, m: Req, cursor: nat, n: nat, spec: Info)
    requires m.head.next != 0 && Ends(img, h, wanted, load, AfterNext(img, m), n, spec)
    ensures Ends(img, h, wanted, load, NextInChain(m, cursor), n + 2, spec)
  {
  }

  lemma EndsNow(img: Image, h: Hash, wanted: Bytes, load: bool, r: Run, spec: Info)
    requires Agrees(r, spec, wanted)
    ensures Ends(img, h, wanted, load, r, 0, spec)
  {
  }

  /** What the scan makes of a DataEx block without the key. */
  lemma ScanOnward(img: Image, d: Descent, loc: nat, prev: nat, idx: nat, wanted: Bytes, load: bool)
    requires IsDataEx(img, loc) && !BadHeader(img.blocks[loc]) && img.blocks[loc].key != wanted && idx < HASH_COLLISION_MAX
    ensures var b := img.blocks[loc];
      Scan(img, d, loc, prev, idx, wanted, load) ==
        if b.next != 0 then Scan(img, d, b.next, loc, idx + 1, wanted, load)
        else Info(NotFound, d.starts, d.cnts, loc, prev, 0, d.loc, true, b.blkLength, LoadedKey(b.key, wanted, false), false, b.value)
  {
  }

  lemma NoChain(img: Image, d: Descent, loc: nat, prev: nat, idx: nat, wanted: Bytes, load: bool)
    requires idx <= HASH_COLLISION_MAX && HeadAt(img, loc).kind != DataKind && HeadAt(img, loc).kind != ExKind
    ensures Scan(img, d, loc, prev, idx, wanted, load) == NoInfo(DataError, d)
  {
  }

  /** With the header of b and, maybe, its key in the request. */
  function Loaded(m: Req, b: Block, key: Option<Bytes>): Req
    requires b.DataEx?
  {
    m.(head := m.head.(next := b.next, keyLen := |b.key|, valLen := |b.value|), info := m.info.(dNext := b.next, dKey := key))
  }

  /** A DataEx block about to be read, with the chain and the bars so far in the request. */
  ghost predicate AtEx(img: Image, d: Descent, m: Req) {
    && IsDataEx(img, m.loc) && m.head == HeadAt(img, m.loc)
    && m.idx <= HASH_COLLISION_MAX && !m.mismatch && !m.info.matched
    && m.info.starts == d.starts && m.info.cnts == d.cnts && m.info.firstEx == d.loc
  }

  /** A DataEx block that ends the chain for lack of a sound header. */
  lemma BadEx(img: Image, h: Hash, wanted: Bytes, load: bool, d: Descent, m: Req)
    requires AtEx(img, d, m) && m.idx < HASH_COLLISION_MAX && BadHeader(img.blocks[m.loc])
    ensures Ends(img, h, wanted, load, EnterEx(m, m.loc + HEAD_SIZE), 1, Scan(img, d, m.loc, m.info.dStart, m.idx, wanted, load))
  {
  }

  /** A key of another length is not read. */
  lemma SkipKey(img: Image, h: Hash, wanted: Bytes, load: bool, d: Descent, m: Req, n: nat, spec: Info)
    requires AtEx(img, d, m) && m.idx < HASH_COLLISION_MAX && !BadHeader(img.blocks[m.loc]) && |img.blocks[m.loc].key| != |wanted|
    requires var r := EnterEx(m, m.loc + HEAD_SIZE);
      Ends(img, h, wanted, load, NextInChain(Loaded(r.m, img.blocks[m.loc], None), m.loc + DATA_EX_SIZE), n, spec)
    ensures Ends(img, h, wanted, load, EnterEx(m, m.loc + HEAD_SIZE), n + 1, spec)
  {
  }

  /** After the rest of the header, the key. */
  function KeyRequest(img: Image, m: Req): Req
    requires IsDataEx(img, m.loc)
  {
    Loaded(m, img.blocks[m.loc], None).(line := ExKey)
  }

  lemma ReadKeyNext(img: Image, h: Hash, wanted: Bytes, load: bool, d: Descent, m: Req, n: nat, spec: Info)
    requires AtEx(img, d, m) && m.idx < HASH_COLLISION_MAX && !BadHeader(img.blocks[m.loc]) && |img.blocks[m.loc].key| == |wanted|
    requires var m1 := KeyRequest(img, EnterEx(m, m.loc + HEAD_SIZE).m);
      Ends(img, h, wanted, load, Resume(img, h, wanted, load, m1, m.loc + DATA_EX_SIZE), n, spec)
    ensures Ends(img, h, wanted, load, EnterEx(m, m.loc + HEAD_SIZE), n + 2, spec)
  {
  }

  /** The key read from a DataEx block: it is the one, or the chain goes on. */
  lemma KeyRead(img: Image, h: Hash, wanted: Bytes, load: bool, d: Descent, m: Req)
    requires AtEx(img, d, m) && m.idx < HASH_COLLISION_MAX && !BadHeader(img.blocks[m.loc]) && |img.blocks[m.loc].key| == |wanted|
    ensures var b, m1 := img.blocks[m.loc], KeyRequest(img, EnterEx(m, m.loc + HEAD_SIZE).m);
      var r := Resume(img, h, wanted, load, m1, m.loc + DATA_EX_SIZE);
      if b.key == wanted then Ends(img, h, wanted, load, r, 0, Scan(img, d, m.loc, m.info.dStart, m.idx, wanted, load))
      else r == NextInChain(Loaded(m1, b, Some(b.key)), m.loc + DATA_EX_SIZE + |wanted|)
  {
  }

  /** A ninth DataEx block is not read. */
  lemma TooManyEx(img: Image, h: Hash, wanted: Bytes, load: bool, d: Descent, m: Req)
    requires AtEx(img, d, m) && m.idx == HASH_COLLISION_MAX
    ensures Ends(img, h, wanted, load, EnterEx(m, m.loc + HEAD_SIZE), 0, Scan(img, d, m.loc, m.info.dStart, m.idx, wanted, load))
  {
  }

  /** The chain from a DataEx block on. */
  lemma {:induction false} ExEnds(img: Image, h: Hash, wanted: Bytes, load: bool, d: Descent, m: Req) returns (n: nat)
    requires AtEx(img, d, m)
    ensures n == ScanRequests(img, m.loc, m.idx, wanted, load)
    ensures Ends(img, h, wanted, load, EnterEx(m, m.loc + HEAD_SIZE), n, Scan(img, d, m.loc, m.info.dStart, m.idx, wanted, load))
    decreases HASH_COLLISION_MAX - m.idx, 1
  {
    hide Resume, Scan, Drive, Ends;
    var spec := Scan(img, d, m.loc, m.info.dStart, m.idx, wanted, load);
    if m.idx == HASH_COLLISION_MAX {
      n := 0;
      TooManyEx(img, h, wanted, load, d, m);
    } else {
      var b, m0 := img.blocks[m.loc], EnterEx(m, m.loc + HEAD_SIZE).m;
      if BadHeader(b) {
        n := 1;
        BadEx(img, h, wanted, load, d, m);
      } else if |b.key| != |wanted| {
        n := OnwardEnds(img, h, wanted, load, d, Loaded(m0, b, None), m.loc + DATA_EX_SIZE);
        SkipKey(img, h, wanted, load, d, m, n, spec);
        n := n + 1;
      } else {
        KeyRead(img, h, wanted, load, d, m);
        n := 0;
        if b.key != wanted {
          n := OnwardEnds(img, h, wanted, load, d, Loaded(KeyRequest(img, m0), b, Some(b.key)), m.loc + DATA_EX_SIZE + |wanted|);
        }
        ReadKeyNext(img, h, wanted, load, d, m, n, spec);
        n := n + 2;
      }
    }
  }

  /** On from a DataEx block that does not hold the key. */
  lemma {:induction false} OnwardEnds(img: Image, h: Hash, wanted: Bytes, load: bool, d: Descent, m: Req, cursor: nat) returns (n: nat)
    requires IsDataEx(img, m.loc) && !BadHeader(img.blocks[m.loc]) && img.blocks[m.loc].key != wanted
    requires m.idx < HASH_COLLISION_MAX && !m.mismatch && !m.info.matched
    requires m.info.starts == d.starts && m.info.cnts == d.cnts && m.info.firstEx == d.loc
    requires var b := img.blocks[m.loc];
      && m.head.next == b.next == m.info.dNext && m.info.dStart == m.loc && m.info.isEx && m.info.blkLength == b.blkLength
      && m.info.dKey == LoadedKey(b.key, wanted, false)
    ensures n == if m.head.next == 0 then 0 else 2 + ScanRequests(img, m.head.next, m.idx + 1, wanted, load)
    ensures Ends(img, h, wanted, load, NextInChain(m, cursor), n, Scan(img, d, m.loc, m.info.dPrev, m.idx, wanted, load))
    decreases HASH_COLLISION_MAX - m.idx, 0
  {
    hide Resume, Scan, Drive;
    var spec := Scan(img, d, m.loc, m.info.dPrev, m.idx, wanted, load);
    var next := m.head.next;
    ScanOnward(img, d, m.loc, m.info.dPrev, m.idx, wanted, load);
    n := 0;
    if next == 0 {
      EndsNow(img, h, wanted, load, NextInChain(m, cursor), spec);
    } else {
      var m2 := m.(loc := next, line := NextRead, head := HeadAt(img, next));
      if m2.head.kind == DataKind {
        n := DataEnds(img, h, wanted, load, d, m2, m.idx + 1);
      } else if m2.head.kind == ExKind {
        n := ExEnds(img, h, wanted, load, d, m2.(idx := m.idx + 1));
      } else {
        NoChain(img, d, next, m.loc, m.idx + 1, wanted, load);
        EndsNow(img, h, wanted, load, AfterNext(img, m), spec);
      }
      ThroughNext(img, h, wanted, load, m, cursor, n, spec);
      n := n + 2;
    }
  }

  /** The block at the end of the descent. */
  lemma ChainEnds(img: Image, h: Hash, wanted: Bytes, load: bool, m: Req, cursor: nat) returns (n: nat)
    requires m.info == NEW_INFO.(starts := m.info.starts, cnts := m.info.cnts) && m.idx == 0 && !m.mismatch
    requires m.line == HeadRead && m.loc == cursor && m.loc != 0 && !IsBar(img, m.loc)
    requires |m.info.starts| <= HASH_LENGTH
    ensures n + 1 == Requests(img, m.loc, h, |m.info.starts|, wanted, load)
    ensures Ends(img, h, wanted, load, Yield(m, cursor), n,
                 AfterWalk(img, Walk(img, m.loc, h, [], []).(starts := m.info.starts, cnts := m.info.cnts), wanted, load))
  {
    var d := Walk(img, m.loc, h, [], []).(starts := m.info.starts, cnts := m.info.cnts);
    var m1 := m.(head := HeadAt(img, m.loc));
    n := 0;
    if m1.head.kind == DataKind {
      n := DataEnds(img, h, wanted, load, d, m1, 0);
    } else if m1.head.kind == ExKind && |m.info.starts| == HASH_LENGTH {
      n := ExEnds(img, h, wanted, load, d, m1.(info := m.info.(firstEx := m.loc)));
    }
    Again(img, h, wanted, load, m, cursor, n, AfterWalk(img, d, wanted, load));
    n := n + 1;
  }

  /** The descent, from the top of its loop. */
  lemma {:induction false} DescentEnds(img: Image, h: Hash, wanted: Bytes, load: bool, m: Req, cursor: nat) returns (n: nat)
    requires m.info == NEW_INFO.(starts := m.info.starts, cnts := m.info.cnts) && m.idx == 0 && !m.mismatch
    requires |m.info.starts| == |m.info.cnts| <= HASH_LENGTH
    ensures n == Requests(img, m.loc, h, |m.info.starts|, wanted, load)
    ensures Ends(img, h, wanted, load, Descend(m, cursor), n,
                 AfterWalk(img, Walk(img, m.loc, h, m.info.starts, m.info.cnts), wanted, load))
    decreases HASH_LENGTH - |m.info.starts|, 1
  {
    var spec := AfterWalk(img, Walk(img, m.loc, h, m.info.starts, m.info.cnts), wanted, load);
    n := 0;
    if m.loc != 0 {
      var m0, m1 := m.(line := HeadSeek), m.(line := HeadRead);
      if IsBar(img, m.loc) {
        n := BarEnds(img, h, wanted, load, m1);
      } else {
        n := ChainEnds(img, h, wanted, load, m1, m.loc);
      }
      Again(img, h, wanted, load, m0, cursor, n, spec);
      n := n + 1;
    }
  }

  /** One bar of the descent. */
  lemma {:induction false} BarEnds(img: Image, h: Hash, wanted: Bytes, load: bool, m: Req) returns (n: nat)
    requires m.info == NEW_INFO.(starts := m.info.starts, cnts := m.info.cnts) && m.idx == 0 && !m.mismatch
    requires |m.info.starts| == |m.info.cnts| <= HASH_LENGTH
    requires m.line == HeadRead && m.loc != 0 && IsBar(img, m.loc)
    ensures n + 1 == Requests(img, m.loc, h, |m.info.starts|, wanted, load)
    ensures Ends(img, h, wanted, load, Yield(m, m.loc), n,
                 AfterWalk(img, Walk(img, m.loc, h, m.info.starts, m.info.cnts), wanted, load))
    decreases HASH_LENGTH - |m.info.starts|, 0
  {
    var spec := AfterWalk(img, Walk(img, m.loc, h, m.info.starts, m.info.cnts), wanted, load);
    var depth := |m.info.starts|;
    if depth == HASH_LENGTH {
      n := 0;
      Again(img, h, wanted, load, m, m.loc, n, spec);
      n := 1;
    } else {
      var bar := img.blocks[m.loc];
      var r1 := Resume(img, h, wanted, load, m, m.loc);
      var r2 := Resume(img, h, wanted, load, r1.m, r1.cursor);
      var r3 := Resume(img, h, wanted, load, r2.m, r2.cursor);
      n := DescentEnds(img, h, wanted, load, r2.m.(loc := bar.jump[h[depth]]), r2.cursor + 8);
      Again(img, h, wanted, load, r2.m, r2.cursor, n, spec);
      Again(img, h, wanted, load, r1.m, r1.cursor, n + 1, spec);
      Again(img, h, wanted, load, m, m.loc, n + 2, spec);
      n := n + 3;
    }
  }

  lemma {:induction false} DriveOn(img: Image, h: Hash, wanted: Bytes, load: bool, r: Run, m: nat, n: nat)
    requires m <= n && Drive(img, h, wanted, load, r, n).Yield?
    ensures Drive(img, h, wanted, load, r, m).Yield?
    decreases n
  {
    hide Resume;
    if m > 0 && r.Yield? { DriveOn(img, h, wanted, load, Resume(img, h, wanted, load, r.m, r.cursor), m - 1, n - 1); }
  }

  /** Suspended and resumed at every request, with nothing kept but the request, lookup comes to
      the result of the uninterrupted one after exactly as many requests, at most MAX_IO, every
      read finding its field under the cursor, and leaves the cursor at the first byte of the value. */
  lemma ResumedLookup(img: Image, root: nat, h: Hash, wanted: Bytes, load: bool, cursor: nat) returns (n: nat)
    ensures n == Requests(img, root, h, 0, wanted, load) <= MAX_IO
    ensures Agrees(Drive(img, h, wanted, load, Start(root, cursor), n), LookupSpec(img, root, h, wanted, load), wanted)
    ensures forall k: nat :: k < n ==> Drive(img, h, wanted, load, Start(root, cursor), k).Yield?
  {
    n := DescentEnds(img, h, wanted, load, Req(HeadSeek, root, Head(OtherKind, 0, 0, 0, 0), 0, false, NEW_INFO), cursor);
    RequestsBound(img, root, h, 0, wanted, load);
    forall k: nat | k < n ensures Drive(img, h, wanted, load, Start(root, cursor), k).Yield? {
      DriveOn(img, h, wanted, load, Start(root, cursor), k, n - 1);
    }
  }

  // ---------------------------------------------------------------- get

  /** butter_pt_get after its lookup: one more read where the cursor stands, unless there is
      nothing to read or the buffer of the caller is too small. */
  function Fetch(img: Image, r: Run, cap: Option<nat>): (Status, Bytes)
    requires r.Quit?
  {
    if r.info.status != OK then (r.info.status, [])
    else if r.valLen == 0 then (OK, [])
    else if cap.Some? && cap.value < r.valLen then (BufferTooSmall, [])
    else match ValueAt(img, r.info.dStart, r.valLen, r.cursor)
      case None => (InternalError, [])
      case Some(value) => (OK, value)
  }

  /** A successful lookup is at a block with the key it wants. */
  lemma {:induction false} ScanFound(img: Image, d: Descent, loc: nat, prev: nat, idx: nat, wanted: Bytes, load: bool)
    requires idx <= HASH_COLLISION_MAX && Scan(img, d, loc, prev, idx, wanted, load).status == OK
    ensures var info := Scan(img, d, loc, prev, idx, wanted, load);
      ValueAt(img, info.dStart, |info.value|, ValueOffset(info, |wanted|)) == Some(info.value)
    decreases HASH_COLLISION_MAX - idx
  {
    if IsDataEx(img, loc) && img.blocks[loc].key != wanted && img.blocks[loc].next != 0 && idx < HASH_COLLISION_MAX {
      ScanFound(img, d, img.blocks[loc].next, loc, idx + 1, wanted, load);
    }
  }

  /** On a file that holds a trie, the suspended and resumed get answers as the model: the value
      is read where lookup left the cursor. */
  lemma ResumedGet(img: Image, t: Trie, hash: Bytes -> Hash, key: Bytes, cap: Option<nat>, cursor: nat) returns (n: nat)
    requires Shape(t, hash) && Holds(img, t)
    ensures n <= MAX_IO
    ensures var r := Drive(img, hash(key), key, false, Start(img.treeRoot, cursor), n);
      var (st, v) := SpecGet(ModelOf(t), hash(key), key);
      && r.Quit?
      && Fetch(img, r, cap) ==
           if st == OK && cap.Some? && cap.value < |v| then (BufferTooSmall, []) else (st, v)
  {
    hide Drive, Shape, Holds;
    n := ResumedLookup(img, img.treeRoot, hash(key), key, false, cursor);
    HoldsReads(img, t, hash);
    var info := LookupSpec(img, img.treeRoot, hash(key), key, false);
    assert ReadKey(img, hash(key), key) == SpecGet(ModelOf(t), hash(key), key);
    if info.status == OK {
      var d := Walk(img, img.treeRoot, hash(key), [], []);
      ScanFound(img, d, d.loc, 0, 0, key, false);
    }
  }
}
