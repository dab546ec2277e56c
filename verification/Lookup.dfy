/** Lookup (src/lookup.c) on an arbitrary file: the descent by hash bytes, the scan of the
    chain, and what is collected on the way. */
module Lookups {
  import opened Layout
  import opened FreeProgram
  import opened VolumeManager
  import opened TrieShape

  /** How a descent ends: starts and cnts of the bars on the path, and the place behind them. */
  datatype Descent = Descent(starts: seq<nat>, cnts: seq<nat>, loc: nat, bad: bool)

  /** What lookup leaves in the request. */
  datatype Info = Info(
    status: Status, starts: seq<nat>, cnts: seq<nat>,
    dStart: nat, dPrev: nat, dNext: nat, firstEx: nat, isEx: bool, blkLength: nat,
    dKey: Option<Bytes>, matched: bool, value: Bytes)

  function NoInfo(status: Status, d: Descent): Info {
    Info(status, d.starts, d.cnts, 0, 0, 0, 0, false, 0, None, false, [])
  }

  /** The rest of the descent from loc. A bar below depth 31 sends the C code past the ends
      of its arrays; here it is bad, like a pointer to no block. */
  function Walk(img: Image, loc: nat, h: Hash, starts: seq<nat>, cnts: seq<nat>): Descent
    requires |starts| <= HASH_LENGTH
    decreases HASH_LENGTH - |starts|
  {
    if loc == 0 then Descent(starts, cnts, 0, false)
    else if loc !in img.blocks || img.blocks[loc].Spare? then Descent(starts, cnts, loc, true)
    else if !img.blocks[loc].Bar? then Descent(starts, cnts, loc, false)
    else if |starts| == HASH_LENGTH then Descent(starts, cnts, loc, true)
    else
      var bar := img.blocks[loc];
      Walk(img, bar.jump[h[|starts|]], h, starts + [loc], cnts + [bar.cnt])
  }

  /** Keys are compared by length, then by content; a key of another length is loaded only
      on demand, and only from a Data block. */
  function LoadedKey(key: Bytes, wanted: Bytes, load: bool): Option<Bytes> {
    if |key| == |wanted| || load then Some(key) else None
  }

  predicate BadHeader(b: Block)
    requires b.Data? || b.DataEx?
  {
    b.blkLength < DISK_SIZE_UNIT || |b.key| == 0
  }

  /** The rest of the scan from loc, after idx DataEx blocks. */
  function Scan(img: Image, d: Descent, loc: nat, prev: nat, idx: nat, wanted: Bytes, load: bool): Info
    requires idx <= HASH_COLLISION_MAX
    decreases HASH_COLLISION_MAX - idx
  {
    var first := if idx == 0 then 0 else d.loc;
    if loc !in img.blocks then NoInfo(DataError, d)
    else
      match img.blocks[loc]
      case Data(blkLength, key, value) =>
        if BadHeader(img.blocks[loc]) then NoInfo(DataError, d)
        else
          var matched := key == wanted;
          Info(if matched then OK else NotFound, d.starts, d.cnts,
               loc, prev, 0, first, false, blkLength, LoadedKey(key, wanted, load), matched, value)
      case DataEx(blkLength, next, key, value) =>
        if idx == HASH_COLLISION_MAX || BadHeader(img.blocks[loc]) then NoInfo(DataError, d)
        else if key == wanted then
          Info(OK, d.starts, d.cnts, loc, prev, next, d.loc, true, blkLength, Some(key), true, value)
        else if next == 0 then
          Info(NotFound, d.starts, d.cnts, loc, prev, next, d.loc, true, blkLength, LoadedKey(key, wanted, false), false, value)
        else Scan(img, d, next, loc, idx + 1, wanted, load)
      case _ => NoInfo(DataError, d)
  }

  /** What follows the descent. A chain head above depth 32 is an error. */
  function AfterWalk(img: Image, d: Descent, wanted: Bytes, load: bool): Info {
    if d.bad then NoInfo(DataError, d)
    else if d.loc == 0 then NoInfo(NotFound, d)
    else if IsDataEx(img, d.loc) && |d.starts| != HASH_LENGTH then NoInfo(DataError, d)
    else Scan(img, d, d.loc, 0, 0, wanted, load)
  }

  /** Lookup as one function of the file. */
  function LookupSpec(img: Image, root: nat, h: Hash, wanted: Bytes, load: bool): Info {
    AfterWalk(img, Walk(img, root, h, [], []), wanted, load)
  }

  lemma {:induction false} WalkBounds(img: Image, loc: nat, h: Hash, starts: seq<nat>, cnts: seq<nat>)
    requires |starts| == |cnts| <= HASH_LENGTH
    ensures var d := Walk(img, loc, h, starts, cnts);
      && |starts| <= |d.starts| == |d.cnts| <= HASH_LENGTH
      && (!d.bad && d.loc != 0 ==> d.loc in img.blocks && (img.blocks[d.loc].Data? || img.blocks[d.loc].DataEx?))
    decreases HASH_LENGTH - |starts|
  {
    if loc != 0 && loc in img.blocks && img.blocks[loc].Bar? && |starts| < HASH_LENGTH {
      var bar := img.blocks[loc];
      WalkBounds(img, bar.jump[h[|starts|]], h, starts + [loc], cnts + [bar.cnt]);
    }
  }

  /** Whatever the file, a scan that does not fail stops at a data block of at least 32 bytes with a
      key, and it succeeds exactly if that is the wanted key; its value is then the one found. */
  lemma {:induction false} ScanSound(img: Image, d: Descent, loc: nat, prev: nat, idx: nat, wanted: Bytes, load: bool)
    requires idx <= HASH_COLLISION_MAX
    ensures var info := Scan(img, d, loc, prev, idx, wanted, load);
      && (info.status == OK || info.status == NotFound || info.status == DataError)
      && (info.status != DataError ==>
           && info.dStart in img.blocks && (img.blocks[info.dStart].Data? || img.blocks[info.dStart].DataEx?)
           && 32 <= img.blocks[info.dStart].blkLength == info.blkLength && |img.blocks[info.dStart].key| >= 1
           && info.value == img.blocks[info.dStart].value
           && (info.status == OK <==> img.blocks[info.dStart].key == wanted))
    decreases HASH_COLLISION_MAX - idx
  {
    if IsDataEx(img, loc) && img.blocks[loc].key != wanted && img.blocks[loc].next != 0 && idx < HASH_COLLISION_MAX {
      ScanSound(img, d, img.blocks[loc].next, loc, idx + 1, wanted, load);
    }
  }

  /** Blocks that are too short or have no key are data errors, even where the key would match. */
  lemma DamagedBlocks(img: Image, h: Hash, wanted: Bytes, load: bool)
    requires 32 in img.blocks && (img.blocks[32] == Data(31, wanted, []) || img.blocks[32] == Data(32, [], []))
    ensures LookupSpec(img, 32, h, wanted, load).status == DataError
  {
    assert Walk(img, 32, h, [], []) == Descent([], [], 32, false);
  }

  /** The i/o requests of a scan that has just read the first header bytes at loc: the rest of the
      header, the key if it is worth reading, and the way to the next block. */
  function ScanRequests(img: Image, loc: nat, idx: nat, wanted: Bytes, load: bool): nat
    requires idx <= HASH_COLLISION_MAX
    decreases HASH_COLLISION_MAX - idx
  {
    if loc !in img.blocks then 0
    else
      match img.blocks[loc]
      case Data(_, key, _) =>
        if BadHeader(img.blocks[loc]) then 1 else 1 + (if LoadedKey(key, wanted, load).Some? then 1 else 0)
      case DataEx(_, next, key, _) =>
        if idx == HASH_COLLISION_MAX then 0
        else if BadHeader(img.blocks[loc]) then 1
        else 1 + (if |key| == |wanted| then 1 else 0)
             + (if key == wanted || next == 0 then 0 else 2 + ScanRequests(img, next, idx + 1, wanted, load))
      case _ => 0
  }

  /** The i/o requests of a lookup from loc on, below that many bars: a seek and a header read for
      every block, one more seek and read for every bar. */
  function Requests(img: Image, loc: nat, h: Hash, depth: nat, wanted: Bytes, load: bool): nat
    requires depth <= HASH_LENGTH
    decreases HASH_LENGTH - depth
  {
    if loc == 0 then 0
    else if IsBar(img, loc) then
      if depth == HASH_LENGTH then 2 else 4 + Requests(img, img.blocks[loc].jump[h[depth]], h, depth + 1, wanted, load)
    else if IsDataEx(img, loc) && depth != HASH_LENGTH then 2
    else 2 + ScanRequests(img, loc, 0, wanted, load)
  }

  /** The most i/o requests one lookup makes, by the bars on its path: a seek and a header
      read for every block, one more seek and read for every bar; per DataEx block the rest
      of the header, the key, and the way to the next block; for the Data block the rest of
      the header and the key. */
  const MAX_IO: nat := 164

  lemma {:induction false} ScanRequestsBound(img: Image, loc: nat, idx: nat, wanted: Bytes, load: bool)
    requires idx <= HASH_COLLISION_MAX
    ensures ScanRequests(img, loc, idx, wanted, load) <= 4 * (HASH_COLLISION_MAX - idx) + 2
    decreases HASH_COLLISION_MAX - idx
  {
    if IsDataEx(img, loc) && idx < HASH_COLLISION_MAX {
      ScanRequestsBound(img, img.blocks[loc].next, idx + 1, wanted, load);
    }
  }

  lemma {:induction false} RequestsBound(img: Image, loc: nat, h: Hash, depth: nat, wanted: Bytes, load: bool)
    requires depth <= HASH_LENGTH
    ensures Requests(img, loc, h, depth, wanted, load) <= 4 * (HASH_LENGTH - depth) + 4 * HASH_COLLISION_MAX + 4
    decreases HASH_LENGTH - depth
  {
    if IsBar(img, loc) {
      if depth < HASH_LENGTH { RequestsBound(img, img.blocks[loc].jump[h[depth]], h, depth + 1, wanted, load); }
    } else {
      ScanRequestsBound(img, loc, 0, wanted, load);
    }
  }

  /** butter_pt_kv_lookup, counting its i/o requests. */
  method Lookup(img: Image, root: nat, h: Hash, wanted: Bytes, load: bool) returns (info: Info, ios: nat)
    ensures info == LookupSpec(img, root, h, wanted, load)
    ensures ios == Requests(img, root, h, 0, wanted, load) <= MAX_IO
  {
    RequestsBound(img, root, h, 0, wanted, load);
    var loc: nat := root;
    var starts: seq<nat>, cnts: seq<nat> := [], [];
    ios := 0;
    // the descent; hash_branch_depth is |starts|
    while true
      invariant |starts| == |cnts| <= HASH_LENGTH
      invariant Walk(img, loc, h, starts, cnts) == Walk(img, root, h, [], [])
      invariant ios + Requests(img, loc, h, |starts|, wanted, load) == Requests(img, root, h, 0, wanted, load)
      decreases HASH_LENGTH - |starts|
    {
      if loc == 0 {
        return NoInfo(NotFound, Descent(starts, cnts, 0, false)), ios;
      }
      ios := ios + 2;
      if loc !in img.blocks || img.blocks[loc].Spare? {
        return NoInfo(DataError, Descent(starts, cnts, loc, true)), ios;
      }
      if !img.blocks[loc].Bar? {
        break;
      }
      if |starts| == HASH_LENGTH {
        return NoInfo(DataError, Descent(starts, cnts, loc, true)), ios;
      }
      ios := ios + 2;
      var bar := img.blocks[loc];
      loc, starts, cnts := bar.jump[h[|starts|]], starts + [loc], cnts + [bar.cnt];
    }
    if img.blocks[loc].DataEx? && |starts| != HASH_LENGTH {
      return NoInfo(DataError, Descent(starts, cnts, loc, false)), ios;
    }
    var more;
    info, more := ScanChain(img, Descent(starts, cnts, loc, false), wanted, load);
    ios := ios + more;
  }

  /** The part of lookup that scans the chain; d_idx is idx. */
  method ScanChain(img: Image, d: Descent, wanted: Bytes, load: bool) returns (info: Info, ios: nat)
    requires d.loc in img.blocks && (img.blocks[d.loc].Data? || img.blocks[d.loc].DataEx?)
    ensures info == Scan(img, d, d.loc, 0, 0, wanted, load)
    ensures ios == ScanRequests(img, d.loc, 0, wanted, load)
  {
    var loc: nat, idx: nat, prev: nat := d.loc, 0, 0;
    ios := 0;
    while img.blocks[loc].DataEx? && idx < HASH_COLLISION_MAX
      invariant idx <= HASH_COLLISION_MAX
      invariant loc in img.blocks && (img.blocks[loc].Data? || img.blocks[loc].DataEx?)
      invariant Scan(img, d, loc, prev, idx, wanted, load) == Scan(img, d, d.loc, 0, 0, wanted, load)
      invariant ios + ScanRequests(img, loc, idx, wanted, load) == ScanRequests(img, d.loc, 0, wanted, load)
      decreases HASH_COLLISION_MAX - idx
    {
      ios := ios + 1;
      var ex := img.blocks[loc];
      if BadHeader(ex) {
        return NoInfo(DataError, d), ios;
      }
      ios := ios + if |ex.key| == |wanted| then 1 else 0;
      if ex.key == wanted {
        return Info(OK, d.starts, d.cnts, loc, prev, ex.next, d.loc, true, ex.blkLength, Some(ex.key), true, ex.value), ios;
      }
      if ex.next == 0 {
        return Info(NotFound, d.starts, d.cnts, loc, prev, ex.next, d.loc, true, ex.blkLength,
                    LoadedKey(ex.key, wanted, false), false, ex.value), ios;
      }
      ios := ios + 2;
      if ex.next !in img.blocks || !(img.blocks[ex.next].Data? || img.blocks[ex.next].DataEx?) {
        return NoInfo(DataError, d), ios;
      }
      prev, loc, idx := loc, ex.next, idx + 1;
    }
    if img.blocks[loc].DataEx? {
      return NoInfo(DataError, d), ios;
    }
    var data := img.blocks[loc];
    ios := ios + 1;
    if BadHeader(data) {
      return NoInfo(DataError, d), ios;
    }
    var dKey := LoadedKey(data.key, wanted, load);
    ios := ios + if dKey.Some? then 1 else 0;
    var matched := data.key == wanted;
    info := Info(if matched then OK else NotFound, d.starts, d.cnts, loc, prev, 0,
                 if idx == 0 then 0 else d.loc, false, data.blkLength, dKey, matched, data.value);
  }
}
