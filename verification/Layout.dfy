/** The file of a Butter database (include/blk.h): the block kinds with their
    on-disk sizes, and the file image that reads, writes and truncation act on.

    A block is written at an offset and covers `Written` bytes from there. Writing
    over any byte of a block destroys it: it can no longer be read back. So a block
    survives an operation only if nothing wrote into its extent. */
module Layout {

  const INFO_SIZE: nat := 32
  const DISK_SIZE_UNIT: nat := 32
  const SPARE_SIZE: nat := 24
  const DATA_SIZE: nat := 16
  const DATA_EX_SIZE: nat := 24
  const BAR_SIZE: nat := 2056
  const SLOTS: nat := 256
  const HASH_LENGTH: nat := 32
  const TWO_31: nat := 0x8000_0000
  const TWO_32: nat := 0x1_0000_0000
  const TWO_64: nat := 0x1_0000_0000_0000_0000

  type Byte = b: int | 0 <= b < 256
  type Bytes = seq<Byte>
  type Hash = h: Bytes | |h| == 32 witness seq(32, _ => 0)
  type Slots = s: seq<nat> | |s| == 256 witness seq(256, _ => 0)

  datatype Block =
    | Spare(length: nat, next: nat)
    | Bar(cnt: nat, jump: Slots)
    | Data(blkLength: nat, key: Bytes, value: Bytes)
    | DataEx(blkLength: nat, next: nat, key: Bytes, value: Bytes)

  datatype Image = Image(size: nat, spareChain: nat, treeRoot: nat, blocks: map<nat, Block>)

  /** The file right after its creation: the info block alone. */
  const EMPTY_IMAGE := Image(INFO_SIZE, 0, 0, map[])

  function Max(a: nat, b: nat): nat { if a < b then b else a }

  /** Bytes a block occupies when it is written, header included. */
  function Written(b: Block): nat {
    match b
    case Spare(_, _) => SPARE_SIZE
    case Bar(_, _) => BAR_SIZE
    case Data(_, key, value) => DATA_SIZE + |key| + |value|
    case DataEx(_, _, key, value) => DATA_EX_SIZE + |key| + |value|
  }

  /** [a, a + n) and [b, b + m) share no byte. */
  predicate Apart(a: nat, n: nat, b: nat, m: nat) {
    a + n <= b || b + m <= a
  }

  /** Write n bytes of something that is not (yet) a whole block. */
  function Clobber(img: Image, a: nat, n: nat): Image {
    img.(size := Max(img.size, a + n),
         blocks := map o | o in img.blocks && Apart(o, Written(img.blocks[o]), a, n) :: img.blocks[o])
  }

  /** Write a whole block. */
  function Put(img: Image, a: nat, b: Block): Image {
    var c := Clobber(img, a, Written(b));
    c.(blocks := c.blocks[a := b])
  }

  predicate IsSpare(img: Image, a: nat) { a in img.blocks && img.blocks[a].Spare? }
  predicate IsBar(img: Image, a: nat) { a in img.blocks && img.blocks[a].Bar? }
  predicate IsDataEx(img: Image, a: nat) { a in img.blocks && img.blocks[a].DataEx? }

  // Writes of a single field inside a block that is already there.

  function SetSpareLength(img: Image, a: nat, length: nat): Image
    requires IsSpare(img, a)
  {
    img.(blocks := img.blocks[a := Spare(length, img.blocks[a].next)])
  }

  function SetSpareNext(img: Image, a: nat, next: nat): Image
    requires IsSpare(img, a)
  {
    img.(blocks := img.blocks[a := Spare(img.blocks[a].length, next)])
  }

  function SetExNext(img: Image, a: nat, next: nat): Image
    requires IsDataEx(img, a)
  {
    var b := img.blocks[a];
    img.(blocks := img.blocks[a := DataEx(b.blkLength, next, b.key, b.value)])
  }

  function SetBarCnt(img: Image, a: nat, cnt: nat): Image
    requires IsBar(img, a)
  {
    img.(blocks := img.blocks[a := img.blocks[a].(cnt := cnt)])
  }

  function SetBarSlot(img: Image, a: nat, i: Byte, target: nat): Image
    requires IsBar(img, a)
  {
    img.(blocks := img.blocks[a := img.blocks[a].(jump := img.blocks[a].jump[i := target])])
  }

  function Truncate(img: Image, size: nat): Image {
    img.(size := size,
         blocks := map o | o in img.blocks && o + Written(img.blocks[o]) <= size :: img.blocks[o])
  }

  /** What a block says its extent is: the step of a walk over the file. */
  function Claimed(b: Block): nat {
    match b
    case Spare(length, _) => length
    case Bar(_, _) => BAR_SIZE
    case Data(blkLength, _, _) => blkLength
    case DataEx(blkLength, _, _, _) => blkLength
  }

  /** The block at a, if it is live and lies whole inside its extent, reads back unchanged. */
  ghost predicate KeptAt(img: Image, img': Image, live: map<nat, nat>, a: nat) {
    a in live && a in img.blocks && Written(img.blocks[a]) <= live[a] ==>
      a in img'.blocks && img'.blocks[a] == img.blocks[a]
  }

  /** Every live block reads back unchanged, and the root of the tree is untouched. */
  ghost predicate Keeps(img: Image, img': Image, live: map<nat, nat>) {
    img'.treeRoot == img.treeRoot && forall a {:trigger KeptAt(img, img', live, a)} :: KeptAt(img, img', live, a)
  }
}
