/** The disk under kernel/fs.c: its layout, the words and bits inside a block, and the
    bitmap.  A block is 512 bytes; buffers are used as if every bread and bwrite reached
    the disk, which module BufferCache justifies. */
module Volume {

  const BSIZE := 512
  const BPB := BSIZE * 8       // bitmap bits per block
  const IPB := 8               // inodes per block: a disk inode takes 64 bytes
  const NDIRECT := 12
  const NINDIRECT := 128
  const MAXFILE := NDIRECT + NINDIRECT
  const TWO_32 := 0x1_0000_0000

  type Byte = bv8

  type Block = b: seq<Byte> | |b| == BSIZE witness Zeros(BSIZE)

  function Zeros(n: nat): (z: seq<Byte>)
    ensures |z| == n && forall k :: 0 <= k < n ==> z[k] == 0
  {
    seq(n, _ => 0)
  }

  const ZERO_BLOCK: Block := Zeros(BSIZE)

  datatype Geometry = Geometry(size: nat, ninodes: nat) {
    /** The first bitmap block, BBLOCK(0, ninodes). */
    function BitmapStart(): nat {
      ninodes / IPB + 3
    }

    /** The first block that can hold file data. */
    function DataStart(): nat {
      BitmapStart() + size / BPB + 1
    }

    predicate Ok() {
      DataStart() <= size < TWO_32
    }
  }

  // ----- bits

  /** `1 << k` for a byte. */
  function Mask(k: nat): (m: Byte)
    requires k < 8
    ensures m == (1 as bv8) << k
  {
    if k == 0 then 1 else if k == 1 then 2 else if k == 2 then 4 else if k == 3 then 8
    else if k == 4 then 16 else if k == 5 then 32 else if k == 6 then 64 else 128
  }

  lemma MaskBits(x: Byte, k: nat, j: nat)
    requires k < 8 && j < 8
    ensures (x | Mask(k)) & Mask(j) != 0 <==> j == k || x & Mask(j) != 0
    ensures (x & !Mask(k)) & Mask(j) != 0 <==> j != k && x & Mask(j) != 0
  {
  }

  predicate BitIn(blk: Block, bi: nat)
    requires bi < BPB
  {
    blk[bi / 8] & Mask(bi % 8) != 0
  }

  function BitPut(blk: Block, bi: nat, v: bool): Block
    requires bi < BPB
  {
    blk[bi / 8 := if v then blk[bi / 8] | Mask(bi % 8) else blk[bi / 8] & !Mask(bi % 8)]
  }

  lemma BitPutIn(blk: Block, bi: nat, v: bool, bj: nat)
    requires bi < BPB && bj < BPB
    ensures BitIn(BitPut(blk, bi, v), bj) == if bj == bi then v else BitIn(blk, bj)
  {
    MaskBits(blk[bi / 8], bi % 8, bj % 8);
    assert bi == 8 * (bi / 8) + bi % 8 && bj == 8 * (bj / 8) + bj % 8;
  }

  // ----- words

  /** The j-th 32-bit word of a block, low byte first. */
  function Word(blk: Block, j: nat): (v: nat)
    requires j < NINDIRECT
    ensures v < TWO_32
  {
    var b := 4 * j;
    (blk[b] as int) + 0x100 * (blk[b + 1] as int) + 0x1_0000 * (blk[b + 2] as int) + 0x100_0000 * (blk[b + 3] as int)
  }

  /** The byte with value `x`, put together from two four-bit digits. */
  function ByteOf(x: int): (y: Byte)
    requires 0 <= x < 0x100
    ensures y as int == x
  {
    JoinDigits(Digit(x / 16), Digit(x % 16));
    (Digit(x / 16) << 4) | Digit(x % 16)
  }

  function Digit(x: int): (y: Byte)
    requires 0 <= x < 16
    ensures y < 16 && y as int == x
  {
    if x == 0 then 0 else if x == 1 then 1 else if x == 2 then 2 else if x == 3 then 3
    else if x == 4 then 4 else if x == 5 then 5 else if x == 6 then 6 else if x == 7 then 7
    else if x == 8 then 8 else if x == 9 then 9 else if x == 10 then 10 else if x == 11 then 11
    else if x == 12 then 12 else if x == 13 then 13 else if x == 14 then 14 else 15
  }

  lemma JoinDigits(a: Byte, b: Byte)
    requires a < 16 && b < 16
    ensures ((a << 4) | b) as int == (a as int) * 16 + (b as int)
  {
  }

  function WordPut(blk: Block, j: nat, v: nat): Block
    requires j < NINDIRECT && v < TWO_32
  {
    var b := 4 * j;
    blk[b := ByteOf(v % 0x100)][b + 1 := ByteOf(v / 0x100 % 0x100)]
       [b + 2 := ByteOf(v / 0x1_0000 % 0x100)][b + 3 := ByteOf(v / 0x100_0000)]
  }

  lemma WordBytes(v: nat)
    requires v < TWO_32
    ensures v ==
        v % 0x100 + 0x100 * (v / 0x100 % 0x100) + 0x1_0000 * (v / 0x1_0000 % 0x100) + 0x100_0000 * (v / 0x100_0000)
  {
  }

  lemma WordPutGet(blk: Block, j: nat, v: nat, k: nat)
    requires j < NINDIRECT && k < NINDIRECT && v < TWO_32
    ensures Word(WordPut(blk, j, v), k) == if k == j then v else Word(blk, k)
  {
    if k == j {
      WordPutSame(blk, j, v);
    } else {
      hide ByteOf;
      var b, blk' := 4 * k, WordPut(blk, j, v);
      assert blk'[b] == blk[b] && blk'[b + 1] == blk[b + 1] && blk'[b + 2] == blk[b + 2] && blk'[b + 3] == blk[b + 3];
    }
  }

  lemma WordPutSame(blk: Block, j: nat, v: nat)
    requires j < NINDIRECT && v < TWO_32
    ensures Word(WordPut(blk, j, v), j) == v
  {
    hide ByteOf;
    var b, blk' := 4 * j, WordPut(blk, j, v);
    assert blk'[b] == ByteOf(v % 0x100) && blk'[b + 1] == ByteOf(v / 0x100 % 0x100);
    assert blk'[b + 2] == ByteOf(v / 0x1_0000 % 0x100) && blk'[b + 3] == ByteOf(v / 0x100_0000);
    WordBytes(v);
  }

  lemma ZeroWords(j: nat)
    requires j < NINDIRECT
    ensures Word(ZERO_BLOCK, j) == 0
  {
  }

  // ----- the bitmap on the disk

  predicate Shaped(g: Geometry, disk: seq<Block>) {
    g.Ok() && |disk| == g.size
  }

  /** Block `b` is marked in use. */
  predicate Marked(g: Geometry, disk: seq<Block>, b: nat)
    requires Shaped(g, disk) && b < g.size
  {
    BitIn(disk[g.BitmapStart() + b / BPB], b % BPB)
  }

  function MarkPut(g: Geometry, disk: seq<Block>, b: nat, v: bool): seq<Block>
    requires Shaped(g, disk) && b < g.size
  {
    var bno := g.BitmapStart() + b / BPB;
    disk[bno := BitPut(disk[bno], b % BPB, v)]
  }

  lemma MarkPutMarked(g: Geometry, disk: seq<Block>, b: nat, v: bool, c: nat)
    requires Shaped(g, disk) && b < g.size && c < g.size
    ensures Shaped(g, MarkPut(g, disk, b, v))
    ensures Marked(g, MarkPut(g, disk, b, v), c) == if c == b then v else Marked(g, disk, c)
  {
    hide BitIn, BitPut;
    if c / BPB == b / BPB {
      BitPutIn(disk[g.BitmapStart() + b / BPB], b % BPB, v, c % BPB);
    }
  }
}
