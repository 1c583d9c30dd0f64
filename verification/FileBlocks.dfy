/** Blocks of the file layer of xv6/fs.c: the free-block bitmap with its bytes and bits, the words of an indirect
    block, and which block each slot of an inode refers to. */
module FileBlocks {

  import opened Common

  const BSIZE: nat := 512
  const BPB: nat := 4096
  const NDIRECT: nat := 12
  const NINDIRECT: nat := 128
  const MAXFILE: nat := 140

  const IPB: nat := 8            // inodes per block
  const MAXCHUNK: nat := 6656    // ((LOGSIZE - 1 - 1 - 2) / 2) * 512, as filewrite computes it

  /** A block given to log_write: of the bitmap, of the data area, of the inode area. */
  datatype Logged = MapBlock(n: nat) | DataBlock(b: nat) | InodeBlock(n: nat)

  const ZERO: Block := seq(BSIZE, _ => 0)

  // ---------------------------------------------------------------- bitmap

  /** 1 << k */
  function Mask(k: nat): bv8 {
    if k == 0 then 1 else if k == 1 then 2 else if k == 2 then 4 else if k == 3 then 8
    else if k == 4 then 16 else if k == 5 then 32 else if k == 6 then 64 else 128
  }

  /** x & (1 << k) */
  predicate Has(x: bv8, k: nat) {
    x & Mask(k) != 0
  }

  /** x |= 1 << k, or x &= ~(1 << k) */
  function With(x: bv8, k: nat, used: bool): bv8 {
    if used then x | Mask(k) else x & !Mask(k)
  }

  lemma WithExact(x: bv8, k: nat, used: bool, j: nat)
    requires k < 8 && j < 8
    ensures Has(With(x, k, used), j) <==> if j == k then used else Has(x, j)
  {
  }

  /** The bitmap blocks of a file system of the given size. */
  predicate Shaped(bits: seq<seq<bv8>>, size: nat) {
    size <= |bits| * BPB && forall n :: 0 <= n < |bits| ==> |bits[n]| == BSIZE
  }

  /** bp->data[at] & (1 << k) in bitmap block n */
  predicate BitAt(bits: seq<seq<bv8>>, n: nat, at: nat, k: nat)
    requires n < |bits| && at < |bits[n]|
  {
    Has(bits[n][at], k)
  }

  function PutBit(bits: seq<seq<bv8>>, n: nat, at: nat, k: nat, used: bool): (r: seq<seq<bv8>>)
    requires n < |bits| && at < |bits[n]|
    ensures |r| == |bits| && forall m :: 0 <= m < |bits| ==> |r[m]| == |bits[m]|
  {
    bits[n := bits[n][at := With(bits[n][at], k, used)]]
  }

  lemma PutBitExact(bits: seq<seq<bv8>>, n: nat, at: nat, k: nat, used: bool, n': nat, at': nat, k': nat)
    requires n < |bits| && at < |bits[n]| && k < 8 && n' < |bits| && at' < |bits[n']| && k' < 8
    ensures BitAt(PutBit(bits, n, at, k, used), n', at', k') <==>
            if n' == n && at' == at && k' == k then used else BitAt(bits, n', at', k')
  {
    hide Has, With;
    WithExact(bits[n][at], k, used, k');
  }

  /** Block b's bit: bit b % 8 of byte b % BPB / 8 of bitmap block b / BPB. */
  predicate InUse(bits: seq<seq<bv8>>, size: nat, b: nat)
    requires Shaped(bits, size) && b < size
  {
    BitAt(bits, b / BPB, b % BPB / 8, b % BPB % 8)
  }

  function Mark(bits: seq<seq<bv8>>, size: nat, b: nat, used: bool): (r: seq<seq<bv8>>)
    requires Shaped(bits, size) && b < size
    ensures Shaped(r, size) && |r| == |bits|
  {
    PutBit(bits, b / BPB, b % BPB / 8, b % BPB % 8, used)
  }

  lemma SameBit(a: nat, b: nat)
    requires a / BPB == b / BPB && a % BPB / 8 == b % BPB / 8 && a % BPB % 8 == b % BPB % 8
    ensures a == b
  {
  }

  /** Marking a block changes its bit and no other. */
  lemma MarkExact(bits: seq<seq<bv8>>, size: nat, b: nat, used: bool, x: nat)
    requires Shaped(bits, size) && b < size && x < size
    ensures InUse(Mark(bits, size, b, used), size, x) <==> if x == b then used else InUse(bits, size, x)
  {
    hide BitAt, PutBit;
    PutBitExact(bits, b / BPB, b % BPB / 8, b % BPB % 8, used, x / BPB, x % BPB / 8, x % BPB % 8);
    if x / BPB == b / BPB && x % BPB / 8 == b % BPB / 8 && x % BPB % 8 == b % BPB % 8 {
      SameBit(x, b);
    }
  }

  // ---------------------------------------------------------------- words of an indirect block

  function Word(b: Block, j: nat): (w: nat)
    requires |b| == BSIZE && j < NINDIRECT
    ensures w < UINT
  {
    b[4 * j] as int + 0x100 * b[4 * j + 1] as int + 0x1_0000 * b[4 * j + 2] as int + 0x100_0000 * b[4 * j + 3] as int
  }

  function Digit(w: nat, unit: nat): Byte
    requires unit > 0
  {
    var q: int := w / unit;
    q % 0x100
  }

  function SetWord(b: Block, j: nat, w: nat): (r: Block)
    requires |b| == BSIZE && j < NINDIRECT
    ensures |r| == BSIZE
  {
    b[4 * j := Digit(w, 1)][4 * j + 1 := Digit(w, 0x100)]
      [4 * j + 2 := Digit(w, 0x1_0000)][4 * j + 3 := Digit(w, 0x100_0000)]
  }

  lemma Digits(w: nat)
    requires w < UINT
    ensures Digit(w, 1) + 0x100 * Digit(w, 0x100) + 0x1_0000 * Digit(w, 0x1_0000) + 0x100_0000 * Digit(w, 0x100_0000)
      == w
  {
    assert w / 0x1_0000 == w / 0x100 / 0x100;
    assert w / 0x100_0000 == w / 0x1_0000 / 0x100;
  }

  /** Storing a word changes that word and no other. */
  lemma WordExact(b: Block, j: nat, w: nat, k: nat)
    requires |b| == BSIZE && j < NINDIRECT && k < NINDIRECT && w < UINT
    ensures Word(SetWord(b, j, w), k) == if k == j then w else Word(b, k)
  {
    Digits(w);
    hide Digit;
  }

  lemma ZeroWords(k: nat)
    requires k < NINDIRECT
    ensures Word(ZERO, k) == 0
  {
  }
}
