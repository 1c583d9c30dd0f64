/** The file layer of xv6/fs.c as it runs: balloc, bfree, bmap, itrunc, iupdate, readi and writei over the bitmap, the
    data blocks and the inodes. Blocks are those the buffer cache shows; a panic is ok == false. */
module FileLayer {

  import opened Common
  import opened FileBlocks
  import opened FileTree
  import opened FileContent

  /** A bit is set exactly on the metadata blocks and the owned data blocks. */
  ghost predicate BitsOk(bits: seq<seq<bv8>>, size: nat, owner: seq<Owner>, meta: nat)
    requires Shaped(bits, size)
  {
    |owner| == size && meta <= size && forall b :: 0 <= b < size ==> BitOk(bits, size, owner, meta, b)
  }

  ghost predicate BitOk(bits: seq<seq<bv8>>, size: nat, owner: seq<Owner>, meta: nat, b: nat)
    requires Shaped(bits, size) && b < size == |owner|
  {
    InUse(bits, size, b) <==> b < meta || owner[b].At?
  }

  lemma BitPlace(b: nat, bi: nat)
    requires b % BPB == 0 && bi < BPB
    ensures (b + bi) / BPB == b / BPB && (b + bi) % BPB == bi
  {
  }

  lemma TakeBit(bits: seq<seq<bv8>>, size: nat, owner: seq<Owner>, meta: nat, b: nat, o: Owner)
    requires Shaped(bits, size) && BitsOk(bits, size, owner, meta) && b < size && !InUse(bits, size, b) && o.At?
    ensures meta <= b && owner[b] == Nobody && BitsOk(Mark(bits, size, b, true), size, owner[b := o], meta)
  {
    hide InUse, Mark;
    assert BitOk(bits, size, owner, meta, b);
    var bits', owner' := Mark(bits, size, b, true), owner[b := o];
    forall x | 0 <= x < size
      ensures BitOk(bits', size, owner', meta, x)
    {
      MarkExact(bits, size, b, true, x);
      assert BitOk(bits, size, owner, meta, x);
    }
  }

  lemma DropBit(bits: seq<seq<bv8>>, size: nat, owner: seq<Owner>, meta: nat, b: nat)
    requires Shaped(bits, size) && BitsOk(bits, size, owner, meta) && meta <= b < size
    ensures BitsOk(Mark(bits, size, b, false), size, owner[b := Nobody], meta)
  {
    hide InUse, Mark;
    var bits', owner' := Mark(bits, size, b, false), owner[b := Nobody];
    forall x | 0 <= x < size
      ensures BitOk(bits', size, owner', meta, x)
    {
      MarkExact(bits, size, b, false, x);
      assert BitOk(bits, size, owner, meta, x);
    }
  }

  lemma FreeIsData(bits: seq<seq<bv8>>, size: nat, owner: seq<Owner>, meta: nat, b: nat)
    requires Shaped(bits, size) && BitsOk(bits, size, owner, meta) && b < size && !InUse(bits, size, b)
    ensures meta <= b
  {
    assert BitOk(bits, size, owner, meta, b);
  }

  lemma RefIsData(addrs: seq<seq<nat>>, data: seq<Block>, owner: seq<Owner>, meta: nat, i: nat, k: nat)
    requires Tree(addrs, data, owner, meta) && i < |addrs| && k < NSLOTS && Ref(addrs[i], data, k) != 0
    ensures meta <= Ref(addrs[i], data, k) < |data|
  {
    assert RefOk(addrs[i], data, owner, i, k) && OwnerOk(addrs, data, owner, meta, Ref(addrs[i], data, k));
  }

  /** balloc's block, zeroed and put in a direct address or the indirect pointer */
  lemma LinkAfterZero(bits: seq<seq<bv8>>, size: nat, addrs: seq<seq<nat>>, data: seq<Block>, owner: seq<Owner>,
                      meta: nat, i: nat, k: nat, b: nat)
    requires Shaped(bits, size) && |data| == size && Tree(addrs, data, owner, meta) && BitsOk(bits, size, owner, meta)
    requires i < |addrs| && k <= NDIRECT && addrs[i][k] == 0 && b < size && !InUse(bits, size, b)
    ensures 0 < b && BitsOk(Mark(bits, size, b, true), size, owner[b := At(i, k)], meta)
    ensures Tree(SetAddr(addrs, i, k, b), data[b := ZERO], owner[b := At(i, k)], meta)
    ensures Kept(addrs, data, SetAddr(addrs, i, k, b), data[b := ZERO])
    ensures SameRefs(addrs, data, SetAddr(addrs, i, k, b), data[b := ZERO], i, {k})
  {
    hide InUse, Mark, SameRefs;
    var data' := data[b := ZERO];
    TakeBit(bits, size, owner, meta, b, At(i, k));
    WriteKeepsTree(addrs, data, owner, meta, b, ZERO);
    ZeroKeeps(addrs, data, owner, meta, b);
    LinkKeepsTree(addrs, data', owner, meta, i, k, b);
    LinkKeeps(addrs, data', owner, meta, i, k, b);
    KeptTwice(addrs, data, addrs, data', SetAddr(addrs, i, k, b), data');
    WriteSame(addrs, data, owner, meta, b, ZERO, i, {k});
    LinkSame(addrs, data', i, k, b);
    SameTwice(addrs, data, addrs, data', SetAddr(addrs, i, k, b), data', i, {k}, {k});
    assert {k} + {k} == {k};
  }

  /** The indirect block with entry j set. */
  function SetEntry(addrs: seq<seq<nat>>, data: seq<Block>, i: nat, j: nat, b: nat): (r: seq<Block>)
    requires i < |addrs| && |addrs[i]| == NDIRECT + 1 && addrs[i][NDIRECT] < |data|
    requires |data[addrs[i][NDIRECT]]| == BSIZE
    requires j < NINDIRECT
    ensures |r| == |data|
  {
    var p := addrs[i][NDIRECT];
    data[p := SetWord(data[p], j, b)]
  }

  /** balloc's block, zeroed and put in an entry of the indirect block */
  lemma EntryAfterZero(bits: seq<seq<bv8>>, size: nat, addrs: seq<seq<nat>>, data: seq<Block>, owner: seq<Owner>,
                       meta: nat, i: nat, j: nat, b: nat)
    requires Shaped(bits, size) && |data| == size && Tree(addrs, data, owner, meta) && BitsOk(bits, size, owner, meta)
    requires i < |addrs| && j < NINDIRECT && 0 < addrs[i][NDIRECT] && Ref(addrs[i], data, j + NDIRECT + 1) == 0
    requires b < size && !InUse(bits, size, b)
    ensures 0 < b && addrs[i][NDIRECT] < size && b != addrs[i][NDIRECT]
    ensures BitsOk(Mark(bits, size, b, true), size, owner[b := At(i, j + NDIRECT + 1)], meta)
    ensures Tree(addrs, SetEntry(addrs, data[b := ZERO], i, j, b), owner[b := At(i, j + NDIRECT + 1)], meta)
    ensures Kept(addrs, data, addrs, SetEntry(addrs, data[b := ZERO], i, j, b))
    ensures Ref(addrs[i], SetEntry(addrs, data[b := ZERO], i, j, b), j + NDIRECT + 1) == b
    ensures SameRefs(addrs, data, addrs, SetEntry(addrs, data[b := ZERO], i, j, b), i, {j + NDIRECT + 1})
  {
    hide InUse, Mark, SameRefs;
    var data', k := data[b := ZERO], j + NDIRECT + 1;
    assert RefOk(addrs[i], data, owner, i, NDIRECT);
    TakeBit(bits, size, owner, meta, b, At(i, k));
    WriteKeepsTree(addrs, data, owner, meta, b, ZERO);
    ZeroKeeps(addrs, data, owner, meta, b);
    RefAfterWrite(addrs, data, owner, meta, b, ZERO, i, k);
    EntryKeepsTree(addrs, data', owner, meta, i, j, b);
    EntryKeeps(addrs, data', owner, meta, i, j, b);
    RefAfterEntry(addrs, data', owner, meta, i, j, b, i, k);
    KeptTwice(addrs, data, addrs, data', addrs, SetEntry(addrs, data', i, j, b));
    WriteSame(addrs, data, owner, meta, b, ZERO, i, {k});
    EntrySame(addrs, data', owner, meta, i, j, b);
    SameTwice(addrs, data, addrs, data', addrs, SetEntry(addrs, data', i, j, b), i, {k}, {k});
    assert {k} + {k} == {k};
  }

  /** A file of n bytes has no block past them, and an indirect block only when it needs one. */
  ghost predicate Trimmed(addrs: seq<nat>, data: seq<Block>, n: nat)
    requires |addrs| == NDIRECT + 1
  {
    && (forall q :: 0 <= q < MAXFILE && n <= q * BSIZE ==> Ref(addrs, data, Slot(q)) == 0)
    && (addrs[NDIRECT] != 0 ==> NDIRECT * BSIZE < n)
  }

  ghost predicate FileOk(addrs: seq<nat>, data: seq<Block>, n: nat)
    requires |addrs| == NDIRECT + 1
  {
    n <= MAXBYTES && NoHoles(addrs, data, n) && Trimmed(addrs, data, n)
  }

  /** The slots bmap may fill for block bn of a file. */
  function BmapSlots(bn: nat): set<nat>
    requires bn < MAXFILE
  {
    if bn < NDIRECT then {bn} else {Slot(bn), NDIRECT}
  }

  lemma TrimmedSame(a: seq<seq<nat>>, d: seq<Block>, a': seq<seq<nat>>, d': seq<Block>, i: nat, ks: set<nat>, j: nat,
                    n: nat)
    requires SameRefs(a, d, a', d', i, ks) && j < |a| && j != i && Trimmed(a[j], d, n)
    ensures Trimmed(a'[j], d', n)
  {
    hide Ref, Slot;
    assert SameRef(a, d, a', d', j, NDIRECT);
    RefIsPointer(a[j], d);
    RefIsPointer(a'[j], d');
    forall q | 0 <= q < MAXFILE && n <= q * BSIZE
      ensures Ref(a'[j], d', Slot(q)) == 0
    {
      assert SameRef(a, d, a', d', j, Slot(q));
    }
  }

  lemma RefIsPointer(addrs: seq<nat>, data: seq<Block>)
    requires |addrs| == NDIRECT + 1
    ensures Ref(addrs, data, NDIRECT) == addrs[NDIRECT]
  {
  }

  /** Block bn filled in, for a file that then reaches into it. */
  lemma TrimmedNext(a: seq<seq<nat>>, d: seq<Block>, a': seq<seq<nat>>, d': seq<Block>, i: nat, bn: nat, n: nat,
                    n': nat)
    requires bn < MAXFILE && SameRefs(a, d, a', d', i, BmapSlots(bn)) && i < |a| && Trimmed(a[i], d, n) && n <= n'
    requires bn * BSIZE < n'
    ensures Trimmed(a'[i], d', n')
  {
    RefIsPointer(a[i], d);
    RefIsPointer(a'[i], d');
    assert bn < NDIRECT ==> SameRef(a, d, a', d', i, NDIRECT);
    forall q | 0 <= q < MAXFILE && n' <= q * BSIZE
      ensures Ref(a'[i], d', Slot(q)) == 0
    {
      assert Slot(q) !in BmapSlots(bn);
      assert SameRef(a, d, a', d', i, Slot(q));
    }
  }

  lemma KeptSelf(addrs: seq<seq<nat>>, data: seq<Block>, owner: seq<Owner>, meta: nat)
    requires Tree(addrs, data, owner, meta)
    ensures Kept(addrs, data, addrs, data)
  {
    forall i, k | 0 <= i < |addrs| && 0 <= k < NSLOTS
      ensures KeptAt(addrs[i], data, addrs[i], data, k)
    {
      assert RefOk(addrs[i], data, owner, i, k);
    }
  }

  lemma SameSelf(addrs: seq<seq<nat>>, data: seq<Block>, i: nat, ks: set<nat>)
    requires Sized(addrs, data)
    ensures SameRefs(addrs, data, addrs, data, i, ks)
  {
  }

  // ---------------------------------------------------------------- truncation

  /** The owners left when inode i gives up its first n direct addresses. */
  ghost predicate Released(owner: seq<Owner>, owner': seq<Owner>, i: nat, n: nat) {
    |owner'| == |owner| &&
    forall b :: 0 <= b < |owner| ==>
      owner'[b] == if owner[b].At? && owner[b].i == i && owner[b].k < n then Nobody else owner[b]
  }

  /** The bits left when the first n entries of inode i's indirect block are freed. */
  ghost predicate EntriesFreed(bits: seq<seq<bv8>>, bits': seq<seq<bv8>>, size: nat, owner: seq<Owner>, i: nat, n: nat)
    requires Shaped(bits, size) && Shaped(bits', size) && |owner| == size
  {
    forall b :: 0 <= b < size ==> EntryFreed(bits, bits', size, owner, i, n, b)
  }

  ghost predicate EntryFreed(bits: seq<seq<bv8>>, bits': seq<seq<bv8>>, size: nat, owner: seq<Owner>, i: nat, n: nat,
                             b: nat)
    requires Shaped(bits, size) && Shaped(bits', size) && b < |owner| == size
  {
    InUse(bits', size, b) <==>
      InUse(bits, size, b) && !(owner[b].At? && owner[b].i == i && NDIRECT < owner[b].k <= NDIRECT + n)
  }

  lemma FreeEntry(bits: seq<seq<bv8>>, bits': seq<seq<bv8>>, size: nat, addrs: seq<seq<nat>>, data: seq<Block>,
                  owner: seq<Owner>, meta: nat, i: nat, n: nat, e: nat)
    requires Shaped(bits, size) && Shaped(bits', size) && |data| == size && Tree(addrs, data, owner, meta)
    requires BitsOk(bits, size, owner, meta) && EntriesFreed(bits, bits', size, owner, i, n)
    requires i < |addrs| && n < NINDIRECT && e == Ref(addrs[i], data, n + NDIRECT + 1)
    ensures e != 0 ==> e < size && InUse(bits', size, e)
    ensures e != 0 ==> EntriesFreed(bits, Mark(bits', size, e, false), size, owner, i, n + 1)
    ensures e == 0 ==> EntriesFreed(bits, bits', size, owner, i, n + 1)
  {
    hide InUse, Mark;
    assert RefOk(addrs[i], data, owner, i, n + NDIRECT + 1);
    if e != 0 {
      assert BitOk(bits, size, owner, meta, e) && EntryFreed(bits, bits', size, owner, i, n, e);
    }
    var after, m := if e != 0 then Mark(bits', size, e, false) else bits', n + 1;
    forall b | 0 <= b < size
      ensures EntryFreed(bits, after, size, owner, i, m, b)
    {
      if e != 0 {
        MarkExact(bits', size, e, false, b);
      }
      assert EntryFreed(bits, bits', size, owner, i, n, b) && OwnerOk(addrs, data, owner, meta, b);
    }
  }

  /** Freeing the indirect block after its entries, and dropping the pointer, restores the agreement. */
  lemma FreeIndirect(bits: seq<seq<bv8>>, bits': seq<seq<bv8>>, size: nat, addrs: seq<seq<nat>>, data: seq<Block>,
                     owner: seq<Owner>, meta: nat, i: nat, p: nat)
    requires Shaped(bits, size) && Shaped(bits', size) && |data| == size && Tree(addrs, data, owner, meta)
    requires BitsOk(bits, size, owner, meta) && EntriesFreed(bits, bits', size, owner, i, NINDIRECT)
    requires i < |addrs| && p == addrs[i][NDIRECT] && p != 0
    ensures p < size && InUse(bits', size, p) && BitsOk(Mark(bits', size, p, false), size, Dropped(owner, i), meta)
  {
    hide InUse, Mark;
    assert RefOk(addrs[i], data, owner, i, NDIRECT);
    assert BitOk(bits, size, owner, meta, p) && EntryFreed(bits, bits', size, owner, i, NINDIRECT, p);
    var after, owner' := Mark(bits', size, p, false), Dropped(owner, i);
    forall b | 0 <= b < size
      ensures BitOk(after, size, owner', meta, b)
    {
      MarkExact(bits', size, p, false, b);
      assert BitOk(bits, size, owner, meta, b) && EntryFreed(bits, bits', size, owner, i, NINDIRECT, b);
      assert OwnerOk(addrs, data, owner, meta, b);
    }
  }

  lemma ReleasedNext(addrs: seq<seq<nat>>, data: seq<Block>, owner: seq<Owner>, meta: nat, was: seq<Owner>, i: nat,
                     n: nat)
    requires Tree(addrs, data, owner, meta) && i < |addrs| && n < NDIRECT && Released(was, owner, i, n)
    ensures var b := addrs[i][n];
      if b == 0 then Released(was, owner, i, n + 1) else b < |owner| && Released(was, owner[b := Nobody], i, n + 1)
  {
    var c := addrs[i][n];
    assert RefOk(addrs[i], data, owner, i, n);
    var owner' := if c == 0 then owner else owner[c := Nobody];
    forall b | 0 <= b < |was|
      ensures owner'[b] == if was[b].At? && was[b].i == i && was[b].k < n + 1 then Nobody else was[b]
    {
      assert OwnerOk(addrs, data, owner, meta, b);
    }
  }

  /** Dropping what is under the indirect pointer releases the rest; with no pointer there is nothing left. */
  lemma ReleasedAll(addrs: seq<seq<nat>>, data: seq<Block>, owner: seq<Owner>, meta: nat, was: seq<Owner>, i: nat)
    requires Tree(addrs, data, owner, meta) && i < |addrs| && Released(was, owner, i, NDIRECT)
    requires forall b :: 0 <= b < |was| && was[b].At? ==> was[b].k < NSLOTS
    ensures if addrs[i][NDIRECT] == 0 then Released(was, owner, i, NSLOTS)
            else Released(was, Dropped(owner, i), i, NSLOTS)
  {
    var owner' := if addrs[i][NDIRECT] == 0 then owner else Dropped(owner, i);
    forall b | 0 <= b < |was|
      ensures owner'[b] == if was[b].At? && was[b].i == i && was[b].k < NSLOTS then Nobody else was[b]
    {
      assert OwnerOk(addrs, data, owner, meta, b);
    }
  }

  // ---------------------------------------------------------------- the tests of readi and writei

  /** The uint comparisons that refuse a write; + wraps at 2^32. */
  predicate RefusesWrite(size: nat, off: nat, n: nat) {
    off > size || (off + n) % UINT < off || (off + n) % UINT > MAXBYTES
  }

  predicate RefusesRead(size: nat, off: nat, n: nat) {
    off > size || (off + n) % UINT < off
  }

  /** How much a read that is not refused returns. */
  function ReadCount(size: nat, off: nat, n: nat): int {
    if (off + n) % UINT > size then size - off else n
  }

  /** The wrapping tests say what they are meant to: a write is refused when it would start past the end or end past the
      largest file; a read, when it would start past the end or end past 2^32. */
  lemma RefusalsExact(size: nat, off: nat, n: nat)
    requires size <= MAXBYTES && off < UINT && n < UINT
    ensures RefusesWrite(size, off, n) <==> off > size || off + n > MAXBYTES
    ensures RefusesRead(size, off, n) <==> off > size || off + n >= UINT
    ensures !RefusesRead(size, off, n) ==> ReadCount(size, off, n) == if off + n > size then size - off else n
  {
  }

  // ---------------------------------------------------------------- what an operation logs

  ghost function MapBlockSet(n: nat): set<Logged> {
    set k: nat | k < n :: MapBlock(k)
  }

  /** Some of n bitmap blocks. */
  ghost predicate SomeMaps(maps: set<Logged>, n: nat) {
    maps != {} && maps <= MapBlockSet(n)
  }

  /** The indirect block, when block bn of a file is recorded in it. */
  function PointerFor(addrs: seq<nat>, bn: nat): set<Logged>
    requires |addrs| == NDIRECT + 1
  {
    if bn < NDIRECT then {} else {DataBlock(addrs[NDIRECT])}
  }

  /** What one pass of writei logs: block bn of the file, at addr; and when its slot was empty, some bitmap blocks,
      and the indirect block if that is where the slot is. */
  ghost predicate BlockLogged(before: set<Logged>, after: set<Logged>, maps: set<Logged>, nmaps: nat,
                              addrs: seq<nat>, addr: nat, bn: nat, empty: bool)
    requires |addrs| == NDIRECT + 1
  {
    && (if empty then SomeMaps(maps, nmaps) else maps == {})
    && (empty && NDIRECT <= bn ==> addrs[NDIRECT] != 0)
    && after == before + {DataBlock(addr)} + maps + if empty then PointerFor(addrs, bn) else {}
  }

  /** How many blocks of a file the bytes [off, off + n) lie in. */
  function Touched(off: nat, n: nat): nat {
    if n == 0 then 0 else (off + n - 1) / BSIZE - off / BSIZE + 1
  }

  lemma ChunkTouches(off: nat)
    ensures 13 <= Touched(off, MAXCHUNK)
  {
  }

  /** A write of n bytes at off into a file of the given size takes a new block for its last bytes. */
  predicate Allocates(size: nat, off: nat, n: nat) {
    0 < n && size <= (off + n - 1) / BSIZE * BSIZE
  }

  /** ... and records it in the indirect block. */
  predicate AddsEntry(size: nat, off: nat, n: nat) {
    Allocates(size, off, n) && NDIRECT <= (off + n - 1) / BSIZE
  }

  /** What a write logs where there is one bitmap block: the data blocks it touches; the bitmap block, when it
      allocates; the indirect block, when it adds an entry; the inode's, when the file grows. */
  function Cost(size: nat, off: nat, n: nat): nat {
    Touched(off, n) + (if Allocates(size, off, n) then 1 else 0) + (if AddsEntry(size, off, n) then 1 else 0)
      + if size < off + n then 1 else 0
  }

  /** Writes of c bytes stay within what an operation may log, wherever in a file of whatever size, exactly when c is
      at most 3073, or more than any file holds: for 3074 bytes appended to a file of 6143, they do not. */
  lemma ChunkBudget(c: nat)
    ensures (forall size: nat, off: nat ::
               off <= size <= MAXBYTES && off + c <= MAXBYTES ==> Cost(size, off, c) <= MAXOPBLOCKS)
       <==> c <= 3073 || c > MAXBYTES
    ensures Cost(6143, 6143, 3074) == MAXOPBLOCKS + 1
  {
    if 3073 < c <= MAXBYTES {
      if 6143 + c <= MAXBYTES {
        assert Cost(6143, 6143, c) > MAXOPBLOCKS;
      } else {
        assert Cost(0, 0, c) > MAXOPBLOCKS;
      }
    }
  }

  /** filewrite's operations so far, n bytes of len: the most that any of them logged. */
  ghost predicate Paid(most: nat, n: nat, len: nat, size: nat, start: nat, nmaps: nat) {
    && (n == 0 ==> most == 0)
    && (0 < n ==> start <= size)
    && (0 < n && MAXCHUNK <= len ==> most > MAXOPBLOCKS && start + MAXCHUNK <= MAXBYTES)
    && (0 < n && len < MAXCHUNK ==> n == len && start + n <= MAXBYTES)
    && (0 < n && len < MAXCHUNK && nmaps == 1 ==> most == Cost(size, start, len))
  }

  lemma PaidNothing(len: nat, size: nat, start: nat, nmaps: nat)
    ensures Paid(0, 0, len, size, start, nmaps)
  {
  }

  lemma PaidNext(most: nat, n: nat, n1: nat, len: nat, size: nat, now: nat, start: nat, nmaps: nat, count: nat)
    requires Paid(most, n, len, size, start, nmaps) && n < len && n1 == if MAXCHUNK < len - n then MAXCHUNK else len - n
    requires (n == 0 ==> now == size) && start + n <= now && start + n + n1 <= MAXBYTES
    requires var cost := Cost(now, start + n, n1);
      cost <= count <= cost + if Allocates(now, start + n, n1) then nmaps - 1 else 0
    ensures Paid(if count > most then count else most, n + n1, len, size, start, nmaps)
  {
    ChunkTouches(start + n);
    hide Allocates, AddsEntry, Touched;
  }

  /** All written, or a refused operation. */
  lemma PaidEnds(most: nat, n: nat, len: nat, size: nat, start: nat, nmaps: nat)
    requires Paid(most, n, len, size, start, nmaps) && n <= len
    requires n == 0 && 0 < len ==> start > size || start + (if len < MAXCHUNK then len else MAXCHUNK) > MAXBYTES
    ensures n >= MAXCHUNK ==> most > MAXOPBLOCKS
    ensures nmaps == 1 ==>
      (most <= MAXOPBLOCKS <==>
         || start > size || start + (if len < MAXCHUNK then len else MAXCHUNK) > MAXBYTES
         || (len < MAXCHUNK && Cost(size, start, len) <= MAXOPBLOCKS))
    ensures nmaps == 1 && start <= size && start + len <= MAXBYTES && len < MAXCHUNK ==> most == Cost(size, start, len)
  {
    if len == 0 && start <= size {
      assert Cost(size, start, len) == 0;
    }
  }

  lemma NoneBefore(a: set<Logged>)
    ensures {} + a == a
  {
  }

  /** One block more: whether one is taken, and recorded in the indirect block. */
  lemma AllocatesNext(size: nat, off: nat, tot: nat, c: nat)
    requires off <= size && 0 < c && (off + tot) % BSIZE + c <= BSIZE
    ensures var (k, n) := ((off + tot) / BSIZE, if size < off + tot then off + tot else size);
      && (Allocates(size, off, tot + c) <==> n <= k * BSIZE || Allocates(size, off, tot))
      && (AddsEntry(size, off, tot + c) <==> (n <= k * BSIZE && NDIRECT <= k) || AddsEntry(size, off, tot))
  {
    var k := (off + tot) / BSIZE;
    assert (off + tot + c - 1) / BSIZE == k;
  }

  /** What a write has logged after tot bytes at off, with the bitmap blocks it marked. */
  ghost predicate Logs(before: set<Logged>, after: set<Logged>, maps: set<Logged>, nmaps: nat, addrs: seq<nat>,
                       data: seq<Block>, size: nat, off: nat, tot: nat)
    requires |addrs| == NDIRECT + 1 && off / BSIZE + Touched(off, tot) <= MAXFILE
  {
    && (forall k :: off / BSIZE <= k < off / BSIZE + Touched(off, tot) ==> Ref(addrs, data, Slot(k)) != 0)
    && maps <= MapBlockSet(nmaps) && (maps != {} <==> Allocates(size, off, tot))
    && (AddsEntry(size, off, tot) ==> addrs[NDIRECT] != 0)
    && after == before + FileBlockSet(addrs, data, off / BSIZE, Touched(off, tot)) + maps
              + EntryBlock(addrs, size, off, tot)
  }

  ghost function EntryBlock(addrs: seq<nat>, size: nat, off: nat, tot: nat): set<Logged>
    requires |addrs| == NDIRECT + 1
  {
    if AddsEntry(size, off, tot) then {DataBlock(addrs[NDIRECT])} else {}
  }

  /** The data blocks: m of them, and then block k, the last of those or the next. */
  lemma FileBlocksNext(addrs: seq<nat>, data: seq<Block>, addrs': seq<nat>, data': seq<Block>, q: nat, m: nat, k: nat,
                       m': nat)
    requires |addrs| == |addrs'| == NDIRECT + 1 && q <= k < q + m' <= MAXFILE
    requires (m' == m || (m' == m + 1 && k == q + m))
    requires forall j :: q <= j < q + m ==> Ref(addrs', data', Slot(j)) == Ref(addrs, data, Slot(j))
    ensures FileBlockSet(addrs', data', q, m')
      == FileBlockSet(addrs, data, q, m) + {DataBlock(Ref(addrs', data', Slot(k)))}
  {
    hide Ref, Slot;
  }

  lemma TouchedNext(off: nat, tot: nat, c: nat)
    requires 0 < c && (off + tot) % BSIZE + c <= BSIZE && off + tot + c <= MAXBYTES
    ensures var (q, k, m, m') := (off / BSIZE, (off + tot) / BSIZE, Touched(off, tot), Touched(off, tot + c));
      q <= k < q + m' <= MAXFILE && (m' == m || (m' == m + 1 && k == q + m))
  {
  }

  /** Slots once in use keep their block through a step of a write. */
  lemma SteppedRefs(a: seq<seq<nat>>, d: seq<Block>, a': seq<seq<nat>>, d': seq<Block>, i: nat, off: nat,
                    bytes: seq<Byte>, j: nat, k: nat)
    requires Stepped(a, d, a', d', i, off, bytes) && j < |a| && k < MAXFILE && Ref(a[j], d, Slot(k)) != 0
    ensures Ref(a'[j], d', Slot(k)) == Ref(a[j], d, Slot(k))
  {
    var p := k * BSIZE;
    assert p / BSIZE == k && p < MAXBYTES;
    assert StepAt(a, d, a', d', i, off, bytes, j, p);
  }

  ghost function FileBlockSet(addrs: seq<nat>, data: seq<Block>, q: nat, m: nat): set<Logged>
    requires |addrs| == NDIRECT + 1 && q + m <= MAXFILE
  {
    set k | q <= k < q + m :: DataBlock(Ref(addrs, data, Slot(k)))
  }

  lemma {:induction false} MapBlockCount(n: nat)
    ensures |MapBlockSet(n)| == n
  {
    if n > 0 {
      MapBlockCount(n - 1);
      assert MapBlockSet(n) == MapBlockSet(n - 1) + {MapBlock(n - 1)};
    }
  }

  lemma FileBlockAdds(addrs: seq<nat>, data: seq<Block>, q: nat, m: nat)
    requires |addrs| == NDIRECT + 1 && q + m + 1 <= MAXFILE
    ensures FileBlockSet(addrs, data, q, m + 1)
      == FileBlockSet(addrs, data, q, m) + {DataBlock(Ref(addrs, data, Slot(q + m)))}
  {
    hide Ref, Slot;
  }

  lemma FileBlockIsNew(addrs: seq<seq<nat>>, data: seq<Block>, owner: seq<Owner>, meta: nat, i: nat, q: nat, m: nat)
    requires Tree(addrs, data, owner, meta) && i < |addrs| && q + m + 1 <= MAXFILE
    requires Ref(addrs[i], data, Slot(q + m)) != 0
    ensures DataBlock(Ref(addrs[i], data, Slot(q + m))) !in FileBlockSet(addrs[i], data, q, m)
  {
    var b := Ref(addrs[i], data, Slot(q + m));
    assert RefOk(addrs[i], data, owner, i, Slot(q + m));
    forall k | q <= k < q + m
      ensures Ref(addrs[i], data, Slot(k)) != b
    {
      assert RefOk(addrs[i], data, owner, i, Slot(k));
    }
    hide Ref, Slot, Tree;
  }

  lemma {:induction false} FileBlockCount(addrs: seq<seq<nat>>, data: seq<Block>, owner: seq<Owner>, meta: nat, i: nat,
                                          q: nat, m: nat)
    requires Tree(addrs, data, owner, meta) && i < |addrs| && q + m <= MAXFILE
    requires forall k :: q <= k < q + m ==> Ref(addrs[i], data, Slot(k)) != 0
    ensures |FileBlockSet(addrs[i], data, q, m)| == m
    decreases m
  {
    hide Ref, Slot, RefOk, OwnerOk;
    if m == 0 {
      assert FileBlockSet(addrs[i], data, q, m) == {};
    } else {
      hide FileBlockSet;
      FileBlockCount(addrs, data, owner, meta, i, q, m - 1);
      FileBlockAdds(addrs[i], data, q, m - 1);
      FileBlockIsNew(addrs, data, owner, meta, i, q, m - 1);
    }
  }

  lemma SubsetCount(a: set<Logged>, b: set<Logged>)
    requires a <= b
    ensures |a| <= |b|
  {
    assert b == a + (b - a);
  }

  /** Freeing blocks has logged these bitmap blocks, and nothing else. */
  ghost predicate FreedIn(before: set<Logged>, after: set<Logged>, maps: set<Logged>, nmaps: nat) {
    after == before + maps && maps <= MapBlockSet(nmaps)
  }

  lemma FreedNone(before: set<Logged>, nmaps: nat)
    ensures FreedIn(before, before, {}, nmaps)
  {
  }

  lemma FreedMore(before: set<Logged>, after: set<Logged>, maps: set<Logged>, bits: seq<seq<bv8>>, size: nat, b: nat)
    requires FreedIn(before, after, maps, |bits|) && Shaped(bits, size) && b < size
    ensures FreedIn(before, after + {MapBlock(b / BPB)}, maps + {MapBlock(b / BPB)}, |bits|)
  {
  }

  lemma FreedBoth(before: set<Logged>, mid: set<Logged>, after: set<Logged>, maps: set<Logged>, more: set<Logged>,
                  nmaps: nat)
    requires FreedIn(before, mid, maps, nmaps) && FreedIn(mid, after, more, nmaps)
    ensures FreedIn(before, after, maps + more, nmaps)
  {
  }

  /** A file has a first block exactly when it has a byte, and an empty one has no block at all. */
  lemma EmptyHasNone(addrs: seq<nat>, data: seq<Block>, n: nat)
    requires |addrs| == NDIRECT + 1 && FileOk(addrs, data, n)
    ensures addrs[0] != 0 <==> 0 < n
    ensures n == 0 ==> forall k :: 0 <= k <= NDIRECT ==> addrs[k] == 0
  {
    assert Ref(addrs, data, Slot(0)) == addrs[0];
    forall k | 0 <= k < NDIRECT
      ensures Ref(addrs, data, Slot(k)) == addrs[k]
    {
    }
  }

  /** The bitmap blocks marked: none, or between one and all. */
  lemma MapsCount(maps: set<Logged>, n: nat)
    requires maps <= MapBlockSet(n)
    ensures |maps| <= n && (maps != {} ==> 1 <= |maps|)
  {
    MapBlockCount(n);
    SubsetCount(maps, MapBlockSet(n));
  }

  lemma PointerIsNew(addrs: seq<seq<nat>>, data: seq<Block>, owner: seq<Owner>, meta: nat, i: nat, q: nat, m: nat)
    requires Tree(addrs, data, owner, meta) && i < |addrs| && q + m <= MAXFILE && addrs[i][NDIRECT] != 0
    ensures DataBlock(addrs[i][NDIRECT]) !in FileBlockSet(addrs[i], data, q, m)
  {
    assert RefOk(addrs[i], data, owner, i, NDIRECT);
    forall k | q <= k < q + m
      ensures Ref(addrs[i], data, Slot(k)) != addrs[i][NDIRECT]
    {
      assert RefOk(addrs[i], data, owner, i, Slot(k));
    }
    hide Ref, Slot, Tree;
  }

  /** How much a whole write has added to the log: Cost, with as many more as it marked bitmap blocks beyond one. */
  lemma LogsCount(before: set<Logged>, after: set<Logged>, maps: set<Logged>, addrs: seq<seq<nat>>, data: seq<Block>,
                  owner: seq<Owner>, meta: nat, nmaps: nat, i: nat, size: nat, off: nat, n: nat, inode: Logged)
      returns (added: set<Logged>)
    requires Tree(addrs, data, owner, meta) && i < |addrs| && off / BSIZE + Touched(off, n) <= MAXFILE
    requires inode.InodeBlock?
    requires Logs(before, after, maps, nmaps, addrs[i], data, size, off, n)
    ensures (if size < off + n then after + {inode} else after) == before + added
    ensures Cost(size, off, n) <= |added| <= Cost(size, off, n) + if Allocates(size, off, n) then nmaps - 1 else 0
    ensures FileBlockSet(addrs[i], data, off / BSIZE, Touched(off, n)) <= added
  {
    hide Ref, Slot, RefOk, OwnerOk, Touched, Allocates, AddsEntry, Tree, FileBlockSet, MapBlockSet;
    TreeShape(addrs, data, owner, meta, i);
    var q, m := off / BSIZE, Touched(off, n);
    var blocks, ptr := FileBlockSet(addrs[i], data, q, m), EntryBlock(addrs[i], size, off, n);
    var grown: set<Logged> := if size < off + n then {inode} else {};
    added := blocks + maps + ptr + grown;
    BlocksCounted(before, after, maps, addrs, data, owner, meta, nmaps, i, size, off, n);
    MapsCount(maps, nmaps);
    KindsApart(blocks, maps, ptr, grown, addrs[i][NDIRECT]);
    FourSets(blocks, maps, ptr, grown);
    AddedLast(before, blocks, maps, ptr, grown);
    NoneAdded(after);
  }

  lemma TreeShape(addrs: seq<seq<nat>>, data: seq<Block>, owner: seq<Owner>, meta: nat, i: nat)
    requires Tree(addrs, data, owner, meta) && i < |addrs|
    ensures |addrs[i]| == NDIRECT + 1
  {
  }

  /** The data blocks of a write are as many as it touches, and the indirect block is none of them. */
  lemma BlocksCounted(before: set<Logged>, after: set<Logged>, maps: set<Logged>, addrs: seq<seq<nat>>,
                      data: seq<Block>, owner: seq<Owner>, meta: nat, nmaps: nat, i: nat, size: nat, off: nat, n: nat)
    requires Tree(addrs, data, owner, meta) && i < |addrs| && off / BSIZE + Touched(off, n) <= MAXFILE
    requires Logs(before, after, maps, nmaps, addrs[i], data, size, off, n)
    ensures var (blocks, ptr) :=
        (FileBlockSet(addrs[i], data, off / BSIZE, Touched(off, n)), EntryBlock(addrs[i], size, off, n));
      && |blocks| == Touched(off, n) && blocks !! ptr && maps <= MapBlockSet(nmaps)
      && (forall x :: x in blocks ==> x.DataBlock?) && forall x :: x in maps ==> x.MapBlock?
  {
    hide Ref, Slot, RefOk, OwnerOk, Touched, Allocates, AddsEntry;
    var q, m := off / BSIZE, Touched(off, n);
    FileBlockCount(addrs, data, owner, meta, i, q, m);
    if EntryBlock(addrs[i], size, off, n) != {} {
      PointerIsNew(addrs, data, owner, meta, i, q, m);
    }
  }

  lemma KindsApart(blocks: set<Logged>, maps: set<Logged>, ptr: set<Logged>, grown: set<Logged>, b: nat)
    requires (forall x :: x in blocks ==> x.DataBlock?) && (forall x :: x in maps ==> x.MapBlock?) && blocks !! ptr
    requires (ptr == {} || ptr == {DataBlock(b)}) && forall x :: x in grown ==> x.InodeBlock?
    ensures blocks !! maps && blocks + maps !! ptr && blocks + maps + ptr !! grown
  {
  }

  lemma NoneAdded(a: set<Logged>)
    ensures a + {} == a
  {
  }

  lemma AddedLast(before: set<Logged>, a: set<Logged>, b: set<Logged>, c: set<Logged>, d: set<Logged>)
    ensures before + a + b + c + d == before + (a + b + c + d)
  {
  }

  /** A data block, bitmap blocks and the indirect block, each put with its like. */
  lemma Sorted(before: set<Logged>, a: set<Logged>, b: set<Logged>, c: set<Logged>, a': set<Logged>, b': set<Logged>,
               c': set<Logged>)
    ensures before + a + b + c + a' + b' + c' == before + (a + a') + (b + b') + (c + c')
  {
  }

  lemma FourSets(a: set<Logged>, b: set<Logged>, c: set<Logged>, d: set<Logged>)
    requires a !! b && a + b !! c && a + b + c !! d
    ensures |a + b + c + d| == |a| + |b| + |c| + |d|
  {
  }

  // ---------------------------------------------------------------- the state inside writei's loop

  /** After tot bytes of src: file i is its old bytes with those written; nothing else changed; and as long as the file
      has not grown, no address was assigned. */
  ghost predicate Writing(a0: seq<seq<nat>>, d0: seq<Block>, sizes: seq<nat>, a: seq<seq<nat>>, d: seq<Block>,
                          i: nat, off: nat, src: seq<Byte>, tot: nat) {
    && Sized(a0, d0) && Sized(a, d) && i < |a| == |a0| == |sizes| && tot <= |src|
    && off <= sizes[i] <= MAXBYTES && off + |src| <= MAXBYTES
    && (forall j :: 0 <= j < |a| && j != i ==> Untouched(a0[j], d0, a[j], d, sizes[j]))
    && (off + tot <= sizes[i] ==> a == a0)
    && Grown(Content(a0[i], d0, sizes[i]), a[i], d, off, src[..tot])
  }

  /** The file is c with bytes written at off. */
  ghost predicate Grown(c: seq<Byte>, a: seq<nat>, d: seq<Block>, off: nat, bytes: seq<Byte>)
    requires |a| == NDIRECT + 1 && off <= |c| <= MAXBYTES && off + |bytes| <= MAXBYTES
  {
    var n := if off + |bytes| > |c| then off + |bytes| else |c|;
    NoHoles(a, d, n) && Trimmed(a, d, n) && Content(a, d, n) == Written(c, off, bytes)
  }

  ghost predicate Untouched(a0: seq<nat>, d0: seq<Block>, a: seq<nat>, d: seq<Block>, n: nat)
    requires |a0| == |a| == NDIRECT + 1
  {
    a == a0 && FileOk(a, d, n) && Content(a, d, n) == Content(a0, d0, n)
  }

  lemma WritingStarts(a: seq<seq<nat>>, d: seq<Block>, sizes: seq<nat>, i: nat, off: nat, src: seq<Byte>)
    requires Sized(a, d) && i < |a| == |sizes| && off <= sizes[i] && off + |src| <= MAXBYTES
    requires forall j :: 0 <= j < |a| ==> FileOk(a[j], d, sizes[j])
    ensures Writing(a, d, sizes, a, d, i, off, src, 0)
  {
    WrittenNothing(Content(a[i], d, sizes[i]), off);
    assert src[..0] == [];
  }

  lemma WritingNext(a0: seq<seq<nat>>, d0: seq<Block>, sizes: seq<nat>, a: seq<seq<nat>>, d: seq<Block>,
                    a': seq<seq<nat>>, d': seq<Block>, i: nat, off: nat, src: seq<Byte>, tot: nat, m: nat)
    requires Writing(a0, d0, sizes, a, d, i, off, src, tot) && 0 < m && tot + m <= |src|
    requires Stepped(a, d, a', d', i, off + tot, src[tot..tot + m])
    requires forall j :: 0 <= j < |a'| && j != i ==> a'[j] == a[j]
    requires Ref(a[i], d, Slot((off + tot) / BSIZE)) != 0 ==> a' == a
    requires (off + tot) / BSIZE < MAXFILE && SameRefs(a, d, a', d', i, BmapSlots((off + tot) / BSIZE))
    ensures Writing(a0, d0, sizes, a', d', i, off, src, tot + m)
  {
    hide Content, Written, StepAt, Ref, NoHoles, Grown, Trimmed, SameRefs, Untouched, Slot, BmapSlots;
    assert |a'| == |a| && Sized(a', d');
    hide Stepped;
    var at, bytes := off + tot, src[tot..tot + m];
    forall j | 0 <= j < |a'| && j != i
      ensures Untouched(a0[j], d0, a'[j], d', sizes[j])
    {
      UntouchedNext(a0[j], d0, a, d, a', d', i, at, bytes, j, sizes[j]);
    }
    PrefixMore(src, tot, m);
    GrownNext(Content(a0[i], d0, sizes[i]), a, d, a', d', i, off, src[..tot], bytes);
    if at < sizes[i] {
      GrownIsMapped(Content(a0[i], d0, sizes[i]), a[i], d, off, src[..tot], at);
    }
  }

  lemma UntouchedNext(a0: seq<nat>, d0: seq<Block>, a: seq<seq<nat>>, d: seq<Block>, a': seq<seq<nat>>, d': seq<Block>,
                      i: nat, at: nat, bytes: seq<Byte>, j: nat, n: nat)
    requires Stepped(a, d, a', d', i, at, bytes) && j < |a| && j != i && a'[j] == a[j]
    requires at / BSIZE < MAXFILE && SameRefs(a, d, a', d', i, BmapSlots(at / BSIZE))
    requires |a0| == NDIRECT + 1 && Untouched(a0, d0, a[j], d, n)
    ensures Untouched(a0, d0, a'[j], d', n)
  {
    SteppedOther(a, d, a', d', i, at, bytes, j, n);
    TrimmedSame(a, d, a', d', i, BmapSlots(at / BSIZE), j, n);
  }

  lemma GrownIsMapped(c: seq<Byte>, a: seq<nat>, d: seq<Block>, off: nat, done: seq<Byte>, p: nat)
    requires |a| == NDIRECT + 1 && off <= |c| <= MAXBYTES && off + |done| <= MAXBYTES && Grown(c, a, d, off, done)
    requires p < MAXBYTES
    ensures p < |c| ==> Ref(a, d, Slot(p / BSIZE)) != 0
    ensures Ref(a, d, Slot(p / BSIZE)) == 0 <==> (if off + |done| > |c| then off + |done| else |c|) <= p / BSIZE * BSIZE
  {
    var n := if off + |done| > |c| then off + |done| else |c|;
    if p < n {
      InsideIsMapped(a, d, n, p);
    }
    hide Ref, Slot;
  }

  lemma GrownNext(c: seq<Byte>, a: seq<seq<nat>>, d: seq<Block>, a': seq<seq<nat>>, d': seq<Block>,
                  i: nat, off: nat, done: seq<Byte>, bytes: seq<Byte>)
    requires Stepped(a, d, a', d', i, off + |done|, bytes) && i < |a|
    requires off <= |c| <= MAXBYTES && off + |done| + |bytes| <= MAXBYTES && Grown(c, a[i], d, off, done)
    requires var at := off + |done|; 0 < |bytes| && SameRefs(a, d, a', d', i, BmapSlots(at / BSIZE))
    ensures Grown(c, a'[i], d', off, done + bytes)
  {
    hide Content, Written, StepAt, Ref, NoHoles, Trimmed, SameRefs, BmapSlots;
    assert Sized(a', d');
    hide Stepped;
    var at := off + |done|;
    var n := if at > |c| then at else |c|;
    var n' := if at + |bytes| > n then at + |bytes| else n;
    SteppedOwn(a, d, a', d', i, at, bytes, n, n');
    WrittenMore(c, off, done, bytes);
    TrimmedNext(a, d, a', d', i, at / BSIZE, n, n');
  }

  lemma LogsNothing(logged: set<Logged>, nmaps: nat, addrs: seq<nat>, data: seq<Block>, size: nat, off: nat)
    requires |addrs| == NDIRECT + 1 && off <= MAXBYTES
    ensures off / BSIZE + Touched(off, 0) <= MAXFILE && Logs(logged, logged, {}, nmaps, addrs, data, size, off, 0)
  {
  }

  lemma WrittenChunk(c: seq<Byte>, start: nat, src: seq<Byte>, n: nat, n1: nat)
    requires start <= |c| && n + n1 <= |src|
    ensures Written(Written(c, start, src[..n]), start + n, src[n..n + n1]) == Written(c, start, src[..n + n1])
  {
    WrittenMore(c, start, src[..n], src[n..n + n1]);
    assert src[..n] + src[n..n + n1] == src[..n + n1];
  }

  /** What writei's loop sees of block k before a pass: whether the slot is empty. */
  lemma WritingSlot(a0: seq<seq<nat>>, d0: seq<Block>, sizes: seq<nat>, a: seq<seq<nat>>, d: seq<Block>,
                    i: nat, off: nat, src: seq<Byte>, tot: nat)
    requires Writing(a0, d0, sizes, a, d, i, off, src, tot) && tot < |src|
    ensures off <= sizes[i] && (off + tot) / BSIZE < MAXFILE
    ensures Ref(a[i], d, Slot((off + tot) / BSIZE)) == 0
       <==> (if sizes[i] < off + tot then off + tot else sizes[i]) <= (off + tot) / BSIZE * BSIZE
  {
    hide Untouched;
    GrownIsMapped(Content(a0[i], d0, sizes[i]), a[i], d, off, src[..tot], off + tot);
  }

  /** The log side of one pass of writei's loop. */
  lemma WroteBlock(before: set<Logged>, mid: set<Logged>, after: set<Logged>, maps: set<Logged>, more: set<Logged>,
                   nmaps: nat, a: seq<seq<nat>>, d: seq<Block>, a': seq<seq<nat>>, d': seq<Block>, i: nat, size: nat,
                   off: nat, tot: nat, bytes: seq<Byte>)
    requires Stepped(a, d, a', d', i, off + tot, bytes) && i < |a| && 0 < |bytes| && off <= size
    requires (off + tot) % BSIZE + |bytes| <= BSIZE && off + tot + |bytes| <= MAXBYTES
    requires off / BSIZE + Touched(off, tot) <= MAXFILE
    requires Logs(before, mid, maps, nmaps, a[i], d, size, off, tot)
    requires var k := (off + tot) / BSIZE; var empty := Ref(a[i], d, Slot(k)) == 0;
      && (empty <==> (if size < off + tot then off + tot else size) <= k * BSIZE)
      && BlockLogged(mid, after, more, nmaps, a'[i], Ref(a'[i], d', Slot(k)), k, empty)
    requires a[i][NDIRECT] != 0 ==> a'[i][NDIRECT] == a[i][NDIRECT]
    ensures off / BSIZE + Touched(off, tot + |bytes|) <= MAXFILE
    ensures Logs(before, after, maps + more, nmaps, a'[i], d', size, off, tot + |bytes|)
  {
    hide Touched, Ref, Slot, Allocates, AddsEntry, FileBlockSet, BlockLogged, EntryBlock, Logs, ByteAt;
    TouchedNext(off, tot, |bytes|);
    AllocatesNext(size, off, tot, |bytes|);
    assert StepAt(a, d, a', d', i, off + tot, bytes, i, off + tot);
    LogsRefs(before, mid, maps, nmaps, a, d, a', d', i, size, off, tot, bytes);
    assert |a'[i]| == |a[i]| == NDIRECT + 1;
    hide Stepped, StepAt;
    var q, k := off / BSIZE, (off + tot) / BSIZE;
    FileBlocksNext(a[i], d, a'[i], d', q, Touched(off, tot), k, Touched(off, tot + |bytes|));
    LogsNext(before, mid, after, maps, more, nmaps, a[i], d, a'[i], d', size, off, tot, tot + |bytes|, k,
             Ref(a[i], d, Slot(k)) == 0);
  }

  /** The blocks logged so far are still the file's. */
  lemma LogsRefs(before: set<Logged>, after: set<Logged>, maps: set<Logged>, nmaps: nat, a: seq<seq<nat>>,
                 d: seq<Block>, a': seq<seq<nat>>, d': seq<Block>, i: nat, size: nat, off: nat, tot: nat,
                 bytes: seq<Byte>)
    requires Stepped(a, d, a', d', i, off + tot, bytes) && i < |a| && off / BSIZE + Touched(off, tot) <= MAXFILE
    requires Logs(before, after, maps, nmaps, a[i], d, size, off, tot)
    ensures forall j :: off / BSIZE <= j < off / BSIZE + Touched(off, tot) ==>
      Ref(a'[i], d', Slot(j)) == Ref(a[i], d, Slot(j)) != 0
  {
    hide Touched, Ref, Slot, FileBlockSet, EntryBlock;
    forall j | off / BSIZE <= j < off / BSIZE + Touched(off, tot)
      ensures Ref(a'[i], d', Slot(j)) == Ref(a[i], d, Slot(j)) != 0
    {
      SteppedRefs(a, d, a', d', i, off + tot, bytes, i, j);
    }
  }

  lemma LogsNext(before: set<Logged>, mid: set<Logged>, after: set<Logged>, maps: set<Logged>, more: set<Logged>,
                 nmaps: nat, addrs: seq<nat>, data: seq<Block>, addrs': seq<nat>, data': seq<Block>, size: nat,
                 off: nat, tot: nat, tot': nat, k: nat, empty: bool)
    requires |addrs| == |addrs'| == NDIRECT + 1 && k < MAXFILE
    requires off / BSIZE + Touched(off, tot) <= MAXFILE && off / BSIZE + Touched(off, tot') <= MAXFILE
    requires Logs(before, mid, maps, nmaps, addrs, data, size, off, tot)
    requires Allocates(size, off, tot') <==> empty || Allocates(size, off, tot)
    requires AddsEntry(size, off, tot') <==> (empty && NDIRECT <= k) || AddsEntry(size, off, tot)
    requires BlockLogged(mid, after, more, nmaps, addrs', Ref(addrs', data', Slot(k)), k, empty)
    requires addrs[NDIRECT] != 0 ==> addrs'[NDIRECT] == addrs[NDIRECT]
    requires forall j :: off / BSIZE <= j < off / BSIZE + Touched(off, tot') ==> Ref(addrs', data', Slot(j)) != 0
    requires FileBlockSet(addrs', data', off / BSIZE, Touched(off, tot'))
          == FileBlockSet(addrs, data, off / BSIZE, Touched(off, tot)) + {DataBlock(Ref(addrs', data', Slot(k)))}
    ensures Logs(before, after, maps + more, nmaps, addrs', data', size, off, tot')
  {
    hide Ref, Slot, Touched, Allocates, AddsEntry, MapBlockSet, FileBlockSet;
    var at, ptr := {DataBlock(Ref(addrs', data', Slot(k)))}, if empty then PointerFor(addrs', k) else {};
    EntryBlockNext(addrs, addrs', size, off, tot, tot', k, empty);
    Sorted(before, FileBlockSet(addrs, data, off / BSIZE, Touched(off, tot)), maps, EntryBlock(addrs, size, off, tot),
           at, more, ptr);
  }

  lemma EntryBlockNext(addrs: seq<nat>, addrs': seq<nat>, size: nat, off: nat, tot: nat, tot': nat, k: nat, empty: bool)
    requires |addrs| == |addrs'| == NDIRECT + 1 && (addrs[NDIRECT] != 0 ==> addrs'[NDIRECT] == addrs[NDIRECT])
    requires AddsEntry(size, off, tot) ==> addrs[NDIRECT] != 0
    requires AddsEntry(size, off, tot') <==> (empty && NDIRECT <= k) || AddsEntry(size, off, tot)
    ensures EntryBlock(addrs', size, off, tot')
      == EntryBlock(addrs, size, off, tot) + if empty then PointerFor(addrs', k) else {}
  {
    hide AddsEntry;
  }

  /** What the loop leaves is a good state of every file, at its new size. */
  lemma WritingDone(a0: seq<seq<nat>>, d0: seq<Block>, sizes: seq<nat>, a: seq<seq<nat>>, d: seq<Block>,
                    i: nat, off: nat, src: seq<Byte>)
    requires Writing(a0, d0, sizes, a, d, i, off, src, |src|)
    ensures var n := if off + |src| > sizes[i] then off + |src| else sizes[i];
      && FileOk(a[i], d, n) && Content(a[i], d, n) == Written(Content(a0[i], d0, sizes[i]), off, src)
      && forall j :: 0 <= j < |a| && j != i ==>
           a[j] == a0[j] && FileOk(a[j], d, sizes[j]) && Content(a[j], d, sizes[j]) == Content(a0[j], d0, sizes[j])
  {
    hide Content, Written, NoHoles;
    assert src[..|src|] == src;
    forall j | 0 <= j < |a| && j != i
      ensures a[j] == a0[j] && FileOk(a[j], d, sizes[j]) && Content(a[j], d, sizes[j]) == Content(a0[j], d0, sizes[j])
    {
      assert Untouched(a0[j], d0, a[j], d, sizes[j]);
    }
  }

  /** Part of one block is a slice of the file. */
  lemma BlockIsSlice(addrs: seq<nat>, data: seq<Block>, n: nat, at: nat, m: nat)
    requires |addrs| == NDIRECT + 1 && at + m <= n <= MAXBYTES && 0 < m && at % BSIZE + m <= BSIZE
    requires var b := Ref(addrs, data, Slot(at / BSIZE)); b < |data| && |data[b]| == BSIZE
    ensures data[Ref(addrs, data, Slot(at / BSIZE))][at % BSIZE..at % BSIZE + m] == Content(addrs, data, n)[at..at + m]
  {
    var s := data[Ref(addrs, data, Slot(at / BSIZE))][at % BSIZE..at % BSIZE + m];
    var c := Content(addrs, data, n)[at..at + m];
    forall x | 0 <= x < m
      ensures s[x] == c[x]
    {
      SameBlock(at, m, at + x);
    }
  }

  lemma PrefixMore(c: seq<Byte>, n: nat, m: nat)
    requires n + m <= |c|
    ensures c[..n] + c[n..n + m] == c[..n + m]
  {
  }

  lemma SliceMore(c: seq<Byte>, from: nat, mid: nat, to: nat)
    requires from <= mid <= to <= |c|
    ensures c[from..mid] + c[mid..to] == c[from..to]
  {
  }

  lemma InsideIsMapped(addrs: seq<nat>, data: seq<Block>, n: nat, p: nat)
    requires |addrs| == NDIRECT + 1 && NoHoles(addrs, data, n) && p < n <= MAXBYTES
    ensures Ref(addrs, data, Slot(p / BSIZE)) != 0
  {
    assert p / BSIZE * BSIZE <= p;
  }

  // ---------------------------------------------------------------- what is on its way to disk

  type Short = x: int | -0x8000 <= x < 0x8000

  /** type, major, minor, nlink */
  datatype Attrs = Attrs(kind: Short, major: Short, minor: Short, nlink: Short)

  /** What the disk blocks hold, as the buffer cache shows them: the bitmap, the blocks, and the inodes. */
  datatype Fs = Fs(bits: seq<seq<bv8>>, data: seq<Block>, addrs: seq<seq<nat>>, sizes: seq<nat>, attrs: seq<Attrs>)

  /** The block is one that operations log. */
  predicate FileBlock(x: Logged, fs: Fs, meta: nat) {
    match x
    case MapBlock(n) => n < |fs.bits|
    case DataBlock(b) => meta <= b < |fs.data|
    case InodeBlock(n) => n <= |fs.addrs| / IPB
  }

  predicate SameInode(a: Fs, b: Fs, i: nat)
    requires i < |a.addrs| == |a.sizes| == |a.attrs| == |b.addrs| == |b.sizes| == |b.attrs|
  {
    a.addrs[i] == b.addrs[i] && a.sizes[i] == b.sizes[i] && a.attrs[i] == b.attrs[i]
  }

  /** Every block that differs from what it was has been logged. */
  ghost predicate Covers(was: Fs, now: Fs, logged: set<Logged>, meta: nat) {
    && |was.bits| == |now.bits| && |was.data| == |now.data|
    && |was.addrs| == |was.sizes| == |was.attrs| == |now.addrs| == |now.sizes| == |now.attrs|
    && (forall x :: x in logged ==> FileBlock(x, now, meta))
    && (forall n :: 0 <= n < |was.bits| && MapBlock(n) !in logged ==> now.bits[n] == was.bits[n])
    && (forall b :: 0 <= b < |was.data| && DataBlock(b) !in logged ==> now.data[b] == was.data[b])
    && (forall i :: 0 <= i < |was.addrs| && InodeBlock(i / IPB) !in logged ==> SameInode(was, now, i))
  }

  lemma CoversMap(was: Fs, now: Fs, logged: set<Logged>, meta: nat, size: nat, b: nat, used: bool)
    requires Covers(was, now, logged, meta) && Shaped(now.bits, size) && b < size
    ensures Covers(was, now.(bits := Mark(now.bits, size, b, used)), logged + {MapBlock(b / BPB)}, meta)
  {
    hide With, Has;
  }

  lemma CoversData(was: Fs, now: Fs, logged: set<Logged>, meta: nat, b: nat, v: Block)
    requires Covers(was, now, logged, meta) && meta <= b < |now.data|
    ensures Covers(was, now.(data := now.data[b := v]), logged + {DataBlock(b)}, meta)
  {
  }

  lemma CoversInode(was: Fs, now: Fs, logged: set<Logged>, meta: nat, i: nat, addrs: seq<nat>, n: nat, attrs: Attrs)
    requires Covers(was, now, logged, meta) && i < |now.addrs|
    ensures var to := now.(addrs := now.addrs[i := addrs], sizes := now.sizes[i := n], attrs := now.attrs[i := attrs]);
      Covers(was, to, logged + {InodeBlock(i / IPB)}, meta)
  {
    var now' := now.(addrs := now.addrs[i := addrs], sizes := now.sizes[i := n], attrs := now.attrs[i := attrs]);
    forall j | 0 <= j < |was.addrs| && InodeBlock(j / IPB) !in logged + {InodeBlock(i / IPB)}
      ensures SameInode(was, now', j)
    {
      assert SameInode(was, now, j);
    }
  }

  /** balloc: the bitmap block, and the block zeroed. */
  lemma CoversAlloc(was: Fs, now: Fs, logged: set<Logged>, meta: nat, size: nat, b: nat)
    requires Covers(was, now, logged, meta) && Shaped(now.bits, size) && meta <= b < size == |now.data|
    ensures Covers(was, now.(bits := Mark(now.bits, size, b, true), data := now.data[b := ZERO]),
                   logged + {MapBlock(b / BPB), DataBlock(b)}, meta)
  {
    hide Covers, Mark;
    CoversMap(was, now, logged, meta, size, b, true);
    CoversData(was, now.(bits := Mark(now.bits, size, b, true)), logged + {MapBlock(b / BPB)}, meta, b, ZERO);
    assert logged + {MapBlock(b / BPB)} + {DataBlock(b)} == logged + {MapBlock(b / BPB), DataBlock(b)};
  }

  class FileSystem {
    const size: nat                // sb.size
    const meta: nat                // the first data block
    var bits: seq<seq<bv8>>        // the bitmap blocks
    var data: seq<Block>           // every block, as bytes
    var addrs: seq<seq<nat>>       // ip->addrs and ip->size of each inode in memory
    var sizes: seq<nat>
    var attrs: seq<Attrs>
    var diskAddrs: seq<seq<nat>>   // the same on disk
    var diskSizes: seq<nat>
    var diskAttrs: seq<Attrs>
    ghost var owner: seq<Owner>
    ghost var logged: set<Logged>  // what the current operation has given to log_write
    ghost var was: Fs              // what the blocks held when it began

    /** A file system whose inodes are empty and whose bitmap marks the metadata blocks. */
    constructor (size: nat, meta: nat, bits: seq<seq<bv8>>, data: seq<Block>, attrs: seq<Attrs>)
      requires Shaped(bits, size) && 0 < meta <= size == |data| <= UINT
      requires forall b :: 0 <= b < |data| ==> |data[b]| == BSIZE
      requires forall b :: 0 <= b < size ==> (InUse(bits, size, b) <==> b < meta)
      ensures Valid() && |this.addrs| == |attrs| && forall i :: 0 <= i < |attrs| ==> Bytes(i) == []
      ensures this.size == size && this.meta == meta && this.bits == bits && this.attrs == attrs
      ensures logged == {}
    {
      this.size := size;
      this.meta := meta;
      this.bits := bits;
      this.data := data;
      this.attrs := attrs;
      addrs := seq(|attrs|, _ => seq(NDIRECT + 1, _ => 0));
      sizes := seq(|attrs|, _ => 0);
      diskAddrs := seq(|attrs|, _ => seq(NDIRECT + 1, _ => 0));
      diskSizes := seq(|attrs|, _ => 0);
      diskAttrs := attrs;
      owner := seq(size, _ => Nobody);
      logged := {};
      was := Fs(bits, data, diskAddrs, diskSizes, diskAttrs);
      new;
      hide InUse;
      assert diskAddrs == addrs && diskSizes == sizes;
    }

    /** The block tree and the bitmap agree. */
    ghost predicate BlocksOk()
      reads this
    {
      Shaped(bits, size) && |data| == size && Tree(addrs, data, owner, meta) && BitsOk(bits, size, owner, meta)
    }

    /** Every block is in use. */
    ghost predicate Full()
      reads this
      requires Shaped(bits, size)
    {
      forall x :: 0 <= x < size ==> InUse(bits, size, x)
    }

    ghost function OnDisk(): Fs
      reads this
    {
      Fs(bits, data, diskAddrs, diskSizes, diskAttrs)
    }

    /** The current operation has logged every block it changed. */
    ghost predicate Covered()
      reads this
    {
      Covers(was, OnDisk(), logged, meta)
    }

    /** begin_op, as far as the files go */
    method Begin()
      requires |diskAddrs| == |diskSizes| == |diskAttrs|
      modifies `logged, `was
      ensures logged == {} && was == OnDisk() && Covered()
    {
      logged := {};
      was := OnDisk();
    }

    /** No file has a hole, every inode on disk is the one in memory, and every change is logged. */
    ghost predicate Valid()
      reads this
    {
      && BlocksOk() && |sizes| == |diskAddrs| == |diskSizes| == |attrs| == |diskAttrs| == |addrs|
      && (forall i :: 0 <= i < |addrs| ==> FileOk(addrs[i], data, sizes[i]))
      && diskAddrs == addrs && diskSizes == sizes && diskAttrs == attrs && Covered()
    }

    /** The bytes of file i. */
    ghost function Bytes(i: nat): seq<Byte>
      reads this
      requires Valid() && i < |addrs|
    {
      Content(addrs[i], data, sizes[i])
    }

    method Balloc() returns (ok: bool, r: nat)
      requires Shaped(bits, size) && |data| == size
      modifies `bits, `data, `logged
      ensures Shaped(bits, size) && |data| == size
      ensures ok ==> r < size && !InUse(old(bits), size, r) && forall x :: 0 <= x < r ==> InUse(old(bits), size, x)
      ensures ok ==> bits == Mark(old(bits), size, r, true) && data == old(data)[r := ZERO]
      ensures ok ==> logged == old(logged) + {MapBlock(r / BPB), DataBlock(r)}
      ensures !ok ==> bits == old(bits) && data == old(data) && logged == old(logged)
      ensures !ok ==> forall x :: 0 <= x < size ==> InUse(bits, size, x)
    {
      hide Has, With;
      var b := 0;
      while b < size
        invariant b % BPB == 0 && bits == old(bits) && data == old(data) && logged == old(logged)
        invariant forall x :: 0 <= x < b && x < size ==> InUse(bits, size, x)
      {
        var bi := 0;
        while bi < BPB && b + bi < size
          invariant bi <= BPB && (bi == 0 || b + bi <= size) && bits == old(bits) && data == old(data)
          invariant logged == old(logged)
          invariant forall x :: 0 <= x < b + bi && x < size ==> InUse(bits, size, x)
        {
          BitPlace(b, bi);
          if !Has(bits[b / BPB][bi / 8], bi % 8) {
            bits := bits[b / BPB := bits[b / BPB][bi / 8 := With(bits[b / BPB][bi / 8], bi % 8, true)]];
            data := data[b + bi := ZERO];
            logged := logged + {MapBlock(b / BPB), DataBlock(b + bi)};
            return true, b + bi;
          }
          bi := bi + 1;
        }
        b := b + BPB;
      }
      return false, 0;
    }

    method Bfree(b: nat) returns (ok: bool)
      requires Shaped(bits, size) && b < size
      modifies `bits, `logged
      ensures ok == InUse(old(bits), size, b)
      ensures bits == if ok then Mark(old(bits), size, b, false) else old(bits)
      ensures logged == if ok then old(logged) + {MapBlock(b / BPB)} else old(logged)
    {
      hide Has, With;
      var bi := b % BPB;
      if !Has(bits[b / BPB][bi / 8], bi % 8) {
        return false;
      }
      bits := bits[b / BPB := bits[b / BPB][bi / 8 := With(bits[b / BPB][bi / 8], bi % 8, false)]];
      logged := logged + {MapBlock(b / BPB)};
      return true;
    }

    /** bmap's ip->addrs[k] = balloc(), for a direct address or the indirect pointer */
    method AllocAddr(i: nat, k: nat) returns (ok: bool, b: nat)
      requires BlocksOk() && Covered() && i < |addrs| && k <= NDIRECT && addrs[i][k] == 0
      modifies `bits, `data, `addrs, `owner, `logged
      ensures ok ==> BlocksOk() && 0 < b < size && addrs == SetAddr(old(addrs), i, k, b) && |bits| == |old(bits)|
      ensures ok ==> data[b] == ZERO && logged == old(logged) + {MapBlock(b / BPB), DataBlock(b)}
      ensures ok ==> Kept(old(addrs), old(data), addrs, data) && SameRefs(old(addrs), old(data), addrs, data, i, {k})
      ensures !ok ==> unchanged(this) && Full()
      ensures Covered()
    {
      hide InUse, Mark, Covers;
      ok, b := Balloc();
      if !ok {
        return;
      }
      LinkAfterZero(old(bits), size, old(addrs), old(data), owner, meta, i, k, b);
      addrs := SetAddr(addrs, i, k, b);
      FreeIsData(old(bits), size, owner, meta, b);
      CoversAlloc(was, old(OnDisk()), old(logged), meta, size, b);
      owner := owner[b := At(i, k)];
    }

    /** bmap's a[j] = balloc() in the indirect block */
    method AllocEntry(i: nat, j: nat) returns (ok: bool, b: nat)
      requires BlocksOk() && Covered() && i < |addrs| && j < NINDIRECT
      requires 0 < addrs[i][NDIRECT] && Ref(addrs[i], data, j + NDIRECT + 1) == 0
      modifies `bits, `data, `owner, `logged
      ensures ok ==> BlocksOk() && 0 < b < size && Ref(addrs[i], data, j + NDIRECT + 1) == b && |bits| == |old(bits)|
      ensures ok ==> data[b] == ZERO
      ensures ok ==> logged == old(logged) + {MapBlock(b / BPB), DataBlock(b), DataBlock(addrs[i][NDIRECT])}
      ensures ok ==> Kept(addrs, old(data), addrs, data)
      ensures ok ==> SameRefs(addrs, old(data), addrs, data, i, {j + NDIRECT + 1})
      ensures !ok ==> unchanged(this) && Full()
      ensures Covered()
    {
      hide InUse, Mark, Covers;
      ok, b := Balloc();
      if !ok {
        return;
      }
      EntryAfterZero(old(bits), size, addrs, old(data), owner, meta, i, j, b);
      FreeIsData(old(bits), size, owner, meta, b);
      CoversAlloc(was, old(OnDisk()), old(logged), meta, size, b);
      var p := addrs[i][NDIRECT];
      RefIsData(addrs, old(data), owner, meta, i, NDIRECT);
      CoversData(was, OnDisk(), logged, meta, p, SetWord(data[p], j, b));
      data := data[p := SetWord(data[p], j, b)];
      logged := logged + {DataBlock(p)};
      owner := owner[b := At(i, j + NDIRECT + 1)];
    }

    /** The block of the file's bn-th 512 bytes, allocated if need be; what was there stays. maps are the bitmap
        blocks marked. */
    method Bmap(i: nat, bn: nat) returns (ok: bool, addr: nat, ghost maps: set<Logged>)
      requires BlocksOk() && Covered() && i < |addrs|
      modifies `bits, `data, `addrs, `owner, `logged
      ensures ok ==> bn < MAXFILE && BlocksOk() && |addrs| == |old(addrs)| && |bits| == |old(bits)| && 0 < addr < size
      ensures ok ==> addr == Ref(addrs[i], data, Slot(bn)) && Kept(old(addrs), old(data), addrs, data)
      ensures ok ==> SameRefs(old(addrs), old(data), addrs, data, i, BmapSlots(bn))
      ensures ok ==> forall j :: 0 <= j < |addrs| && j != i ==> addrs[j] == old(addrs)[j]
      ensures bn < MAXFILE && old(Ref(addrs[i], data, Slot(bn))) != 0 ==> ok && maps == {} && unchanged(this)
      ensures ok && old(Ref(addrs[i], data, Slot(bn))) == 0 ==>
        && data[addr] == ZERO && SomeMaps(maps, |bits|) && (NDIRECT <= bn ==> addrs[i][NDIRECT] != 0)
        && logged == old(logged) + {DataBlock(addr)} + maps + PointerFor(addrs[i], bn)
      ensures !ok && bn < MAXFILE ==> BlocksOk() && |addrs| == |old(addrs)| && Full()
      ensures Covered()
    {
      hide InUse, Full, Covers;
      maps := {};
      KeptSelf(addrs, data, owner, meta);
      if bn < NDIRECT {
        addr := addrs[i][bn];
        if addr == 0 {
          ok, addr := AllocAddr(i, bn);
          maps := {MapBlock(addr / BPB)};
          return;
        }
        assert RefOk(addrs[i], data, owner, i, bn);
        return true, addr, {};
      }
      var n := bn - NDIRECT;
      if n < NINDIRECT {
        ok, addr, maps := BmapIndirect(i, n);
        return;
      }
      return false, 0, {};
    }

    method BmapIndirect(i: nat, n: nat) returns (ok: bool, addr: nat, ghost maps: set<Logged>)
      requires BlocksOk() && Covered() && i < |addrs| && n < NINDIRECT
      modifies `bits, `data, `addrs, `owner, `logged
      ensures ok ==> BlocksOk() && |addrs| == |old(addrs)| && |bits| == |old(bits)| && 0 < addr < size
      ensures ok ==> addr == Ref(addrs[i], data, n + NDIRECT + 1) && Kept(old(addrs), old(data), addrs, data)
      ensures ok ==> SameRefs(old(addrs), old(data), addrs, data, i, {n + NDIRECT + 1, NDIRECT})
      ensures ok ==> forall j :: 0 <= j < |addrs| && j != i ==> addrs[j] == old(addrs)[j]
      ensures old(Ref(addrs[i], data, n + NDIRECT + 1)) != 0 ==> ok && maps == {} && unchanged(this)
      ensures ok && old(Ref(addrs[i], data, n + NDIRECT + 1)) == 0 ==>
        && data[addr] == ZERO && SomeMaps(maps, |bits|) && addrs[i][NDIRECT] != 0
        && logged == old(logged) + {DataBlock(addr)} + maps + {DataBlock(addrs[i][NDIRECT])}
      ensures !ok ==> BlocksOk() && |addrs| == |old(addrs)| && Full()
      ensures Covered()
    {
      hide InUse, Full, SameRefs, Covers;
      KeptSelf(addrs, data, owner, meta);
      SameSelf(addrs, data, i, {NDIRECT});
      ok, maps := true, {};
      addr := addrs[i][NDIRECT];
      if addr == 0 {
        ok, addr := AllocAddr(i, NDIRECT);
        if !ok {
          return;
        }
        maps := {MapBlock(addr / BPB)};
      }
      assert RefOk(addrs[i], data, owner, i, NDIRECT);
      ghost var a', d' := addrs, data;
      addr := Word(data[addr], n);
      assert RefOk(addrs[i], data, owner, i, n + NDIRECT + 1);
      if addr == 0 {
        ok, addr := AllocEntry(i, n);
        if ok {
          maps := maps + {MapBlock(addr / BPB)};
          KeptTwice(old(addrs), old(data), a', d', addrs, data);
          SameTwice(old(addrs), old(data), a', d', addrs, data, i, {NDIRECT}, {n + NDIRECT + 1});
          assert {NDIRECT} + {n + NDIRECT + 1} == {n + NDIRECT + 1, NDIRECT};
        }
      } else {
        SameSelf(addrs, data, i, {n + NDIRECT + 1, NDIRECT});
      }
    }

    /** itrunc's first loop */
    method FreeDirect(i: nat) returns (ok: bool, ghost maps: set<Logged>)
      requires BlocksOk() && Covered() && i < |addrs|
      modifies `bits, `addrs, `owner, `logged
      ensures ok && BlocksOk() && |addrs| == |old(addrs)|
      ensures forall j :: 0 <= j < |addrs| && j != i ==> addrs[j] == old(addrs)[j]
      ensures forall k :: 0 <= k < NDIRECT ==> addrs[i][k] == 0
      ensures addrs[i][NDIRECT] == old(addrs)[i][NDIRECT]
      ensures Released(old(owner), owner, i, NDIRECT)
      ensures Covered() && FreedIn(old(logged), logged, maps, |bits|) && |bits| == |old(bits)|
      ensures old(addrs)[i][0] != 0 ==> maps != {}
      ensures (forall k :: 0 <= k < NDIRECT ==> old(addrs)[i][k] == 0) ==> maps == {}
    {
      hide InUse, Covers, FreedIn;
      FreedNone(logged, |bits|);
      maps := {};
      var n := 0;
      while n < NDIRECT
        invariant n <= NDIRECT && BlocksOk() && Covered() && |addrs| == |old(addrs)|
        invariant forall j :: 0 <= j < |addrs| && j != i ==> addrs[j] == old(addrs)[j]
        invariant forall k :: 0 <= k < n ==> addrs[i][k] == 0
        invariant forall k :: n <= k <= NDIRECT ==> addrs[i][k] == old(addrs)[i][k]
        invariant Released(old(owner), owner, i, n)
        invariant FreedIn(old(logged), logged, maps, |bits|) && |bits| == |old(bits)|
        invariant 0 < n && old(addrs)[i][0] != 0 ==> maps != {}
        invariant (forall k :: 0 <= k < NDIRECT ==> old(addrs)[i][k] == 0) ==> maps == {}
      {
        var b := addrs[i][n];
        assert RefOk(addrs[i], data, owner, i, n);
        ReleasedNext(addrs, data, owner, meta, old(owner), i, n);
        if b != 0 {
          assert BitOk(bits, size, owner, meta, b) && OwnerOk(addrs, data, owner, meta, b);
          DropBit(bits, size, owner, meta, b);
          UnlinkKeepsTree(addrs, data, owner, meta, i, n);
          CoversMap(was, OnDisk(), logged, meta, size, b, false);
          FreedMore(old(logged), logged, maps, bits, size, b);
          ok := Bfree(b);
          if !ok {
            return;
          }
          maps := maps + {MapBlock(b / BPB)};
          addrs := SetAddr(addrs, i, n, 0);
          owner := owner[b := Nobody];
        }
        n := n + 1;
      }
      return true, maps;
    }

    /** itrunc's second loop: the entries of the indirect block, which keeps its contents */
    method FreeEntries(i: nat, p: nat) returns (ok: bool, ghost maps: set<Logged>)
      requires BlocksOk() && Covered() && i < |addrs| && p == addrs[i][NDIRECT] && p != 0
      modifies `bits, `logged
      ensures ok && Shaped(bits, size) && EntriesFreed(old(bits), bits, size, owner, i, NINDIRECT)
      ensures Covered() && FreedIn(old(logged), logged, maps, |bits|) && |bits| == |old(bits)|
    {
      hide InUse, Covers, FreedIn;
      FreedNone(logged, |bits|);
      maps := {};
      assert RefOk(addrs[i], data, owner, i, NDIRECT);
      var n := 0;
      while n < NINDIRECT
        invariant n <= NINDIRECT && Covered() && Shaped(bits, size) && EntriesFreed(old(bits), bits, size, owner, i, n)
        invariant FreedIn(old(logged), logged, maps, |bits|) && |bits| == |old(bits)|
      {
        var e := Word(data[p], n);
        FreeEntry(old(bits), bits, size, addrs, data, owner, meta, i, n, e);
        if e != 0 {
          CoversMap(was, OnDisk(), logged, meta, size, e, false);
          FreedMore(old(logged), logged, maps, bits, size, e);
          ok := Bfree(e);
          if !ok {
            return;
          }
          maps := maps + {MapBlock(e / BPB)};
        }
        n := n + 1;
      }
      return true, maps;
    }

    method FreeTree(i: nat) returns (ok: bool, ghost maps: set<Logged>)
      requires BlocksOk() && Covered() && i < |addrs|
      modifies `bits, `addrs, `owner, `logged
      ensures ok && BlocksOk() && |addrs| == |old(addrs)|
      ensures forall j :: 0 <= j < |addrs| && j != i ==> addrs[j] == old(addrs)[j]
      ensures forall k :: 0 <= k <= NDIRECT ==> addrs[i][k] == 0
      ensures Released(old(owner), owner, i, NSLOTS)
      ensures Covered() && FreedIn(old(logged), logged, maps, |bits|) && |bits| == |old(bits)|
      ensures old(addrs)[i][0] != 0 ==> maps != {}
      ensures (forall k :: 0 <= k <= NDIRECT ==> old(addrs)[i][k] == 0) ==> maps == {}
    {
      hide InUse, Covers, FreedIn;
      forall b | 0 <= b < size
        ensures owner[b].At? ==> owner[b].k < NSLOTS
      {
        assert OwnerOk(addrs, data, owner, meta, b);
      }
      ok, maps := FreeDirect(i);
      var p := addrs[i][NDIRECT];
      ReleasedAll(addrs, data, owner, meta, old(owner), i);
      if p != 0 {
        ghost var bits1 := bits;
        ghost var mid, more := logged, {};
        ok, more := FreeEntries(i, p);
        FreedBoth(old(logged), mid, logged, maps, more, |bits|);
        maps := maps + more;
        FreeIndirect(bits1, bits, size, addrs, data, owner, meta, i, p);
        DropKeepsTree(addrs, data, owner, meta, i);
        CoversMap(was, OnDisk(), logged, meta, size, p, false);
        FreedMore(old(logged), logged, maps, bits, size, p);
        ok := Bfree(p);
        maps := maps + {MapBlock(p / BPB)};
        addrs := SetAddr(addrs, i, NDIRECT, 0);
        owner := Dropped(owner, i);
      }
    }

    /** Frees the inode's own blocks and no other; "freeing free block" never fires. */
    method Itrunc(i: nat) returns (ok: bool, ghost maps: set<Logged>)
      requires Valid() && i < |addrs|
      modifies this
      ensures ok && Valid() && data == old(data) && |addrs| == |old(addrs)| && attrs == old(attrs)
      ensures sizes == old(sizes)[i := 0] && (forall k :: 0 <= k <= NDIRECT ==> addrs[i][k] == 0)
      ensures forall j :: 0 <= j < |addrs| && j != i ==> addrs[j] == old(addrs)[j]
      ensures forall b :: 0 <= b < size ==>
        (InUse(bits, size, b) <==> InUse(old(bits), size, b) && !(old(owner)[b].At? && old(owner)[b].i == i))
      ensures was == old(was) && |bits| == |old(bits)|
      ensures logged == old(logged) + maps + {InodeBlock(i / IPB)} && maps <= MapBlockSet(|bits|)
      ensures maps != {} <==> 0 < old(sizes)[i]
    {
      hide InUse, Covers;
      EmptyHasNone(addrs[i], data, sizes[i]);
      ok, maps := FreeTree(i);
      sizes := sizes[i := 0];
      Iupdate(i);
      forall b | 0 <= b < size
        ensures InUse(bits, size, b) <==> InUse(old(bits), size, b) && !(old(owner)[b].At? && old(owner)[b].i == i)
      {
        assert BitOk(old(bits), size, old(owner), meta, b) && BitOk(bits, size, owner, meta, b);
        assert OwnerOk(old(addrs), data, old(owner), meta, b);
      }
    }

    /** One pass of writei's loop: bmap, then copy into the block. */
    method WriteBlock(i: nat, off: nat, bytes: seq<Byte>) returns (ok: bool, ghost maps: set<Logged>)
      requires BlocksOk() && Covered() && i < |addrs| && off < MAXBYTES && off % BSIZE + |bytes| <= BSIZE
      modifies `bits, `data, `addrs, `owner, `logged
      ensures ok ==> BlocksOk() && Stepped(old(addrs), old(data), addrs, data, i, off, bytes) && |addrs| == |old(addrs)|
      ensures ok ==> |bits| == |old(bits)| && SameRefs(old(addrs), old(data), addrs, data, i, BmapSlots(off / BSIZE))
      ensures ok ==> forall j :: 0 <= j < |addrs| && j != i ==> addrs[j] == old(addrs)[j]
      ensures ok ==> old(addrs)[i][NDIRECT] != 0 ==> addrs[i][NDIRECT] == old(addrs)[i][NDIRECT]
      ensures ok ==>
        BlockLogged(old(logged), logged, maps, |bits|, addrs[i], Ref(addrs[i], data, Slot(off / BSIZE)), off / BSIZE,
                                 old(Ref(addrs[i], data, Slot(off / BSIZE))) == 0)
      ensures old(Ref(addrs[i], data, Slot(off / BSIZE))) != 0 ==> ok && addrs == old(addrs)
      ensures !ok ==> BlocksOk() && |addrs| == |old(addrs)| && Full()
      ensures Covered()
    {
      hide InUse, Full, SameRefs, Covers;
      var b;
      ok, b, maps := Bmap(i, off / BSIZE);
      if ok {
        BmapThenPatch(old(addrs), old(data), addrs, data, owner, meta, i, off, bytes, b);
        assert KeptAt(old(addrs)[i], old(data), addrs[i], data, NDIRECT);
        assert RefOk(addrs[i], data, owner, i, Slot(off / BSIZE));
        RefAfterWrite(addrs, data, owner, meta, b, Patch(data[b], off % BSIZE, bytes), i, Slot(off / BSIZE));
        WriteSame(addrs, data, owner, meta, b, Patch(data[b], off % BSIZE, bytes), i, {});
        SameTwice(old(addrs), old(data), addrs, data, addrs, data[b := Patch(data[b], off % BSIZE, bytes)], i,
                  BmapSlots(off / BSIZE), {});
        assert BmapSlots(off / BSIZE) + {} == BmapSlots(off / BSIZE);
        RefIsData(addrs, data, owner, meta, i, Slot(off / BSIZE));
        CoversData(was, OnDisk(), logged, meta, b, Patch(data[b], off % BSIZE, bytes));
        data := data[b := Patch(data[b], off % BSIZE, bytes)];
        logged := logged + {DataBlock(b)};
      }
    }

    /** writei's loop */
    method WriteLoop(i: nat, src: seq<Byte>, off: nat) returns (ok: bool, ghost maps: set<Logged>)
      requires Valid() && i < |addrs| && off <= sizes[i] && off + |src| <= MAXBYTES
      modifies `bits, `data, `addrs, `owner, `logged
      ensures ok ==> BlocksOk() && Writing(old(addrs), old(data), sizes, addrs, data, i, off, src, |src|)
      ensures ok ==> |bits| == |old(bits)| && off / BSIZE + Touched(off, |src|) <= MAXFILE
      ensures ok ==> Logs(old(logged), logged, maps, |bits|, addrs[i], data, sizes[i], off, |src|)
      ensures !ok ==> BlocksOk() && |addrs| == |old(addrs)| && Full()
      ensures Covered()
    {
      hide InUse, Full, Covers, Writing, Logs, Stepped, SameRefs, Touched, Ref, BlockLogged, FileOk;
      var tot := 0;
      maps := {};
      WritingStarts(addrs, data, sizes, i, off, src);
      LogsNothing(logged, |bits|, addrs[i], data, sizes[i], off);
      while tot < |src|
        invariant tot <= |src| && BlocksOk() && Covered() && |addrs| == |old(addrs)| && |bits| == |old(bits)|
        invariant Writing(old(addrs), old(data), sizes, addrs, data, i, off, src, tot)
        invariant off / BSIZE + Touched(off, tot) <= MAXFILE
        invariant Logs(old(logged), logged, maps, |bits|, addrs[i], data, sizes[i], off, tot)
      {
        var at := off + tot;
        var m := if |src| - tot < BSIZE - at % BSIZE then |src| - tot else BSIZE - at % BSIZE;
        ghost var a, d, mid, more := addrs, data, logged, {};
        WritingSlot(old(addrs), old(data), sizes, addrs, data, i, off, src, tot);
        ok, more := WriteBlock(i, at, src[tot..tot + m]);
        if !ok {
          return;
        }
        WritingNext(old(addrs), old(data), sizes, a, d, addrs, data, i, off, src, tot, m);
        WroteBlock(old(logged), mid, logged, maps, more, |bits|, a, d, addrs, data, i, sizes[i], off, tot,
                   src[tot..tot + m]);
        maps := maps + more;
        tot := tot + m;
      }
      return true, maps;
    }

    /** An accepted write sets exactly the bytes [off, off + |src|) and grows the file to hold them; every other file is
        as before; and the inode on disk is the inode in memory, also when iupdate is skipped. */
    method Writei(i: nat, src: seq<Byte>, off: nat) returns (ok: bool, r: int, ghost added: set<Logged>)
      requires Valid() && i < |addrs| && off < UINT && |src| < UINT
      modifies this
      ensures RefusesWrite(old(sizes)[i], off, |src|) ==> ok && r == -1 && unchanged(this)
      ensures ok && !RefusesWrite(old(sizes)[i], off, |src|) ==>
        && r == |src| && Valid() && |addrs| == |old(addrs)| && attrs == old(attrs)
        && Bytes(i) == Written(old(Bytes(i)), off, src)
        && forall j :: 0 <= j < |addrs| && j != i ==> addrs[j] == old(addrs)[j] && Bytes(j) == old(Bytes(j))
      ensures ok && !RefusesWrite(old(sizes)[i], off, |src|) ==>
        var cost := Cost(old(sizes)[i], off, |src|);
        && |bits| == |old(bits)| && logged == old(logged) + added
        && off / BSIZE + Touched(off, |src|) <= MAXFILE
        && FileBlockSet(addrs[i], data, off / BSIZE, Touched(off, |src|)) <= added
        && cost <= |added| <= cost + if Allocates(old(sizes)[i], off, |src|) then |bits| - 1 else 0
      ensures !ok ==> BlocksOk() && |addrs| == |old(addrs)| && Full()
      ensures Covered() && was == old(was)
    {
      hide InUse, Logs, Touched, Full, Covers, FileBlockSet;
      added := {};
      RefusalsExact(sizes[i], off, |src|);
      if off > sizes[i] || (off + |src|) % UINT < off {
        return true, -1, {};
      }
      if (off + |src|) % UINT > MAXBYTES {
        return true, -1, {};
      }
      ghost var maps;
      ok, maps := WriteLoop(i, src, off);
      if !ok {
        return false, 0, {};
      }
      WritingDone(old(addrs), old(data), old(sizes), addrs, data, i, off, src);
      added := LogsCount(old(logged), logged, maps, addrs, data, owner, meta, |bits|, i, sizes[i], off, |src|,
                         InodeBlock(i / IPB));
      if |src| > 0 && off + |src| > sizes[i] {
        sizes := sizes[i := off + |src|];
        Iupdate(i);
      }
      return true, |src|, added;
    }

    /** One operation of filewrite: a write of part, and the number of blocks it logged. */
    method WriteChunk(i: nat, part: seq<Byte>, off: nat) returns (ok: bool, r: int, ghost count: nat)
      requires Valid() && i < |addrs| && off < UINT && |part| < UINT
      modifies this
      ensures ok ==> Valid() && |addrs| == |old(addrs)| && |bits| == |old(bits)| && attrs == old(attrs)
      ensures off > old(sizes)[i] || off + |part| > MAXBYTES ==>
        ok && r == -1 && sizes == old(sizes) && forall j :: 0 <= j < |addrs| ==> Bytes(j) == old(Bytes(j))
      ensures ok && off <= old(sizes)[i] && off + |part| <= MAXBYTES ==>
        && r == |part| && Bytes(i) == Written(old(Bytes(i)), off, part)
        && (forall j :: 0 <= j < |addrs| && j != i ==> Bytes(j) == old(Bytes(j)))
        && var cost := Cost(old(sizes)[i], off, |part|);
           cost <= count <= cost + if Allocates(old(sizes)[i], off, |part|) then |bits| - 1 else 0
      ensures !ok ==> BlocksOk() && |addrs| == |old(addrs)| && Full()
    {
      hide InUse, Content, Touched, Written, Allocates, Full, Cost, Tree, BitsOk, NoHoles, Trimmed, RefusesWrite,
           Covers, FileBlockSet;
      RefusalsExact(sizes[i], off, |part|);
      Begin();
      ghost var added;
      ok, r, added := Writei(i, part, off);
      NoneBefore(added);
      count := |logged|;
    }

    /** filewrite on a file, at offset f->off: one operation for every MAXCHUNK bytes. Nothing is lost between
        chunks: the file is its old bytes with the first done of src written, all of them unless a chunk would not
        fit; and "short filewrite" never fires. most is the most that any of the operations logged: it is within what
        an operation may log exactly when there is nothing to write, or the first operation is refused or is the only
        one and costs no more. */
    method Filewrite(i: nat, src: seq<Byte>, start: nat)
        returns (ok: bool, r: int, off: nat, ghost done: nat, ghost most: nat)
      requires Valid() && i < |addrs| && start < UINT && |src| < 0x8000_0000
      modifies this
      ensures ok ==> Valid() && |addrs| == |old(addrs)| && done <= |src| && off == start + done
      ensures ok && start <= old(sizes)[i] ==> Bytes(i) == Written(old(Bytes(i)), start, src[..done])
      ensures ok ==> forall j :: 0 <= j < |addrs| && j != i ==> Bytes(j) == old(Bytes(j))
      ensures ok ==> r == if done == |src| then |src| else -1
      ensures ok ==> (r == |src| <==> src == [] || (start <= old(sizes)[i] && start + |src| <= MAXBYTES))
      ensures ok && done >= MAXCHUNK ==> most > MAXOPBLOCKS
      ensures ok && |old(bits)| == 1 ==>
        var (was, n) := (old(sizes)[i], if |src| < MAXCHUNK then |src| else MAXCHUNK);
        && (most <= MAXOPBLOCKS <==>
              start > was || start + n > MAXBYTES || (|src| < MAXCHUNK && Cost(was, start, |src|) <= MAXOPBLOCKS))
        && (start <= was && start + |src| <= MAXBYTES && |src| < MAXCHUNK ==> most == Cost(was, start, |src|))
      ensures ok ==> |bits| == |old(bits)| && attrs == old(attrs)
      ensures !ok ==> BlocksOk() && |addrs| == |old(addrs)| && Full()
    {
      hide InUse, Content, Touched, Written, Allocates, AddsEntry, Full, Cost, Paid, Tree, BitsOk, NoHoles, Trimmed,
           Covers;
      off, done, most := start, 0, 0;
      ghost var c := Bytes(i);
      if start <= sizes[i] {
        WrittenNothing(c, start);
      }
      assert src[..0] == [];
      PaidNothing(|src|, sizes[i], start, |bits|);
      var n := 0;
      while n < |src|
        invariant Valid() && |addrs| == |old(addrs)| && done == n <= |src| && off == start + n
        invariant start <= old(sizes)[i] ==> off <= MAXBYTES && Bytes(i) == Written(c, start, src[..n])
        invariant start > old(sizes)[i] ==> n == 0 && sizes[i] == old(sizes)[i]
        invariant forall j :: 0 <= j < |addrs| && j != i ==> Bytes(j) == old(Bytes(j))
        invariant |bits| == |old(bits)| && attrs == old(attrs) && (n == 0 ==> sizes[i] == old(sizes)[i])
        invariant Paid(most, n, |src|, old(sizes)[i], start, |bits|)
        decreases |src| - n
      {
        var n1 := if |src| - n > MAXCHUNK then MAXCHUNK else |src| - n;
        ghost var count, before := 0, sizes[i];
        ok, r, count := WriteChunk(i, src[n..n + n1], off);
        if !ok {
          return;
        }
        if r < 0 {
          break;
        }
        if r != n1 {
          return false, -1, off, done, most;
        }
        if start <= old(sizes)[i] {
          WrittenChunk(c, start, src, n, n1);
        }
        PaidNext(most, n, n1, |src|, old(sizes)[i], before, start, |bits|, count);
        most := if count > most then count else most;
        off := off + r;
        n := n + r;
        done := n;
      }
      PaidEnds(most, n, |src|, old(sizes)[i], start, |bits|);
      return true, if n == |src| then |src| else -1, off, done, most;
    }

    /** One pass of readi's loop: bmap finds the block, without allocating. */
    method ReadBlock(i: nat, at: nat, m: nat) returns (part: seq<Byte>)
      requires Valid() && i < |addrs| && 0 < m && at + m <= sizes[i] && at % BSIZE + m <= BSIZE
      modifies `bits, `data, `addrs, `owner, `logged
      ensures unchanged(this) && part == Bytes(i)[at..at + m]
    {
      hide InUse, Ref, NoHoles, BitsOk;
      assert FileOk(addrs[i], data, sizes[i]);
      InsideIsMapped(addrs[i], data, sizes[i], at);
      var ok, b;
      ghost var maps;
      ok, b, maps := Bmap(i, at / BSIZE);
      BlockIsSlice(addrs[i], data, sizes[i], at, m);
      part := data[b][at % BSIZE..at % BSIZE + m];
    }

    /** A read returns the part of the file it asks for, cut at the end of the file, and changes nothing. */
    method Readi(i: nat, off: nat, n: nat) returns (ok: bool, r: int, dst: seq<Byte>)
      requires Valid() && i < |addrs| && off < UINT && n < UINT
      modifies `bits, `data, `addrs, `owner, `logged
      ensures ok && unchanged(this)
      ensures RefusesRead(sizes[i], off, n) ==> r == -1 && dst == []
      ensures !RefusesRead(sizes[i], off, n) ==>
        r == ReadCount(sizes[i], off, n) && 0 <= r && off + r <= |Bytes(i)| && dst == Bytes(i)[off..off + r]
    {
      hide InUse, Ref, NoHoles, BitsOk, Content;
      RefusalsExact(sizes[i], off, n);
      if off > sizes[i] || (off + n) % UINT < off {
        return true, -1, [];
      }
      var count := if (off + n) % UINT > sizes[i] then sizes[i] - off else n;
      dst := [];
      var tot := 0;
      while tot < count
        invariant tot <= count && unchanged(this) && dst == Bytes(i)[off..off + tot]
      {
        var m := if count - tot < BSIZE - (off + tot) % BSIZE then count - tot else BSIZE - (off + tot) % BSIZE;
        var part := ReadBlock(i, off + tot, m);
        SliceMore(Bytes(i), off, off + tot, off + tot + m);
        dst := dst + part;
        tot := tot + m;
      }
      return true, count, dst;
    }

    /** The inode on disk becomes the one in memory, all of it; the others stay. */
    method Iupdate(i: nat)
      requires i < |addrs| == |sizes| == |attrs| == |diskAddrs| == |diskSizes| == |diskAttrs|
      requires Covered()
      modifies `diskAddrs, `diskSizes, `diskAttrs, `logged
      ensures diskAddrs == old(diskAddrs)[i := addrs[i]] && diskSizes == old(diskSizes)[i := sizes[i]]
      ensures diskAttrs == old(diskAttrs)[i := attrs[i]] && logged == old(logged) + {InodeBlock(i / IPB)}
      ensures Covered()
    {
      CoversInode(was, OnDisk(), logged, meta, i, addrs[i], sizes[i], attrs[i]);
      hide Covers;
      logged := logged + {InodeBlock(i / IPB)};
      diskAttrs := diskAttrs[i := attrs[i]];
      diskSizes := diskSizes[i := sizes[i]];
      diskAddrs := diskAddrs[i := addrs[i]];
    }
  }

  // ---------------------------------------------------------------- room

  /** A number for each slot of each inode. */
  function Code(o: Owner): nat
    requires o.At?
  {
    o.i * NSLOTS + o.k
  }

  ghost function Codes(owner: seq<Owner>, meta: nat, n: nat): set<nat>
    requires n <= |owner| && forall b :: meta <= b < n ==> owner[b].At?
  {
    set b | meta <= b < n :: Code(owner[b])
  }

  lemma SameCode(i: nat, k: nat, i': nat, k': nat)
    requires k < NSLOTS && k' < NSLOTS && i * NSLOTS + k == i' * NSLOTS + k'
    ensures i == i' && k == k'
  {
  }

  /** Owned blocks have different numbers. */
  lemma {:induction false} CodesCount(addrs: seq<seq<nat>>, data: seq<Block>, owner: seq<Owner>, meta: nat, n: nat)
    requires Tree(addrs, data, owner, meta) && meta <= n <= |owner| && forall b :: meta <= b < n ==> owner[b].At?
    ensures |Codes(owner, meta, n)| == n - meta
  {
    if n == meta {
      assert Codes(owner, meta, n) == {};
    } else {
      var b := n - 1;
      CodesCount(addrs, data, owner, meta, b);
      assert OwnerOk(addrs, data, owner, meta, b);
      forall c | meta <= c < b
        ensures Code(owner[c]) != Code(owner[b])
      {
        assert OwnerOk(addrs, data, owner, meta, c);
        if Code(owner[c]) == Code(owner[b]) {
          SameCode(owner[c].i, owner[c].k, owner[b].i, owner[b].k);
        }
      }
      hide Tree, Code;
      assert Codes(owner, meta, n) == Codes(owner, meta, b) + {Code(owner[b])};
    }
  }

  ghost function Below(n: nat): (r: set<nat>)
    ensures |r| == n && forall x :: x in r <==> 0 <= x < n
  {
    if n == 0 then {} else Below(n - 1) + {n - 1}
  }

  /** A disk with more data blocks than its inodes have slots is never full. */
  lemma RoomLeft(bits: seq<seq<bv8>>, size: nat, addrs: seq<seq<nat>>, data: seq<Block>, owner: seq<Owner>, meta: nat)
    requires Shaped(bits, size) && |data| == size && Tree(addrs, data, owner, meta) && BitsOk(bits, size, owner, meta)
    requires forall x :: 0 <= x < size ==> InUse(bits, size, x)
    ensures size - meta <= NSLOTS * |addrs|
  {
    hide InUse;
    forall b | meta <= b < size
      ensures owner[b].At? && Code(owner[b]) < NSLOTS * |addrs|
    {
      assert BitOk(bits, size, owner, meta, b) && OwnerOk(addrs, data, owner, meta, b);
    }
    CodesCount(addrs, data, owner, meta, size);
    hide Tree, Code;
    var codes, all := Codes(owner, meta, size), Below(NSLOTS * |addrs|);
    assert codes <= all;
    assert all == codes + (all - codes);
  }

  /** An operation can log more than it may, in a write as short as 3074 bytes: on any new disk with one bitmap block
      and room, a file of 6143 bytes, and 3074 more. */
  method ChunkOverruns(size: nat, meta: nat, bits: seq<seq<bv8>>, data: seq<Block>, attrs: Attrs, src: seq<Byte>,
                       more: seq<Byte>)
      returns (fs: FileSystem, ghost most: nat)
    requires Shaped(bits, size) && 0 < meta <= size == |data| <= UINT && |bits| == 1 && NSLOTS < size - meta
    requires forall b :: 0 <= b < |data| ==> |data[b]| == BSIZE
    requires forall b :: 0 <= b < size ==> (InUse(bits, size, b) <==> b < meta)
    requires |src| == 6143 && |more| == 3074
    ensures fs.Valid() && |fs.addrs| == 1 && fs.Bytes(0) == src + more && most == MAXOPBLOCKS + 1
  {
    hide InUse, Content, Cost, Tree, BitsOk, FileOk;
    fs := new FileSystem(size, meta, bits, data, [attrs]);
    var ok, r, off;
    ghost var done;
    ok, r, off, done, most := fs.Filewrite(0, src, 0);
    if !ok {
      RoomLeft(fs.bits, fs.size, fs.addrs, fs.data, fs.owner, fs.meta);
    }
    assert fs.Bytes(0) == src;
    ok, r, off, done, most := fs.Filewrite(0, more, 6143);
    if !ok {
      RoomLeft(fs.bits, fs.size, fs.addrs, fs.data, fs.owner, fs.meta);
    }
    ChunkBudget(3074);
    assert fs.Bytes(0) == src + more;
  }
}
