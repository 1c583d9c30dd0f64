/** A file as a flat sequence of bytes, read through its block tree, and what allocation and block writes do to it. */
module FileContent {

  import opened Common
  import opened FileBlocks
  import opened FileTree

  const MAXBYTES: nat := 71680   // MAXFILE * BSIZE

  /** Byte p of a file. */
  function ByteAt(addrs: seq<nat>, data: seq<Block>, p: nat): Byte
    requires |addrs| == NDIRECT + 1 && p < MAXBYTES
  {
    var b := Ref(addrs, data, Slot(p / BSIZE));
    if b < |data| && |data[b]| == BSIZE then data[b][p % BSIZE] else 0
  }

  /** Every block below n bytes is there. */
  ghost predicate NoHoles(addrs: seq<nat>, data: seq<Block>, n: nat)
    requires |addrs| == NDIRECT + 1
  {
    forall q :: 0 <= q < MAXFILE && q * BSIZE < n ==> Ref(addrs, data, Slot(q)) != 0
  }

  /** The file as bytes. */
  function Content(addrs: seq<nat>, data: seq<Block>, n: nat): (c: seq<Byte>)
    requires |addrs| == NDIRECT + 1 && n <= MAXBYTES
    ensures |c| == n
  {
    seq(n, p requires 0 <= p < n => ByteAt(addrs, data, p))
  }

  // ---------------------------------------------------------------- allocation keeps what is there

  ghost predicate KeptAt(addrs: seq<nat>, data: seq<Block>, addrs': seq<nat>, data': seq<Block>, k: nat)
    requires |addrs| == |addrs'| == NDIRECT + 1 && k < NSLOTS
  {
    var b := Ref(addrs, data, k);
    b != 0 ==> Ref(addrs', data', k) == b && b < |data| == |data'| && (k != NDIRECT ==> data'[b] == data[b])
  }

  /** Every slot in use stays, with what its block holds. */
  ghost predicate Kept(addrs: seq<seq<nat>>, data: seq<Block>, addrs': seq<seq<nat>>, data': seq<Block>) {
    && Sized(addrs, data) && Sized(addrs', data') && |addrs| == |addrs'| && |data| == |data'|
    && forall i, k :: 0 <= i < |addrs| && 0 <= k < NSLOTS ==> KeptAt(addrs[i], data, addrs'[i], data', k)
  }

  lemma KeptTwice(a: seq<seq<nat>>, d: seq<Block>, a': seq<seq<nat>>, d': seq<Block>, a'': seq<seq<nat>>,
                  d'': seq<Block>)
    requires Kept(a, d, a', d') && Kept(a', d', a'', d'')
    ensures Kept(a, d, a'', d'')
  {
    forall i, k | 0 <= i < |a| && 0 <= k < NSLOTS
      ensures KeptAt(a[i], d, a''[i], d'', k)
    {
      assert KeptAt(a[i], d, a'[i], d', k) && KeptAt(a'[i], d', a''[i], d'', k);
    }
  }

  /** bzero of a block nobody owns */
  lemma ZeroKeeps(addrs: seq<seq<nat>>, data: seq<Block>, owner: seq<Owner>, meta: nat, b: nat)
    requires Tree(addrs, data, owner, meta) && b < |data| && owner[b] == Nobody
    ensures Kept(addrs, data, addrs, data[b := ZERO])
  {
    var data' := data[b := ZERO];
    forall i, k | 0 <= i < |addrs| && 0 <= k < NSLOTS
      ensures KeptAt(addrs[i], data, addrs[i], data', k)
    {
      RefAfterWrite(addrs, data, owner, meta, b, ZERO, i, k);
      assert RefOk(addrs[i], data, owner, i, k);
    }
  }

  lemma LinkKeeps(addrs: seq<seq<nat>>, data: seq<Block>, owner: seq<Owner>, meta: nat, i: nat, k: nat, b: nat)
    requires Tree(addrs, data, owner, meta) && i < |addrs| && k <= NDIRECT && addrs[i][k] == 0
    requires 0 < b < |data| && data[b] == ZERO
    ensures Kept(addrs, data, SetAddr(addrs, i, k, b), data)
  {
    var addrs' := SetAddr(addrs, i, k, b);
    forall j, l | 0 <= j < |addrs| && 0 <= l < NSLOTS
      ensures KeptAt(addrs[j], data, addrs'[j], data, l)
    {
      RefAfterLink(addrs[i], data, k, b, l);
      assert RefOk(addrs[j], data, owner, j, l);
    }
  }

  lemma EntryKeeps(addrs: seq<seq<nat>>, data: seq<Block>, owner: seq<Owner>, meta: nat, i: nat, j: nat, b: nat)
    requires Tree(addrs, data, owner, meta) && i < |addrs| && j < NINDIRECT && b < UINT
    requires 0 < addrs[i][NDIRECT] < |data| && Ref(addrs[i], data, j + NDIRECT + 1) == 0
    ensures var p := addrs[i][NDIRECT]; Kept(addrs, data, addrs, data[p := SetWord(data[p], j, b)])
  {
    var p := addrs[i][NDIRECT];
    var data' := data[p := SetWord(data[p], j, b)];
    assert RefOk(addrs[i], data, owner, i, NDIRECT);
    forall i', k | 0 <= i' < |addrs| && 0 <= k < NSLOTS
      ensures KeptAt(addrs[i'], data, addrs[i'], data', k)
    {
      RefAfterEntry(addrs, data, owner, meta, i, j, b, i', k);
      assert RefOk(addrs[i'], data, owner, i', k);
    }
  }

  lemma KeptByte(a: seq<seq<nat>>, d: seq<Block>, a': seq<seq<nat>>, d': seq<Block>, i: nat, p: nat)
    requires Kept(a, d, a', d') && i < |a| && p < MAXBYTES && Ref(a[i], d, Slot(p / BSIZE)) != 0
    ensures Ref(a'[i], d', Slot(p / BSIZE)) == Ref(a[i], d, Slot(p / BSIZE))
    ensures ByteAt(a'[i], d', p) == ByteAt(a[i], d, p)
  {
    assert KeptAt(a[i], d, a'[i], d', Slot(p / BSIZE));
  }

  /** A file without holes is not changed by allocation. */
  lemma KeptFile(a: seq<seq<nat>>, d: seq<Block>, a': seq<seq<nat>>, d': seq<Block>, i: nat, n: nat)
    requires Kept(a, d, a', d') && i < |a| && n <= MAXBYTES && NoHoles(a[i], d, n)
    ensures NoHoles(a'[i], d', n) && forall p :: 0 <= p < n ==> ByteAt(a'[i], d', p) == ByteAt(a[i], d, p)
  {
    forall q | 0 <= q < MAXFILE && q * BSIZE < n
      ensures Ref(a'[i], d', Slot(q)) != 0
    {
      assert KeptAt(a[i], d, a'[i], d', Slot(q));
    }
    forall p | 0 <= p < n
      ensures ByteAt(a'[i], d', p) == ByteAt(a[i], d, p)
    {
      var q := p / BSIZE;
      assert q * BSIZE <= p;
      KeptByte(a, d, a', d', i, p);
    }
  }

  // ---------------------------------------------------------------- writing into a data block

  /** memmove(bp->data + at, src, |bytes|) */
  function Patch(blk: Block, at: nat, bytes: seq<Byte>): (r: Block)
    ensures |r| == |blk|
  {
    seq(|blk|, x requires 0 <= x < |blk| => if at <= x < at + |bytes| then bytes[x - at] else blk[x])
  }

  /** Bytes of one block, written in place, are seen at their place in the file, and nowhere else. */
  lemma PatchByte(addrs: seq<seq<nat>>, data: seq<Block>, owner: seq<Owner>, meta: nat, i: nat, off: nat,
                  bytes: seq<Byte>, b: nat, j: nat, p: nat)
    requires Tree(addrs, data, owner, meta) && i < |addrs| && off < MAXBYTES && off % BSIZE + |bytes| <= BSIZE
    requires b == Ref(addrs[i], data, Slot(off / BSIZE)) && 0 < b < |data|
    requires j < |addrs| && p < MAXBYTES
    ensures Ref(addrs[j], data[b := Patch(data[b], off % BSIZE, bytes)], Slot(p / BSIZE))
      == Ref(addrs[j], data, Slot(p / BSIZE))
    ensures ByteAt(addrs[j], data[b := Patch(data[b], off % BSIZE, bytes)], p)
         == if j == i && off <= p < off + |bytes| then bytes[p - off] else ByteAt(addrs[j], data, p)
  {
    var q, k := off / BSIZE, Slot(p / BSIZE);
    var v := Patch(data[b], off % BSIZE, bytes);
    assert RefOk(addrs[i], data, owner, i, Slot(q));
    RefAfterWrite(addrs, data, owner, meta, b, v, j, k);
    assert RefOk(addrs[j], data, owner, j, k);
    SameBlock(off, |bytes|, p);
  }

  lemma SameBlock(off: nat, n: nat, p: nat)
    requires off % BSIZE + n <= BSIZE
    ensures off <= p < off + n ==> p / BSIZE == off / BSIZE
    ensures p / BSIZE == off / BSIZE ==> p % BSIZE - off % BSIZE == p - off
  {
  }

  // ---------------------------------------------------------------- one block of a write

  /** Byte p of file j after bytes are written into one block of file i at off, allocating it if need be. */
  ghost predicate StepAt(a: seq<seq<nat>>, d: seq<Block>, a': seq<seq<nat>>, d': seq<Block>,
                         i: nat, off: nat, bytes: seq<Byte>, j: nat, p: nat)
    requires Sized(a, d) && Sized(a', d') && j < |a| == |a'| && p < MAXBYTES
  {
    var here := j == i && off <= p < off + |bytes|;
    here || Ref(a[j], d, Slot(p / BSIZE)) != 0 ==>
      && Ref(a'[j], d', Slot(p / BSIZE)) != 0
      && (Ref(a[j], d, Slot(p / BSIZE)) != 0 ==> Ref(a'[j], d', Slot(p / BSIZE)) == Ref(a[j], d, Slot(p / BSIZE)))
      && ByteAt(a'[j], d', p) == if here then bytes[p - off] else ByteAt(a[j], d, p)
  }

  ghost predicate Stepped(a: seq<seq<nat>>, d: seq<Block>, a': seq<seq<nat>>, d': seq<Block>, i: nat, off: nat,
                          bytes: seq<Byte>) {
    && Sized(a, d) && Sized(a', d') && |a| == |a'|
    && forall j, p :: 0 <= j < |a| && 0 <= p < MAXBYTES ==> StepAt(a, d, a', d', i, off, bytes, j, p)
  }

  /** bmap, then memmove */
  lemma BmapThenPatch(a: seq<seq<nat>>, d: seq<Block>, a': seq<seq<nat>>, d': seq<Block>, owner: seq<Owner>, meta: nat,
                      i: nat, off: nat, bytes: seq<Byte>, b: nat)
    requires Kept(a, d, a', d') && Tree(a', d', owner, meta) && i < |a| && off < MAXBYTES
    requires off % BSIZE + |bytes| <= BSIZE
    requires b == Ref(a'[i], d', Slot(off / BSIZE)) && 0 < b < |d'|
    ensures Tree(a', d'[b := Patch(d'[b], off % BSIZE, bytes)], owner, meta)
    ensures Stepped(a, d, a', d'[b := Patch(d'[b], off % BSIZE, bytes)], i, off, bytes)
  {
    var v := Patch(d'[b], off % BSIZE, bytes);
    var d'' := d'[b := v];
    assert RefOk(a'[i], d', owner, i, Slot(off / BSIZE));
    WriteKeepsTree(a', d', owner, meta, b, v);
    forall j, p | 0 <= j < |a| && 0 <= p < MAXBYTES
      ensures StepAt(a, d, a', d'', i, off, bytes, j, p)
    {
      PatchByte(a', d', owner, meta, i, off, bytes, b, j, p);
      SameBlock(off, |bytes|, p);
      if Ref(a[j], d, Slot(p / BSIZE)) != 0 {
        KeptByte(a, d, a', d', j, p);
      }
    }
  }

  // ---------------------------------------------------------------- a write as a whole

  /** The flat file with src written at off. */
  function Written(c: seq<Byte>, off: nat, src: seq<Byte>): (r: seq<Byte>)
    requires off <= |c|
    ensures |r| == if off + |src| > |c| then off + |src| else |c|
  {
    seq(if off + |src| > |c| then off + |src| else |c|,
        p requires 0 <= p < (if off + |src| > |c| then off + |src| else |c|) =>
          if off <= p < off + |src| then src[p - off] else c[p])
  }

  lemma WrittenNothing(c: seq<Byte>, off: nat)
    requires off <= |c|
    ensures Written(c, off, []) == c
  {
  }

  /** What was written is read back, and the rest is as before. */
  lemma WrittenReads(c: seq<Byte>, off: nat, src: seq<Byte>)
    requires off <= |c|
    ensures Written(c, off, src)[off..off + |src|] == src && Written(c, off, src)[..off] == c[..off]
    ensures off + |src| <= |c| ==> Written(c, off, src)[off + |src|..] == c[off + |src|..]
  {
  }

  lemma WrittenMore(c: seq<Byte>, off: nat, src: seq<Byte>, more: seq<Byte>)
    requires off <= |c|
    ensures Written(Written(c, off, src), off + |src|, more) == Written(c, off, src + more)
  {
  }

  /** One block's step on the file itself: bytes at its end or inside it. */
  lemma SteppedOwn(a: seq<seq<nat>>, d: seq<Block>, a': seq<seq<nat>>, d': seq<Block>,
                   i: nat, off: nat, bytes: seq<Byte>, n: nat, n': nat)
    requires Stepped(a, d, a', d', i, off, bytes) && i < |a| && off <= n <= MAXBYTES && off + |bytes| <= MAXBYTES
    requires n' == if off + |bytes| > n then off + |bytes| else n
    requires NoHoles(a[i], d, n)
    ensures NoHoles(a'[i], d', n')
    ensures Content(a'[i], d', n') == Written(Content(a[i], d, n), off, bytes)
  {
    forall p | 0 <= p < n'
      ensures Ref(a'[i], d', Slot(p / BSIZE)) != 0
      ensures ByteAt(a'[i], d', p) == Written(Content(a[i], d, n), off, bytes)[p]
    {
      assert StepAt(a, d, a', d', i, off, bytes, i, p);
      assert p / BSIZE * BSIZE <= p;
    }
    forall q | 0 <= q < MAXFILE && q * BSIZE < n'
      ensures Ref(a'[i], d', Slot(q)) != 0
    {
      assert q * BSIZE / BSIZE == q;
    }
  }

  lemma SteppedOther(a: seq<seq<nat>>, d: seq<Block>, a': seq<seq<nat>>, d': seq<Block>,
                     i: nat, off: nat, bytes: seq<Byte>, j: nat, n: nat)
    requires Stepped(a, d, a', d', i, off, bytes) && j < |a| && j != i && n <= MAXBYTES && NoHoles(a[j], d, n)
    ensures NoHoles(a'[j], d', n) && Content(a'[j], d', n) == Content(a[j], d, n)
  {
    forall p | 0 <= p < n
      ensures Ref(a'[j], d', Slot(p / BSIZE)) != 0 && ByteAt(a'[j], d', p) == ByteAt(a[j], d, p)
    {
      assert StepAt(a, d, a', d', i, off, bytes, j, p);
      assert p / BSIZE * BSIZE <= p;
    }
    forall q | 0 <= q < MAXFILE && q * BSIZE < n
      ensures Ref(a'[j], d', Slot(q)) != 0
    {
      assert q * BSIZE / BSIZE == q;
    }
  }
}
