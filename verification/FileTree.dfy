/** Which block belongs to whom: the slots of every inode (twelve direct addresses, the indirect pointer, and the
    entries of the indirect block), and the ownership that balloc, bmap and itrunc keep. */
module FileTree {

  import opened Common
  import opened FileBlocks

  /** Slots 0..11 are the direct addresses, 12 the indirect pointer, 13.. the entries of the indirect block. */
  const NSLOTS: nat := 141

  /** The block a slot refers to; 0 for none. */
  function Ref(addrs: seq<nat>, data: seq<Block>, k: nat): (b: nat)
    requires |addrs| == NDIRECT + 1 && k < NSLOTS
  {
    if k <= NDIRECT then addrs[k]
    else if 0 < addrs[NDIRECT] < |data| && |data[addrs[NDIRECT]]| == BSIZE then
      Word(data[addrs[NDIRECT]], k - NDIRECT - 1)
    else 0
  }

  /** The slot of a file's n-th block. */
  function Slot(n: nat): (k: nat)
    requires n < MAXFILE
    ensures k < NSLOTS && k != NDIRECT
  {
    if n < NDIRECT then n else n + 1
  }

  datatype Owner = Nobody | At(i: nat, k: nat)

  predicate Sized(addrs: seq<seq<nat>>, data: seq<Block>) {
    && (forall i :: 0 <= i < |addrs| ==> |addrs[i]| == NDIRECT + 1)
    && (forall b :: 0 <= b < |data| ==> |data[b]| == BSIZE)
  }

  /** A slot in use names a data block, which is owned by that slot. */
  ghost predicate RefOk(addrs: seq<nat>, data: seq<Block>, owner: seq<Owner>, i: nat, k: nat)
    requires |addrs| == NDIRECT + 1 && k < NSLOTS
  {
    var b := Ref(addrs, data, k);
    b != 0 ==> b < |owner| && owner[b] == At(i, k)
  }

  /** An owned block is a data block, and its owner names it. */
  ghost predicate OwnerOk(addrs: seq<seq<nat>>, data: seq<Block>, owner: seq<Owner>, meta: nat, b: nat)
    requires Sized(addrs, data) && b < |owner|
  {
    owner[b].At? ==>
      meta <= b && owner[b].i < |addrs| && owner[b].k < NSLOTS && Ref(addrs[owner[b].i], data, owner[b].k) == b
  }

  /** Slots in use and owned blocks correspond one to one; meta is the first data block. */
  ghost predicate Tree(addrs: seq<seq<nat>>, data: seq<Block>, owner: seq<Owner>, meta: nat) {
    && Sized(addrs, data) && |owner| == |data| <= UINT && 0 < meta
    && (forall i, k :: 0 <= i < |addrs| && 0 <= k < NSLOTS ==> RefOk(addrs[i], data, owner, i, k))
    && (forall b :: 0 <= b < |owner| ==> OwnerOk(addrs, data, owner, meta, b))
  }

  /** Every block is reachable at most once. */
  lemma ReachableOnce(addrs: seq<seq<nat>>, data: seq<Block>, owner: seq<Owner>, meta: nat, i: nat, k: nat, i': nat,
                      k': nat)
    requires Tree(addrs, data, owner, meta) && i < |addrs| && i' < |addrs| && k < NSLOTS && k' < NSLOTS
    requires Ref(addrs[i], data, k) == Ref(addrs[i'], data, k') != 0
    ensures i == i' && k == k' && meta <= Ref(addrs[i], data, k) < |data|
  {
    assert RefOk(addrs[i], data, owner, i, k) && RefOk(addrs[i'], data, owner, i', k');
    assert OwnerOk(addrs, data, owner, meta, Ref(addrs[i], data, k));
  }

  /** ip->addrs[k] = b */
  function SetAddr(addrs: seq<seq<nat>>, i: nat, k: nat, b: nat): (r: seq<seq<nat>>)
    requires i < |addrs| && k < |addrs[i]|
    ensures |r| == |addrs| && |r[i]| == |addrs[i]|
  {
    var row: seq<nat> := addrs[i][k := b];
    addrs[i := row]
  }

  // ---------------------------------------------------------------- writing blocks

  /** Writing a block that is no inode's indirect block leaves every reference alone. */
  lemma RefAfterWrite(addrs: seq<seq<nat>>, data: seq<Block>, owner: seq<Owner>, meta: nat, b: nat, v: Block, i: nat,
                      k: nat)
    requires Tree(addrs, data, owner, meta) && b < |data| && |v| == BSIZE && i < |addrs| && k < NSLOTS
    requires owner[b].At? ==> owner[b].k != NDIRECT
    ensures Ref(addrs[i], data[b := v], k) == Ref(addrs[i], data, k)
  {
    assert RefOk(addrs[i], data, owner, i, NDIRECT);
  }

  lemma WriteKeepsTree(addrs: seq<seq<nat>>, data: seq<Block>, owner: seq<Owner>, meta: nat, b: nat, v: Block)
    requires Tree(addrs, data, owner, meta) && b < |data| && |v| == BSIZE
    requires owner[b].At? ==> owner[b].k != NDIRECT
    ensures Tree(addrs, data[b := v], owner, meta)
  {
    var data' := data[b := v];
    forall i, k | 0 <= i < |addrs| && 0 <= k < NSLOTS
      ensures RefOk(addrs[i], data', owner, i, k)
    {
      RefAfterWrite(addrs, data, owner, meta, b, v, i, k);
      assert RefOk(addrs[i], data, owner, i, k);
    }
    forall x | 0 <= x < |owner|
      ensures OwnerOk(addrs, data', owner, meta, x)
    {
      assert OwnerOk(addrs, data, owner, meta, x);
      if owner[x].At? {
        RefAfterWrite(addrs, data, owner, meta, b, v, owner[x].i, owner[x].k);
      }
    }
  }

  // ---------------------------------------------------------------- linking a fresh block

  /** ip->addrs[k] = b, for a zeroed block nobody owns */
  lemma RefAfterLink(addrs: seq<nat>, data: seq<Block>, k: nat, b: nat, k': nat)
    requires |addrs| == NDIRECT + 1 && k <= NDIRECT && k' < NSLOTS && 0 < b < |data| && data[b] == ZERO && addrs[k] == 0
    ensures Ref(addrs[k := b], data, k') == if k' == k then b else Ref(addrs, data, k')
  {
    if k' > NDIRECT {
      ZeroWords(k' - NDIRECT - 1);
    }
  }

  lemma LinkKeepsTree(addrs: seq<seq<nat>>, data: seq<Block>, owner: seq<Owner>, meta: nat, i: nat, k: nat, b: nat)
    requires Tree(addrs, data, owner, meta) && i < |addrs| && k <= NDIRECT && addrs[i][k] == 0
    requires meta <= b < |data| && data[b] == ZERO && owner[b] == Nobody
    ensures Tree(SetAddr(addrs, i, k, b), data, owner[b := At(i, k)], meta)
  {
    var addrs', owner' := SetAddr(addrs, i, k, b), owner[b := At(i, k)];
    forall j, l | 0 <= j < |addrs'| && 0 <= l < NSLOTS
      ensures RefOk(addrs'[j], data, owner', j, l)
    {
      RefAfterLink(addrs[i], data, k, b, l);
      assert RefOk(addrs[j], data, owner, j, l);
    }
    forall x | 0 <= x < |owner'|
      ensures OwnerOk(addrs', data, owner', meta, x)
    {
      assert OwnerOk(addrs, data, owner, meta, x);
      if owner'[x].At? {
        RefAfterLink(addrs[i], data, k, b, owner'[x].k);
      }
    }
  }

  /** a[j] = b in the indirect block */
  lemma RefAfterEntry(addrs: seq<seq<nat>>, data: seq<Block>, owner: seq<Owner>, meta: nat, i: nat, j: nat, b: nat,
                      i': nat, k': nat)
    requires Tree(addrs, data, owner, meta) && i < |addrs| && j < NINDIRECT && b < UINT && i' < |addrs| && k' < NSLOTS
    requires 0 < addrs[i][NDIRECT] < |data|
    ensures var p := addrs[i][NDIRECT];
      Ref(addrs[i'], data[p := SetWord(data[p], j, b)], k')
        == if i' == i && k' == j + NDIRECT + 1 then b else Ref(addrs[i'], data, k')
  {
    var p := addrs[i][NDIRECT];
    assert RefOk(addrs[i], data, owner, i, NDIRECT) && RefOk(addrs[i'], data, owner, i', NDIRECT);
    if k' > NDIRECT {
      WordExact(data[p], j, b, k' - NDIRECT - 1);
    }
  }

  lemma EntryKeepsTree(addrs: seq<seq<nat>>, data: seq<Block>, owner: seq<Owner>, meta: nat, i: nat, j: nat, b: nat)
    requires Tree(addrs, data, owner, meta) && i < |addrs| && j < NINDIRECT
    requires 0 < addrs[i][NDIRECT] < |data| && Ref(addrs[i], data, j + NDIRECT + 1) == 0
    requires meta <= b < |data| && owner[b] == Nobody
    ensures var p := addrs[i][NDIRECT];
      Tree(addrs, data[p := SetWord(data[p], j, b)], owner[b := At(i, j + NDIRECT + 1)], meta)
  {
    var p := addrs[i][NDIRECT];
    var data', owner' := data[p := SetWord(data[p], j, b)], owner[b := At(i, j + NDIRECT + 1)];
    forall i', k | 0 <= i' < |addrs| && 0 <= k < NSLOTS
      ensures RefOk(addrs[i'], data', owner', i', k)
    {
      RefAfterEntry(addrs, data, owner, meta, i, j, b, i', k);
      assert RefOk(addrs[i'], data, owner, i', k);
    }
    forall x | 0 <= x < |owner'|
      ensures OwnerOk(addrs, data', owner', meta, x)
    {
      assert OwnerOk(addrs, data, owner, meta, x);
      if owner'[x].At? {
        RefAfterEntry(addrs, data, owner, meta, i, j, b, owner'[x].i, owner'[x].k);
      }
    }
  }

  // ---------------------------------------------------------------- which slots change

  ghost predicate SameRef(a: seq<seq<nat>>, d: seq<Block>, a': seq<seq<nat>>, d': seq<Block>, j: nat, k: nat)
    requires Sized(a, d) && Sized(a', d') && j < |a| == |a'| && k < NSLOTS
  {
    Ref(a'[j], d', k) == Ref(a[j], d, k)
  }

  /** Slots ks of inode i may refer to other blocks than before; no other slot does. */
  ghost predicate SameRefs(a: seq<seq<nat>>, d: seq<Block>, a': seq<seq<nat>>, d': seq<Block>, i: nat, ks: set<nat>) {
    && Sized(a, d) && Sized(a', d') && |a| == |a'|
    && forall j, k :: 0 <= j < |a| && 0 <= k < NSLOTS && !(j == i && k in ks) ==> SameRef(a, d, a', d', j, k)
  }

  lemma SameTwice(a: seq<seq<nat>>, d: seq<Block>, a': seq<seq<nat>>, d': seq<Block>, a'': seq<seq<nat>>,
                  d'': seq<Block>, i: nat, ks: set<nat>, ls: set<nat>)
    requires SameRefs(a, d, a', d', i, ks) && SameRefs(a', d', a'', d'', i, ls)
    ensures SameRefs(a, d, a'', d'', i, ks + ls)
  {
    var all := ks + ls;
    forall j, k | 0 <= j < |a| && 0 <= k < NSLOTS && !(j == i && k in all)
      ensures SameRef(a, d, a'', d'', j, k)
    {
      assert SameRef(a, d, a', d', j, k) && SameRef(a', d', a'', d'', j, k);
    }
  }

  lemma WriteSame(addrs: seq<seq<nat>>, data: seq<Block>, owner: seq<Owner>, meta: nat, b: nat, v: Block, i: nat,
                  ks: set<nat>)
    requires Tree(addrs, data, owner, meta) && b < |data| && |v| == BSIZE
    requires owner[b].At? ==> owner[b].k != NDIRECT
    ensures SameRefs(addrs, data, addrs, data[b := v], i, ks)
  {
    var data' := data[b := v];
    forall j, k | 0 <= j < |addrs| && 0 <= k < NSLOTS
      ensures SameRef(addrs, data, addrs, data', j, k)
    {
      RefAfterWrite(addrs, data, owner, meta, b, v, j, k);
    }
  }

  lemma LinkSame(addrs: seq<seq<nat>>, data: seq<Block>, i: nat, k: nat, b: nat)
    requires Sized(addrs, data) && i < |addrs| && k <= NDIRECT && addrs[i][k] == 0 && 0 < b < |data| && data[b] == ZERO
    ensures SameRefs(addrs, data, SetAddr(addrs, i, k, b), data, i, {k})
  {
    var addrs' := SetAddr(addrs, i, k, b);
    forall j, l | 0 <= j < |addrs| && 0 <= l < NSLOTS && !(j == i && l in {k})
      ensures SameRef(addrs, data, addrs', data, j, l)
    {
      RefAfterLink(addrs[i], data, k, b, l);
    }
  }

  lemma EntrySame(addrs: seq<seq<nat>>, data: seq<Block>, owner: seq<Owner>, meta: nat, i: nat, j: nat, b: nat)
    requires Tree(addrs, data, owner, meta) && i < |addrs| && j < NINDIRECT && b < UINT
    requires 0 < addrs[i][NDIRECT] < |data|
    ensures var p := addrs[i][NDIRECT];
      SameRefs(addrs, data, addrs, data[p := SetWord(data[p], j, b)], i, {j + NDIRECT + 1})
  {
    var p := addrs[i][NDIRECT];
    var data' := data[p := SetWord(data[p], j, b)];
    forall i', k | 0 <= i' < |addrs| && 0 <= k < NSLOTS && !(i' == i && k in {j + NDIRECT + 1})
      ensures SameRef(addrs, data, addrs, data', i', k)
    {
      RefAfterEntry(addrs, data, owner, meta, i, j, b, i', k);
    }
  }

  // ---------------------------------------------------------------- unlinking

  /** ip->addrs[k] = 0 for a direct address: its block is nobody's */
  lemma UnlinkKeepsTree(addrs: seq<seq<nat>>, data: seq<Block>, owner: seq<Owner>, meta: nat, i: nat, k: nat)
    requires Tree(addrs, data, owner, meta) && i < |addrs| && k < NDIRECT && addrs[i][k] != 0
    ensures addrs[i][k] < |owner| && Tree(SetAddr(addrs, i, k, 0), data, owner[addrs[i][k] := Nobody], meta)
  {
    var b := addrs[i][k];
    assert RefOk(addrs[i], data, owner, i, k);
    var addrs', owner' := SetAddr(addrs, i, k, 0), owner[b := Nobody];
    forall j, l | 0 <= j < |addrs'| && 0 <= l < NSLOTS
      ensures RefOk(addrs'[j], data, owner', j, l)
    {
      assert RefOk(addrs[j], data, owner, j, l);
    }
    forall x | 0 <= x < |owner'|
      ensures OwnerOk(addrs', data, owner', meta, x)
    {
      assert OwnerOk(addrs, data, owner, meta, x);
    }
  }

  /** Everything under the indirect pointer of inode i, set free. */
  function Dropped(owner: seq<Owner>, i: nat): (r: seq<Owner>)
    ensures |r| == |owner|
  {
    seq(|owner|, b requires 0 <= b < |owner| =>
      if owner[b].At? && owner[b].i == i && owner[b].k >= NDIRECT then Nobody else owner[b])
  }

  /** ip->addrs[NDIRECT] = 0 */
  lemma DropKeepsTree(addrs: seq<seq<nat>>, data: seq<Block>, owner: seq<Owner>, meta: nat, i: nat)
    requires Tree(addrs, data, owner, meta) && i < |addrs|
    ensures Tree(SetAddr(addrs, i, NDIRECT, 0), data, Dropped(owner, i), meta)
  {
    var addrs', owner' := SetAddr(addrs, i, NDIRECT, 0), Dropped(owner, i);
    forall j, l | 0 <= j < |addrs'| && 0 <= l < NSLOTS
      ensures RefOk(addrs'[j], data, owner', j, l)
    {
      assert RefOk(addrs[j], data, owner, j, l);
    }
    forall x | 0 <= x < |owner'|
      ensures OwnerOk(addrs', data, owner', meta, x)
    {
      assert OwnerOk(addrs, data, owner, meta, x);
    }
  }
}
