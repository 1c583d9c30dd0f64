/** The user-level allocator of xv6/umalloc.c over the headers in memory: a circular
    list through ptr and size fields, walked from freep. */
module Umalloc {
  import opened Common
  import opened FreeList

  const HEADER: nat := 8            // sizeof(Header)
  const MIN_UNITS: nat := 4096      // morecore's least request
  const MAX_REQUEST: nat := 0x7FFF_FFF0

  /** Units for nbytes of payload, in 32-bit unsigned arithmetic. */
  function Nunits(nbytes: nat): (n: nat)
    ensures n > 0
  {
    (nbytes + HEADER - 1) % UINT / HEADER + 1
  }

  /** A uint passed where sbrk takes an int. */
  function ToInt(x: nat): int {
    var y := x % UINT;
    if y < UINT / 2 then y else y - UINT
  }

  /** What morecore(nunits) passes to sbrk is the size of the block it goes on to make. */
  predicate Exact(nunits: nat) {
    var core := if nunits < MIN_UNITS then MIN_UNITS else nunits;
    ToInt(core * HEADER) == core * HEADER
  }

  /** Exactly the requests up to MAX_REQUEST give a block with room for the payload and an
      sbrk argument that is the size of the block; larger ones wrap one or the other. */
  lemma RequestExact(nbytes: nat)
    requires nbytes < UINT
    ensures HEADER * (Nunits(nbytes) - 1) >= nbytes && Exact(Nunits(nbytes)) <==> nbytes <= MAX_REQUEST
  {
  }

  /** The sbrk argument is wrong from MAX_REQUEST up to where the unit count itself wraps; the block has room for its
      payload up to there, and not beyond. */
  lemma SbrkExactly(nbytes: nat)
    requires nbytes < UINT
    ensures Exact(Nunits(nbytes)) <==> nbytes <= MAX_REQUEST || nbytes >= 0xFFFF_FFF9
    ensures HEADER * (Nunits(nbytes) - 1) >= nbytes <==> nbytes <= 0xFFFF_FFF8
  {
  }

  /** malloc(4294967295) asks for one unit, which is all header. */
  lemma HugeRequestWraps()
    ensures Nunits(0xFFFF_FFFF) == 1
  {
  }

  function Succ(i: nat, n: nat): (j: nat)
    requires i < n
    ensures j < n
  {
    if i + 1 == n then 0 else i + 1
  }

  /** The fields in memory of block i: its size, and the link to the next in the ring. */
  ghost predicate RingAt(ptr: map<int, int>, size: map<int, nat>, fs: seq<Blk>, i: nat)
    requires i < |fs|
  {
    && fs[i].a in ptr && ptr[fs[i].a] == fs[Succ(i, |fs|)].a
    && fs[i].a in size && size[fs[i].a] == fs[i].n
  }

  ghost predicate Ring(ptr: map<int, int>, size: map<int, nat>, fs: seq<Blk>) {
    forall i :: 0 <= i < |fs| ==> RingAt(ptr, size, fs, i)
  }

  lemma DistinctHeaders(fs: seq<Blk>, i: nat, j: nat)
    requires Sorted(fs) && i < |fs| && j < |fs| && i != j
    ensures fs[i].a != fs[j].a
  {
    if i < j { SortedPair(fs, i, j); } else { SortedPair(fs, j, i); }
  }

  /** Linking b in after p = fs[i]. */
  lemma RingPut(ptr: map<int, int>, size: map<int, nat>, fs: seq<Blk>, i: nat, b: Blk)
    requires Fits(fs, i, b) && Ring(ptr, size, fs) && b.a in size && size[b.a] == b.n
    ensures RingAt(ptr, size, fs, i)
    ensures Ring(ptr[b.a := ptr[fs[i].a]][fs[i].a := b.a], size, Put(fs, i, b))
  {
    assert RingAt(ptr, size, fs, i);
    PutSorted(fs, i, b);
    var ptr', r := ptr[b.a := ptr[fs[i].a]][fs[i].a := b.a], Put(fs, i, b);
    forall j: nat | j < |r|
      ensures RingAt(ptr', size, r, j)
    {
      RingPutAt(ptr, size, fs, i, b, j);
    }
  }

  lemma RingPutAt(ptr: map<int, int>, size: map<int, nat>, fs: seq<Blk>, i: nat, b: Blk, j: nat)
    requires i < |fs| && Sorted(Put(fs, i, b)) && Ring(ptr, size, fs) && b.a in size && size[b.a] == b.n
    requires fs[i].a in ptr && j < |fs| + 1
    ensures RingAt(ptr[b.a := ptr[fs[i].a]][fs[i].a := b.a], size, Put(fs, i, b), j)
  {
    var r := Put(fs, i, b);
    if j != i { DistinctHeaders(r, j, i); }
    if j != i + 1 { DistinctHeaders(r, j, i + 1); }
    assert RingAt(ptr, size, fs, i);
    if j < i { assert RingAt(ptr, size, fs, j); }
    if j > i + 1 { assert RingAt(ptr, size, fs, j - 1); }
  }

  /** Absorbing the upper neighbour. */
  lemma RingJoin(ptr: map<int, int>, size: map<int, nat>, fs: seq<Blk>, k: nat)
    requires Sorted(fs) && Ring(ptr, size, fs) && Touching(fs, k)
    ensures RingAt(ptr, size, fs, k) && RingAt(ptr, size, fs, k + 1)
    ensures var x, y := fs[k].a, fs[k + 1].a;
            Ring(ptr[x := ptr[y]], size[x := size[x] + size[y]], Join(fs, k))
  {
    assert RingAt(ptr, size, fs, k) && RingAt(ptr, size, fs, k + 1);
    var x, y := fs[k].a, fs[k + 1].a;
    var ptr', size', r := ptr[x := ptr[y]], size[x := size[x] + size[y]], Join(fs, k);
    forall j: nat | j < |r|
      ensures RingAt(ptr', size', r, j)
    {
      RingJoinAt(ptr, size, fs, k, r, j);
    }
  }

  lemma RingJoinAt(ptr: map<int, int>, size: map<int, nat>, fs: seq<Blk>, k: nat, r: seq<Blk>, j: nat)
    requires Sorted(fs) && Ring(ptr, size, fs) && Touching(fs, k) && r == Join(fs, k) && j < |r|
    requires RingAt(ptr, size, fs, k) && RingAt(ptr, size, fs, k + 1)
    ensures var x, y := fs[k].a, fs[k + 1].a;
            RingAt(ptr[x := ptr[y]], size[x := size[x] + size[y]], r, j)
  {
    if j < k {
      DistinctHeaders(fs, k, j);
      assert RingAt(ptr, size, fs, j) && r[j] == fs[j];
    } else if j > k {
      DistinctHeaders(fs, k, j + 1);
      assert RingAt(ptr, size, fs, j + 1) && r[j] == fs[j + 1];
    }
  }

  /** Unlinking all of block k, or shortening it: what malloc writes when it cuts. */
  lemma RingCarve(ptr: map<int, int>, size: map<int, nat>, fs: seq<Blk>, k: nat, n: nat, r: seq<Blk>)
    requires Sorted(fs) && Ring(ptr, size, fs) && 0 < k < |fs| && 0 < n <= fs[k].n && r == Carve(fs, k, n)
    ensures RingAt(ptr, size, fs, k) && RingAt(ptr, size, fs, k - 1)
    ensures fs[k].n == n ==> Ring(ptr[fs[k - 1].a := ptr[fs[k].a]], size, r)
    ensures fs[k].n > n ==> Ring(ptr, size[fs[k].a := fs[k].n - n][Taken(fs, k, n).a := n], r)
  {
    assert RingAt(ptr, size, fs, k) && RingAt(ptr, size, fs, k - 1);
    if fs[k].n == n {
      var ptr' := ptr[fs[k - 1].a := ptr[fs[k].a]];
      forall j: nat | j < |r|
        ensures RingAt(ptr', size, r, j)
      {
        RingUnlinkAt(ptr, size, fs, k, r, j);
      }
    } else {
      var size' := size[fs[k].a := fs[k].n - n][Taken(fs, k, n).a := n];
      forall j: nat | j < |r|
        ensures RingAt(ptr, size', r, j)
      {
        assert RingAt(ptr, size, fs, j);
        if j < k { SortedPair(fs, j, k); }
        if j > k { SortedPair(fs, k, j); }
      }
    }
  }

  lemma RingUnlinkAt(ptr: map<int, int>, size: map<int, nat>, fs: seq<Blk>, k: nat, r: seq<Blk>, j: nat)
    requires Sorted(fs) && Ring(ptr, size, fs) && 0 < k < |fs| && r == Carve(fs, k, fs[k].n) && j < |r|
    requires RingAt(ptr, size, fs, k) && RingAt(ptr, size, fs, k - 1)
    ensures RingAt(ptr[fs[k - 1].a := ptr[fs[k].a]], size, r, j)
  {
    var i := if j < k then j else j + 1;
    assert RingAt(ptr, size, fs, i) && r[j] == fs[i];
    if i != k - 1 { DistinctHeaders(fs, i, k - 1); }
  }

  // ---------------------------------------------------------------- who holds which unit

  ghost function Units(b: Blk): (us: set<int>) {
    set u | b.a <= u < b.a + b.n && Holds(b, u)
  }

  ghost predicate InLive(live: map<int, nat>, u: int) {
    exists a :: a in live && Holds(Blk(a, live[a]), u)
  }

  /** Every unit obtained from sbrk is in exactly one block, free or live. */
  ghost predicate Partition(fs: seq<Blk>, live: map<int, nat>, obtained: set<int>) {
    && (forall u :: u in obtained <==> InFree(fs, u) || InLive(live, u))
    && (forall u :: !(InFree(fs, u) && InLive(live, u)))
    && (forall a, b :: a in live && b in live && a != b ==> Apart(Blk(a, live[a]), Blk(b, live[b])))
    && (forall a :: a in live ==> live[a] > 0)
  }

  lemma NotInFreeApart(fs: seq<Blk>, b: Blk)
    requires Sorted(fs) && b.n > 0 && fs[0].a < b.a && forall u :: Holds(b, u) ==> !InFree(fs, u)
    ensures forall i :: 0 <= i < |fs| ==> Apart(fs[i], b)
  {
    forall i | 0 <= i < |fs|
      ensures Apart(fs[i], b)
    {
      var u := if fs[i].a < b.a then b.a else fs[i].a;
      assert Holds(fs[i], u) ==> InFree(fs, u);
      assert Holds(b, u) ==> !InFree(fs, u);
    }
  }

  lemma LiveWithout(fs: seq<Blk>, live: map<int, nat>, obtained: set<int>, a: int, u: int)
    requires Partition(fs, live, obtained) && a in live
    ensures Holds(Blk(a, live[a]), u) ==> !InFree(fs, u) && !InLive(live - {a}, u)
    ensures InLive(live, u) <==> InLive(live - {a}, u) || Holds(Blk(a, live[a]), u)
  {
    var b, live' := Blk(a, live[a]), live - {a};
    assert Holds(b, u) ==> InLive(live, u);
    forall c | c in live'
      ensures Holds(b, u) ==> !Holds(Blk(c, live'[c]), u)
      ensures Holds(Blk(c, live'[c]), u) ==> InLive(live, u)
    {
      assert Apart(b, Blk(c, live[c]));
      assert Holds(Blk(c, live[c]), u) ==> InLive(live, u);
    }
    forall c | c in live
      ensures Holds(Blk(c, live[c]), u) ==> c == a || InLive(live', u)
    {
      if c != a { assert c in live' && (Holds(Blk(c, live'[c]), u) ==> InLive(live', u)); }
    }
  }

  /** Giving back a live block. */
  lemma FreePartition(fs: seq<Blk>, live: map<int, nat>, obtained: set<int>, a: int)
    requires Coalesced(fs) && Partition(fs, live, obtained) && a in live && fs[0].a < a
    ensures var b := Blk(a, live[a]);
            && Insertable(fs, b) && Coalesced(Insert(fs, b)) && Insert(fs, b)[0] == fs[0]
            && Partition(Insert(fs, b), live - {a}, obtained)
  {
    var b, live' := Blk(a, live[a]), live - {a};
    forall u
      ensures Holds(b, u) ==> !InFree(fs, u) && !InLive(live', u)
      ensures InLive(live, u) <==> InLive(live', u) || Holds(b, u)
    {
      LiveWithout(fs, live, obtained, a, u);
    }
    NotInFreeApart(fs, b);
    InsertCoalesced(fs, b);
  }

  /** Adding a block of fresh units from sbrk. */
  lemma GrowPartition(fs: seq<Blk>, live: map<int, nat>, obtained: set<int>, b: Blk)
    requires Coalesced(fs) && Partition(fs, live, obtained) && b.n > 0 && fs[0].a < b.a
    requires forall u :: u in obtained ==> u < b.a
    ensures Insertable(fs, b) && Coalesced(Insert(fs, b)) && Insert(fs, b)[0] == fs[0]
    ensures Partition(Insert(fs, b), live, obtained + Units(b))
  {
    NotInFreeApart(fs, b);
    InsertCoalesced(fs, b);
  }

  /** Handing out the cut of block k. */
  lemma TakePartition(fs: seq<Blk>, live: map<int, nat>, obtained: set<int>, k: nat, n: nat)
    requires Sorted(fs) && Partition(fs, live, obtained) && 0 < k < |fs| && 0 < n <= fs[k].n
    ensures Taken(fs, k, n).a !in live
    ensures Partition(Carve(fs, k, n), live[Taken(fs, k, n).a := n], obtained)
  {
    var t, r := Taken(fs, k, n), Carve(fs, k, n);
    forall u
      ensures InFree(fs, u) <==> InFree(r, u) || Holds(t, u)
      ensures Holds(t, u) ==> !InFree(r, u)
    {
      CarveUnits(fs, k, n, u);
      if Holds(t, u) { CarveApart(fs, k, n, u); }
    }
    forall c | c in live
      ensures Apart(Blk(c, live[c]), t)
    {
      var u := if c < t.a then t.a else c;
      assert Holds(Blk(c, live[c]), u) ==> InLive(live, u);
      assert Holds(t, u) ==> InFree(fs, u);
    }
    assert t.a !in live;
    var live' := live[t.a := n];
    forall u
      ensures InLive(live', u) <==> InLive(live, u) || Holds(t, u)
    {
      assert Holds(t, u) ==> Holds(Blk(t.a, live'[t.a]), u);
      forall c | c in live
        ensures Holds(Blk(c, live[c]), u) ==> InLive(live', u)
      {
        assert Holds(Blk(c, live'[c]), u) ==> InLive(live', u);
      }
    }
  }
}
