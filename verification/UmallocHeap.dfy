/** free, morecore and malloc of xv6/umalloc.c on the headers in memory. */
module UmallocHeap {
  import opened Common
  import opened FreeList
  import opened Umalloc

  const NULL: int := 0

  /** Steps along a ring of n from index k to index i. */
  function Dist(k: nat, i: nat, n: nat): (d: nat)
    requires k < n && i < n
  {
    if k <= i then i - k else i + n - k
  }

  /** malloc looks at the blocks in ring order, starting after block f: all before block k are too small. */
  ghost predicate Searched(fs: seq<Blk>, f: nat, k: nat, n: nat) {
    && f < |fs| && k < |fs|
    && forall j :: 0 <= j < |fs| && Dist(Succ(f, |fs|), j, |fs|) < Dist(Succ(f, |fs|), k, |fs|) ==> fs[j].n < n
  }

  ghost predicate AllSmall(fs: seq<Blk>, n: nat) {
    forall j :: 0 <= j < |fs| ==> fs[j].n < n
  }

  lemma SearchOn(fs: seq<Blk>, f: nat, k: nat, n: nat)
    requires Searched(fs, f, k, n) && fs[k].n < n
    ensures k != f ==> Searched(fs, f, Succ(k, |fs|), n) && Dist(Succ(k, |fs|), f, |fs|) < Dist(k, f, |fs|)
    ensures k == f ==> AllSmall(fs, n)
  {
  }

  /** Block f or the one after it is large enough. */
  ghost predicate Near(fs: seq<Blk>, f: nat, n: nat) {
    f < |fs| && (fs[f].n >= n || fs[Succ(f, |fs|)].n >= n)
  }

  lemma BelowUnique(fs: seq<Blk>, b: Blk, k: nat)
    requires Insertable(fs, b) && k < |fs| && fs[k].a < b.a && (k + 1 < |fs| ==> b.a < fs[k + 1].a)
    ensures k == Below(fs, b)
  {
    var i := Below(fs, b);
    if k + 1 < i { SortedPair(fs, k + 1, i); }
    if i + 1 < k { SortedPair(fs, i + 1, k); }
  }

  lemma JoinShape(fs: seq<Blk>, i: nat, b: Blk)
    requires Fits(fs, i, b)
    ensures var f2 := Join(Put(fs, i, b), i + 1);
            Sorted(f2) && i + 1 < |f2| && f2[i] == fs[i] && f2[i + 1].a == b.a
  {
    PutSorted(fs, i, b);
    JoinSorted(Put(fs, i, b), i + 1);
  }

  lemma SuccessorTouches(ptr: map<int, int>, size: map<int, nat>, fs: seq<Blk>, i: nat, b: Blk)
    requires Fits(fs, i, b) && Ring(ptr, size, fs)
    ensures RingAt(ptr, size, fs, i) && RingAt(ptr, size, fs, Succ(i, |fs|))
    ensures b.a + b.n == ptr[fs[i].a] <==> Touching(Put(fs, i, b), i + 1)
    ensures Touching(Put(fs, i, b), i + 1) ==> Put(fs, i, b)[i + 2].a == ptr[fs[i].a]
  {
    assert RingAt(ptr, size, fs, i) && RingAt(ptr, size, fs, Succ(i, |fs|));
  }

  /** The first half of free()'s relinking, at block p = fs[i]: b takes over p's successor,
      or that block itself if they touch. With p linked to b this spells the joined list. */
  lemma LinkUpper(ptr: map<int, int>, size: map<int, nat>, fs: seq<Blk>, i: nat, b: Blk, p: int)
    requires Fits(fs, i, b) && Ring(ptr, size, fs) && b.a in size && size[b.a] == b.n && p == fs[i].a
    ensures p in ptr && p in size && ptr[p] in ptr && ptr[p] in size
    ensures var f2 := Join(Put(fs, i, b), i + 1);
            if b.a + size[b.a] == ptr[p]
            then Ring(ptr[b.a := ptr[ptr[p]]][p := b.a], size[b.a := size[b.a] + size[ptr[p]]], f2)
            else Ring(ptr[b.a := ptr[p]][p := b.a], size, f2)
  {
    SuccessorTouches(ptr, size, fs, i, b);
    RingPut(ptr, size, fs, i, b);
    var f1, ptr1 := Put(fs, i, b), ptr[b.a := ptr[p]][p := b.a];
    if Touching(f1, i + 1) {
      PutSorted(fs, i, b);
      DistinctHeaders(f1, i, i + 1);
      DistinctHeaders(f1, i, i + 2);
      DistinctHeaders(f1, i + 1, i + 2);
      RingJoin(ptr1, size, f1, i + 1);
      assert f1[i + 1].a == b.a && f1[i + 2].a == ptr[p];
      assert ptr1[b.a := ptr1[ptr[p]]] == ptr[b.a := ptr[ptr[p]]][p := b.a];
    }
  }

  /** The second half: p takes over b if they touch, and is linked to b if not. */
  lemma LinkLower(ptr: map<int, int>, size: map<int, nat>, f2: seq<Blk>, i: nat, p: int, bp: int)
    requires Sorted(f2) && i + 1 < |f2| && f2[i].a == p && f2[i + 1].a == bp && bp in ptr
    requires Ring(ptr[p := bp], size, f2)
    ensures RingAt(ptr[p := bp], size, f2, i) && RingAt(ptr[p := bp], size, f2, i + 1)
    ensures p + size[p] == bp ==> Ring(ptr[p := ptr[bp]], size[p := size[p] + size[bp]], Join(f2, i))
    ensures p + size[p] != bp ==> Ring(ptr[p := bp], size, Join(f2, i))
    ensures i < |Join(f2, i)| && Join(f2, i)[i].a == p
  {
    assert RingAt(ptr[p := bp], size, f2, i) && RingAt(ptr[p := bp], size, f2, i + 1);
    DistinctHeaders(f2, i, i + 1);
    if Touching(f2, i) {
      RingJoin(ptr[p := bp], size, f2, i);
      assert ptr[p := bp][p := ptr[bp]] == ptr[p := ptr[bp]];
    }
  }

  /** No live block has the header of a free one. */
  lemma HeadersDiffer(fs: seq<Blk>, live: map<int, nat>, obtained: set<int>, i: nat, a: int)
    requires Sorted(fs) && Partition(fs, live, obtained) && i < |fs| && a in live
    requires forall u :: u in obtained ==> fs[0].a < u
    ensures fs[i].a != a
  {
    assert Holds(Blk(a, live[a]), a);
    assert InLive(live, a) && a in obtained;
    assert i > 0 ==> Holds(fs[i], fs[i].a);
  }

  /** Writing the size of a header above every free block. */
  lemma RingWithNew(ptr: map<int, int>, size: map<int, nat>, fs: seq<Blk>, a: int, n: nat)
    requires Ring(ptr, size, fs) && forall i :: 0 <= i < |fs| ==> fs[i].a < a
    ensures Ring(ptr, size[a := n], fs)
  {
    var size' := size[a := n];
    forall i: nat | i < |fs|
      ensures RingAt(ptr, size', fs, i)
    {
      assert RingAt(ptr, size, fs, i);
    }
  }

  /** Free blocks lie below the end of the process. */
  lemma FreeBelow(fs: seq<Blk>, live: map<int, nat>, obtained: set<int>, brk: int)
    requires Sorted(fs) && Partition(fs, live, obtained) && fs[0].a < brk
    requires forall u :: u in obtained ==> u < brk
    ensures forall i :: 0 <= i < |fs| ==> fs[i].a < brk
  {
    forall i | 0 <= i < |fs|
      ensures fs[i].a < brk
    {
      if i > 0 { assert Holds(fs[i], fs[i].a) && InFree(fs, fs[i].a); }
    }
  }

  /** The list with a new block from sbrk. */
  ghost function Extended(fs: seq<Blk>, live: map<int, nat>, obtained: set<int>, b: Blk): (r: seq<Blk>)
    requires Coalesced(fs) && Partition(fs, live, obtained) && b.n > 0 && fs[0].a < b.a
    requires forall u :: u in obtained ==> u < b.a
    ensures Insertable(fs, b) && r == Insert(fs, b)
    ensures Coalesced(r) && r[0] == fs[0] && Partition(r, live, obtained + Units(b))
  {
    GrowPartition(fs, live, obtained, b);
    Insert(fs, b)
  }

  /** The list without the cut of block k. */
  ghost function Carved(fs: seq<Blk>, live: map<int, nat>, obtained: set<int>, k: nat, n: nat): (r: seq<Blk>)
    requires Coalesced(fs) && Partition(fs, live, obtained) && 0 < k < |fs| && 0 < n <= fs[k].n
    ensures r == Carve(fs, k, n) && k <= |r| && r[k - 1] == fs[k - 1]
    ensures Coalesced(r) && r[0] == fs[0]
    ensures Taken(fs, k, n).a !in live && Partition(r, live[Taken(fs, k, n).a := n], obtained)
  {
    CarveCoalesced(fs, k, n);
    TakePartition(fs, live, obtained, k, n);
    Carve(fs, k, n)
  }

  lemma DistinctIndex(fs: seq<Blk>, i: nat, j: nat)
    requires Sorted(fs) && i < |fs| && j < |fs| && fs[i].a == fs[j].a
    ensures i == j
  {
    if i != j { DistinctHeaders(fs, i, j); }
  }

  /** After growth the block below the new one, or the next, is large enough. */
  lemma GrownFits(fs: seq<Blk>, b: Blk)
    requires Insertable(fs, b)
    ensures Near(Insert(fs, b), Below(fs, b), b.n)
  {
    JoinShape(fs, Below(fs, b), b);
  }

  /** sbrk gave the units of block b, at least as many as asked for and never fewer than MIN_UNITS. */
  ghost predicate GrewBy(obtained: set<int>, brk: int, b: Blk, nunits: nat, obtained': set<int>) {
    && b.n == (if nunits < MIN_UNITS then MIN_UNITS else nunits) && brk <= b.a
    && obtained' == obtained + Units(b)
  }

  lemma RingLink(ptr: map<int, int>, size: map<int, nat>, fs: seq<Blk>, k: nat)
    requires Ring(ptr, size, fs) && k < |fs|
    ensures RingAt(ptr, size, fs, k)
  {
  }

  /** The block at ap is cut from the first fit k after block f, the one freep points to. */
  ghost predicate ServedFrom(fs: seq<Blk>, freep: int, f: nat, k: nat, n: nat, r: seq<Blk>, ap: int) {
    && Searched(fs, f, k, n) && fs[f].a == freep && fs[k].n >= n
    && r == Carve(fs, k, n) && ap - 1 == Taken(fs, k, n).a
  }

  class Heap {
    const base: int              // &base
    var ptr: map<int, int>       // s.ptr of each header
    var size: map<int, nat>      // s.size of each header
    var freep: int
    var brk: int                 // end of the process image
    ghost var free: seq<Blk>
    ghost var live: map<int, nat>     // blocks handed out and not freed
    ghost var obtained: set<int>      // units got from sbrk
    ghost var sbrks: nat              // calls of sbrk
    ghost var refused: bool           // the last one failed

    ghost predicate Valid()
      reads this
    {
      && NULL < base < brk
      && Coalesced(free) && free[0] == Blk(base, 0)
      && Partition(free, live, obtained)
      && (forall u :: u in obtained ==> base < u < brk)
      && (forall a :: a in live ==> a in size && size[a] == live[a])
      && if freep == NULL then free == [Blk(base, 0)] && live == map[] && obtained == {}
         else Ring(ptr, size, free) && exists f :: 0 <= f < |free| && free[f].a == freep
    }

    constructor (base: int, brk: int)
      requires NULL < base < brk
      ensures Valid() && live == map[] && obtained == {} && sbrks == 0
    {
      this.base, this.brk := base, brk;
      ptr, size, freep := map[], map[], NULL;
      free, live, obtained, sbrks, refused := [Blk(base, 0)], map[], {}, 0, false;
      new;
      assert forall u :: !Holds(free[0], u);
    }

    /** Where the next search starts. */
    ghost function Start(): int
      reads this
    {
      if freep == NULL then base else freep
    }

    ghost function FreepIndex(): (f: nat)
      reads this
      requires exists f :: 0 <= f < |free| && free[f].a == freep
      ensures f < |free| && free[f].a == freep
    {
      var f :| 0 <= f < |free| && free[f].a == freep;
      f
    }

    /** The walk of free() to the block after which bp belongs. */
    method FindPlace(bp: int) returns (p: int)
      requires Coalesced(free) && Ring(ptr, size, free) && exists f :: 0 <= f < |free| && free[f].a == freep
      requires bp in size && Insertable(free, Blk(bp, size[bp]))
      ensures p == free[Below(free, Blk(bp, size[bp]))].a
    {
      ghost var b := Blk(bp, size[bp]);
      ghost var i, k, n := Below(free, b), FreepIndex(), |free|;
      p := freep;
      while true
        invariant 0 <= k < n && p == free[k].a
        decreases Dist(k, i, n)
      {
        assert RingAt(ptr, size, free, k) && Ascends(free, k);
        if bp > p && bp < ptr[p] { break; }
        if p >= ptr[p] && (bp > p || bp < ptr[p]) { break; }
        assert k != i;
        p, k := ptr[p], Succ(k, n);
      }
      BelowUnique(free, b, k);
    }

    /** The first if of free(): bp absorbs its upper neighbour or is linked to it. */
    method JoinUpper(p: int, bp: int, ghost i: nat, ghost b: Blk, ghost f2: seq<Blk>)
      requires bp in size && b == Blk(bp, size[bp]) && Fits(free, i, b) && Ring(ptr, size, free) && p == free[i].a
      requires f2 == Join(Put(free, i, b), i + 1)
      modifies this`ptr, this`size
      ensures bp in ptr && Ring(ptr[p := bp], size, f2)
      ensures forall a :: a in old(size) && a != bp ==> a in size && size[a] == old(size)[a]
    {
      LinkUpper(ptr, size, free, i, b, p);
      if bp + size[bp] == ptr[p] {
        size := size[bp := size[bp] + size[ptr[p]]];
        ptr := ptr[bp := ptr[ptr[p]]];
      } else {
        ptr := ptr[bp := ptr[p]];
      }
    }

    /** The second if of free(): p absorbs bp or is linked to it. */
    method JoinLower(p: int, bp: int, ghost i: nat, ghost f2: seq<Blk>)
      requires Sorted(f2) && i + 1 < |f2| && f2[i].a == p && f2[i + 1].a == bp
      requires bp in ptr && Ring(ptr[p := bp], size, f2)
      modifies this`ptr, this`size
      ensures Ring(ptr, size, Join(f2, i)) && i < |Join(f2, i)| && Join(f2, i)[i].a == p
      ensures forall a :: a in old(size) && a != p ==> a in size && size[a] == old(size)[a]
    {
      LinkLower(ptr, size, f2, i, p, bp);
      if p + size[p] == bp {
        size := size[p := size[p] + size[bp]];
        ptr := ptr[p := ptr[bp]];
      } else {
        ptr := ptr[p := bp];
      }
    }

    /** free() of the block whose header is bp: walk, then join above and below. */
    method FreeHeader(bp: int)
      requires Coalesced(free) && Ring(ptr, size, free) && exists f :: 0 <= f < |free| && free[f].a == freep
      requires bp in size && Insertable(free, Blk(bp, size[bp]))
      modifies this`ptr, this`size, this`freep, this`free
      ensures free == Insert(old(free), Blk(bp, old(size)[bp]))
      ensures Ring(ptr, size, free)
      ensures var i := Below(old(free), Blk(bp, old(size)[bp]));
              i < |free| && free[i].a == freep == old(free)[i].a
      ensures forall a :: a in old(size) && a != bp && a != freep ==> a in size && size[a] == old(size)[a]
    {
      var p := FindPlace(bp);
      ghost var b := Blk(bp, size[bp]);
      ghost var i := Below(free, b);
      ghost var f2 := Join(Put(free, i, b), i + 1);
      JoinShape(free, i, b);
      JoinUpper(p, bp, i, b, f2);
      JoinLower(p, bp, i, f2);
      freep := p;
      free := Join(f2, i);
    }

    /** free(ap), for a block that malloc handed out. */
    method Free(ap: int)
      requires Valid() && ap - 1 in live
      modifies this
      ensures Valid()
      ensures live == old(live) - {ap - 1} && obtained == old(obtained) && sbrks == old(sbrks)
      ensures var b := Blk(ap - 1, old(live)[ap - 1]); Insertable(old(free), b) && free == Insert(old(free), b)
    {
      var bp := ap - 1;
      ghost var b := Blk(bp, size[bp]);
      assert InLive(live, bp) by { assert Holds(b, bp); }
      FreePartition(free, live, obtained, bp);
      forall a | a in live
        ensures a != free[Below(free, b)].a
      {
        HeadersDiffer(free, live, obtained, Below(free, b), a);
      }
      FreeHeader(bp);
      live := live - {bp};
    }

    /** The environment, for an int n of bytes: refuse; or for n > 0 grow the process by n somewhere above what it has;
        otherwise give some of it back, or do nothing. */
    method Sbrk(n: int) returns (p: int)
      requires n % HEADER == 0
      modifies this`brk, this`sbrks, this`refused
      ensures sbrks == old(sbrks) + 1 && refused == (p == -1)
      ensures p == -1 ==> brk == old(brk)
      ensures p != -1 && n > 0 ==> old(brk) <= p && HEADER * (brk - p) == n
      ensures p != -1 && n <= 0 ==> p == old(brk) && brk <= old(brk)
    {
      sbrks := sbrks + 1;
      if * {
        p, refused := -1, true;
      } else if n > 0 {
        p :| p >= brk && p != -1;
        brk, refused := p + n / HEADER, false;
      } else if brk == -1 {
        p, refused := -1, true;
      } else {
        var less :| less <= brk;
        p, refused, brk := brk, false, less;
      }
    }

    /** The new block of nu units at hp, just below brk, goes on the list. */
    method Extend(hp: int, nu: nat)
      requires NULL < base && Coalesced(free) && free[0] == Blk(base, 0) && Partition(free, live, obtained)
      requires freep != NULL && Ring(ptr, size, free) && exists f :: 0 <= f < |free| && free[f].a == freep
      requires base < hp && brk == hp + nu && nu > 0 && forall u :: u in obtained ==> base < u < hp
      requires forall a :: a in live ==> a in size && size[a] == live[a]
      modifies this`ptr, this`size, this`freep, this`free, this`obtained
      ensures Valid() && freep != NULL
      ensures var b := Blk(hp, nu);
              && obtained == old(obtained) + Units(b)
              && Insertable(old(free), b) && free == Insert(old(free), b)
              && Below(old(free), b) < |free| && free[Below(old(free), b)].a == freep
    {
      ghost var b := Blk(hp, nu);
      ghost var r := Extended(free, live, obtained, b);
      forall a | a in live
        ensures a != hp && a != free[Below(free, b)].a
      {
        HeadersDiffer(free, live, obtained, Below(free, b), a);
        assert Holds(Blk(a, live[a]), a) && InLive(live, a);
      }
      FreeBelow(free, live, obtained, hp);
      RingWithNew(ptr, size, free, hp, nu);
      size := size[hp := nu];
      FreeHeader(hp);
      assert free == r;
      assert forall u :: u in Units(b) ==> Holds(b, u);
      obtained := obtained + Units(b);
    }

    /** morecore(): a refusal changes nothing; otherwise the new block is on the list, at or just above the block f that
        freep now points to. A fault: sbrk was asked for another size than the block's, and the header goes where
        the process has no memory. */
    method Morecore(nunits: nat) returns (p: int, fault: bool, ghost f: nat, ghost b: Blk)
      requires Valid() && freep != NULL && nunits > 0
      modifies this
      ensures sbrks == old(sbrks) + 1
      ensures fault <==> !refused && !Exact(nunits)
      ensures fault ==> p == NULL
      ensures !fault ==> Valid() && live == old(live)
      ensures !fault && p == NULL ==> refused && free == old(free) && freep == old(freep) && obtained == old(obtained)
      ensures p != NULL ==>
        && p == freep && f < |free| && free[f].a == freep && Near(free, f, nunits)
        && GrewBy(old(obtained), old(brk), b, nunits, obtained)
        && Insertable(old(free), b) && free == Insert(old(free), b)
    {
      var nu := if nunits < MIN_UNITS then MIN_UNITS else nunits;
      var hp := Sbrk(ToInt(nu * HEADER));
      b, f, p, fault := Blk(0, 0), 0, NULL, false;
      if hp == -1 {
        return;
      }
      if ToInt(nu * HEADER) != nu * HEADER {
        fault := true;
        return;
      }
      Extend(hp, nu);
      b := Blk(hp, nu);
      f := Below(old(free), b);
      GrownFits(old(free), b);
      p := freep;
    }

    /** The memory writes of a cut of block p = free[k]. */
    method CutFields(prevp: int, p: int, nunits: nat, ghost k: nat, ghost r: seq<Blk>) returns (hp: int)
      requires Sorted(free) && Ring(ptr, size, free) && 0 < k < |free| && p == free[k].a && prevp == free[k - 1].a
      requires 0 < nunits <= free[k].n && r == Carve(free, k, nunits)
      modifies this`ptr, this`size
      ensures Ring(ptr, size, r)
      ensures hp == Taken(free, k, nunits).a && hp in size && size[hp] == nunits
      ensures forall a :: a in old(size) && a != p && a != hp ==> a in size && size[a] == old(size)[a]
    {
      RingCarve(ptr, size, free, k, nunits, r);
      hp := p;
      if size[p] == nunits {
        ptr := ptr[prevp := ptr[p]];
      } else {
        size := size[p := size[p] - nunits];
        hp := p + size[p];
        size := size[hp := nunits];
      }
    }

    /** The cut in malloc(): block p = free[k], with predecessor prevp in the ring. */
    method Cut(prevp: int, p: int, nunits: nat, ghost k: nat) returns (ap: int)
      requires Valid() && freep != NULL && 0 < k < |free| && p == free[k].a && prevp == free[k - 1].a
      requires 0 < nunits <= free[k].n
      modifies this`ptr, this`size, this`freep, this`free, this`live
      ensures Valid() && freep == prevp
      ensures free == Carve(old(free), k, nunits)
      ensures ap == Taken(old(free), k, nunits).a + 1 && ap != NULL
      ensures ap - 1 !in old(live) && live == old(live)[ap - 1 := nunits]
    {
      ghost var r := Carved(free, live, obtained, k, nunits);
      forall a | a in live
        ensures a != p
      {
        HeadersDiffer(free, live, obtained, k, a);
      }
      assert base < p && base <= prevp;
      var hp := CutFields(prevp, p, nunits, k, r);
      freep := prevp;
      live := live[hp := nunits];
      free := r;
      assert free[k - 1].a == freep;
      ap := hp + 1;
    }

    /** malloc() before its first search: the list is the static block alone. */
    method Prepare()
      requires Valid()
      modifies this`ptr, this`size, this`freep
      ensures Valid() && freep == old(Start())
    {
      if freep == NULL {
        ptr := ptr[base := base];
        freep := base;
        size := size[base := 0];
        assert RingAt(ptr, size, free, 0);
      }
    }

    /** The search loop of malloc(): a block p = free[k] of at least nunits and its predecessor,
        found in the list as it was (not grown) or in the list extended once. */
    method Search(nunits: nat) returns (prevp: int, p: int, fault: bool, ghost f: nat, ghost k: nat, ghost b: Blk)
      requires Valid() && freep != NULL && nunits > 0
      modifies this
      ensures sbrks <= old(sbrks) + 1 && (sbrks > old(sbrks) ==> AllSmall(old(free), nunits))
      ensures fault <==> sbrks > old(sbrks) && !refused && !Exact(nunits)
      ensures fault ==> p == NULL
      ensures !fault ==> Valid() && freep != NULL && live == old(live)
      ensures !fault && p == NULL ==> refused && sbrks == old(sbrks) + 1 && free == old(free)
      ensures !fault && p == NULL ==> obtained == old(obtained)
      ensures p != NULL ==> 0 < k < |free| && p == free[k].a && prevp == free[k - 1].a && free[k].n >= nunits
      ensures p != NULL && sbrks == old(sbrks) ==>
        && free == old(free) && obtained == old(obtained)
        && Searched(free, f, k, nunits) && free[f].a == old(freep)
      ensures p != NULL && sbrks > old(sbrks) ==> GrewBy(old(obtained), old(brk), b, nunits, obtained)
    {
      hide Exact, GrewBy;
      fault := false;
      prevp := freep;
      f := FreepIndex();
      ghost var kp, grown := f, false;
      k, b := Succ(f, |free|), Blk(0, 0);
      RingLink(ptr, size, free, f);
      p := ptr[prevp];
      while true
        invariant Valid() && freep != NULL && live == old(live) && !fault
        invariant 0 <= f < |free| && free[f].a == freep && 0 <= kp < |free| && k == Succ(kp, |free|)
        invariant p == free[k].a && prevp == free[kp].a
        invariant !grown ==>
          && sbrks == old(sbrks) && free == old(free) && obtained == old(obtained) && brk == old(brk)
          && freep == old(freep) && Searched(free, f, k, nunits)
        invariant grown ==>
          && sbrks == old(sbrks) + 1 && AllSmall(old(free), nunits) && (refused || Exact(nunits))
          && (free[f].n >= nunits || (kp == f && free[k].n >= nunits))
          && GrewBy(old(obtained), old(brk), b, nunits, obtained)
        decreases !grown, Dist(k, f, |free|)
      {
        RingLink(ptr, size, free, k);
        if size[p] >= nunits { break; }
        if !grown { SearchOn(free, f, k, nunits); }
        if p == freep {
          DistinctIndex(free, k, f);
          p, fault, f, b := Morecore(nunits);
          if p == NULL { return; }
          grown, k := true, f;
          RingLink(ptr, size, free, k);
        }
        prevp, kp := p, k;
        p, k := ptr[p], Succ(k, |free|);
      }
      assert free[0].n == 0;
    }

    /** malloc(nbytes), for any uint: next fit, growing the heap at most once. A null result means that sbrk refused
        when no free block was large enough. Otherwise the caller gets a block of its own; it has room for nbytes
        exactly when the unit count did not wrap. A fault, only for a request whose sbrk argument is not the size of
        its block, when no free block was large enough and sbrk did not refuse. */
    method Malloc(nbytes: nat) returns (ap: int, fault: bool)
      requires Valid() && nbytes < UINT
      modifies this
      ensures sbrks <= old(sbrks) + 1 && (sbrks > old(sbrks) ==> AllSmall(old(free), Nunits(nbytes)))
      ensures fault <==> sbrks > old(sbrks) && !refused && MAX_REQUEST < nbytes < 0xFFFF_FFF9
      ensures fault ==> ap == NULL
      ensures !fault ==> Valid()
      ensures !fault && ap == NULL ==>
        && refused && sbrks == old(sbrks) + 1
        && free == old(free) && live == old(live) && obtained == old(obtained)
      ensures ap != NULL ==> ap - 1 !in old(live) && live == old(live)[ap - 1 := Nunits(nbytes)]
      ensures ap != NULL ==> (HEADER * (live[ap - 1] - 1) >= nbytes <==> nbytes <= 0xFFFF_FFF8)
      ensures ap != NULL && sbrks == old(sbrks) ==>
        && obtained == old(obtained)
        && exists f: nat, k: nat ::
             && ServedFrom(old(free), old(Start()), f, k, Nunits(nbytes), free, ap)
             && 0 < k && freep == old(free)[k - 1].a
      ensures ap != NULL && sbrks > old(sbrks) ==>
        exists b: Blk :: GrewBy(old(obtained), old(brk), b, Nunits(nbytes), obtained)
    {
      hide Searched, GrewBy, AllSmall, Carve, Taken, Exact, Nunits, Ring, Coalesced, Partition;
      SbrkExactly(nbytes);
      Prepare();
      var nunits := Nunits(nbytes);
      var prevp, p; ghost var f, k, b;
      prevp, p, fault, f, k, b := Search(nunits);
      if p == NULL { return NULL, fault; }
      ghost var fs := free;
      ap := Cut(prevp, p, nunits, k);
      assert sbrks == old(sbrks) ==> ServedFrom(fs, old(Start()), f, k, nunits, free, ap);
    }
  }
}
