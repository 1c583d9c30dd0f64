/** The free list of the K&R allocator as a value: blocks in address order, the
    empty static block first (xv6/umalloc.c). Addresses and sizes are in units of
    one Header. */
module FreeList {

  /** A block: its header is unit a, the whole block is units a .. a+n. */
  datatype Blk = Blk(a: int, n: nat)

  predicate Holds(b: Blk, u: int) {
    b.a <= u < b.a + b.n
  }

  predicate Apart(b: Blk, c: Blk) {
    b.a + b.n <= c.a || c.a + c.n <= b.a
  }

  /** Block k ends at or below the start of the next. */
  predicate Ascends(fs: seq<Blk>, k: nat) {
    k + 1 < |fs| ==> fs[k].a + fs[k].n <= fs[k + 1].a
  }

  /** Address order without overlap; only the static block, at the head, is empty. */
  ghost predicate Sorted(fs: seq<Blk>) {
    && fs != [] && fs[0].n == 0
    && (forall i :: 0 < i < |fs| ==> fs[i].n > 0 && fs[0].a < fs[i].a)
    && (forall k: nat :: Ascends(fs, k))
  }

  lemma {:induction false} SortedPair(fs: seq<Blk>, i: nat, j: nat)
    requires Sorted(fs) && i < j < |fs|
    ensures fs[i].a + fs[i].n <= fs[j].a && fs[i].a < fs[j].a
  {
    assert Ascends(fs, j - 1);
    if i < j - 1 { SortedPair(fs, i, j - 1); }
  }

  predicate Touching(fs: seq<Blk>, k: nat) {
    k + 1 < |fs| && fs[k].a + fs[k].n == fs[k + 1].a
  }

  /** Moreover no two blocks touch. */
  ghost predicate Coalesced(fs: seq<Blk>) {
    Sorted(fs) && forall k: nat :: !Touching(fs, k)
  }

  ghost predicate InFree(fs: seq<Blk>, u: int) {
    exists i :: 0 <= i < |fs| && Holds(fs[i], u)
  }

  lemma HoldsInFree(fs: seq<Blk>, i: nat, u: int)
    requires i < |fs| && Holds(fs[i], u)
    ensures InFree(fs, u)
  {
  }

  // ---------------------------------------------------------------- free()

  /** A block that may be put on the list. */
  ghost predicate Insertable(fs: seq<Blk>, b: Blk) {
    && Coalesced(fs) && b.n > 0 && fs[0].a < b.a
    && forall i :: 0 <= i < |fs| ==> Apart(fs[i], b)
  }

  /** The last block below b. */
  ghost function Below(fs: seq<Blk>, b: Blk): (i: nat)
    requires Insertable(fs, b)
    ensures i < |fs| && fs[i].a < b.a && fs[i].a + fs[i].n <= b.a
    ensures i + 1 < |fs| ==> b.a + b.n <= fs[i + 1].a
  {
    BelowIn(fs, b, |fs| - 1)
  }

  ghost function BelowIn(fs: seq<Blk>, b: Blk, k: nat): (i: nat)
    requires Insertable(fs, b) && k < |fs|
    requires k + 1 < |fs| ==> b.a + b.n <= fs[k + 1].a
    ensures i <= k && fs[i].a < b.a && fs[i].a + fs[i].n <= b.a
    ensures i + 1 < |fs| ==> b.a + b.n <= fs[i + 1].a
  {
    assert Apart(fs[k], b);
    if fs[k].a < b.a then k else BelowIn(fs, b, k - 1)
  }

  ghost function Put(fs: seq<Blk>, i: nat, b: Blk): (r: seq<Blk>)
    requires i < |fs|
  {
    seq(|fs| + 1, j requires 0 <= j < |fs| + 1 => if j <= i then fs[j] else if j == i + 1 then b else fs[j - 1])
  }

  /** Blocks k and k+1 become one if they touch. */
  ghost function Join(fs: seq<Blk>, k: nat): (r: seq<Blk>) {
    if Touching(fs, k) then
      seq(|fs| - 1, j requires 0 <= j < |fs| - 1 =>
        if j < k then fs[j] else if j == k then Blk(fs[k].a, fs[k].n + fs[k + 1].n) else fs[j + 1])
    else fs
  }

  /** free(): b goes after the last block below it, joins its upper neighbour if
      they touch, then the lower one. */
  ghost function Insert(fs: seq<Blk>, b: Blk): (r: seq<Blk>)
    requires Insertable(fs, b)
  {
    var i := Below(fs, b);
    Join(Join(Put(fs, i, b), i + 1), i)
  }

  /** Position i of the list is where b belongs. */
  ghost predicate Fits(fs: seq<Blk>, i: nat, b: Blk) {
    && Coalesced(fs) && i < |fs| && b.n > 0 && fs[0].a < b.a
    && fs[i].a + fs[i].n <= b.a && (i + 1 < |fs| ==> b.a + b.n <= fs[i + 1].a)
  }

  lemma PutSorted(fs: seq<Blk>, i: nat, b: Blk)
    requires Fits(fs, i, b)
    ensures Sorted(Put(fs, i, b)) && Put(fs, i, b)[0] == fs[0]
  {
    var r := Put(fs, i, b);
    forall k: nat
      ensures Ascends(r, k)
    {
      assert Ascends(fs, k);
      if k > 0 { assert Ascends(fs, k - 1); }
    }
  }

  lemma PutTouching(fs: seq<Blk>, i: nat, b: Blk, k: nat)
    requires Fits(fs, i, b) && Touching(Put(fs, i, b), k)
    ensures k == i || k == i + 1
  {
    assert !Touching(fs, k);
    if k > 0 { assert !Touching(fs, k - 1); }
  }

  lemma PutUnits(fs: seq<Blk>, i: nat, b: Blk, u: int)
    requires Fits(fs, i, b)
    ensures InFree(Put(fs, i, b), u) <==> InFree(fs, u) || Holds(b, u)
  {
    var r := Put(fs, i, b);
    if j :| 0 <= j < |fs| && Holds(fs[j], u) { HoldsInFree(r, if j <= i then j else j + 1, u); }
    if Holds(b, u) { HoldsInFree(r, i + 1, u); }
    if j :| 0 <= j < |r| && Holds(r[j], u) {
      if j != i + 1 { HoldsInFree(fs, if j <= i then j else j - 1, u); }
    }
  }

  lemma JoinSorted(fs: seq<Blk>, k: nat)
    requires Sorted(fs)
    ensures Sorted(Join(fs, k)) && Join(fs, k)[0] == fs[0]
  {
    var r := Join(fs, k);
    forall j: nat
      ensures Ascends(r, j)
    {
      assert Ascends(fs, j) && Ascends(fs, j + 1);
    }
  }

  /** Joining at k leaves nothing touching there and creates no touch elsewhere. */
  lemma JoinTouching(fs: seq<Blk>, k: nat, j: nat)
    requires Sorted(fs) && !Touching(fs, k + 1) && Touching(Join(fs, k), j)
    ensures j != k && Touching(fs, if j < k || !Touching(fs, k) then j else j + 1)
  {
  }

  lemma JoinUnits(fs: seq<Blk>, k: nat, u: int)
    requires Sorted(fs)
    ensures InFree(Join(fs, k), u) <==> InFree(fs, u)
  {
    var r := Join(fs, k);
    if Touching(fs, k) {
      if j :| 0 <= j < |fs| && Holds(fs[j], u) { HoldsInFree(r, if j <= k then j else j - 1, u); }
      if j :| 0 <= j < |r| && Holds(r[j], u) {
        if j < k { HoldsInFree(fs, j, u); }
        else if j > k || !Holds(fs[k], u) { HoldsInFree(fs, j + 1, u); }
      }
    }
  }

  /** Joining at i+1 and then at i, where alone blocks may touch. */
  lemma JoinTwice(f1: seq<Blk>, i: nat, f2: seq<Blk>, f3: seq<Blk>)
    requires Sorted(f1) && f2 == Join(f1, i + 1) && f3 == Join(f2, i)
    requires forall k: nat :: Touching(f1, k) ==> k == i || k == i + 1
    ensures Coalesced(f3) && f3[0] == f1[0]
    ensures forall u :: InFree(f3, u) <==> InFree(f1, u)
  {
    JoinSorted(f1, i + 1);
    JoinSorted(f2, i);
    forall k: nat
      ensures Touching(f2, k) ==> k == i
    {
      if Touching(f2, k) { JoinTouching(f1, i + 1, k); }
    }
    forall k: nat
      ensures !Touching(f3, k)
    {
      if Touching(f3, k) { JoinTouching(f2, i, k); }
    }
    forall u
      ensures InFree(f3, u) <==> InFree(f1, u)
    {
      JoinUnits(f1, i + 1, u);
      JoinUnits(f2, i, u);
    }
  }

  /** Coalescing keeps the list in order and leaves no two blocks touching; the
      static block stays. The list holds exactly the units it held before and those of b. */
  lemma InsertCoalesced(fs: seq<Blk>, b: Blk)
    requires Insertable(fs, b)
    ensures Coalesced(Insert(fs, b)) && Insert(fs, b)[0] == fs[0]
    ensures forall u :: InFree(Insert(fs, b), u) <==> InFree(fs, u) || Holds(b, u)
  {
    var i := Below(fs, b);
    var f1 := Put(fs, i, b);
    PutSorted(fs, i, b);
    forall k: nat
      ensures Touching(f1, k) ==> k == i || k == i + 1
    {
      if Touching(f1, k) { PutTouching(fs, i, b, k); }
    }
    forall u
      ensures InFree(f1, u) <==> InFree(fs, u) || Holds(b, u)
    {
      PutUnits(fs, i, b, u);
    }
    JoinTwice(f1, i, Join(f1, i + 1), Insert(fs, b));
  }

  // ---------------------------------------------------------------- malloc()

  /** malloc()'s cut: all of block k, or its last n units. */
  ghost function Carve(fs: seq<Blk>, k: nat, n: nat): (r: seq<Blk>)
    requires k < |fs| && n <= fs[k].n
  {
    if fs[k].n == n then seq(|fs| - 1, j requires 0 <= j < |fs| - 1 => if j < k then fs[j] else fs[j + 1])
    else fs[k := Blk(fs[k].a, fs[k].n - n)]
  }

  ghost function Taken(fs: seq<Blk>, k: nat, n: nat): (b: Blk)
    requires k < |fs| && n <= fs[k].n
  {
    Blk(fs[k].a + fs[k].n - n, n)
  }

  lemma CarveCoalesced(fs: seq<Blk>, k: nat, n: nat)
    requires Coalesced(fs) && 0 < k < |fs| && 0 < n <= fs[k].n
    ensures Coalesced(Carve(fs, k, n)) && Carve(fs, k, n)[0] == fs[0]
  {
    var r := Carve(fs, k, n);
    forall j: nat
      ensures !Touching(r, j) && Ascends(r, j)
    {
      assert !Touching(fs, j) && !Touching(fs, j + 1);
      assert Ascends(fs, j) && Ascends(fs, j + 1);
    }
  }

  /** No block on the list moves: what the caller gets is the end of its block. */
  lemma CarveFromEnd(fs: seq<Blk>, k: nat, n: nat, j: nat)
    requires k < |fs| && 0 < n <= fs[k].n && j < |Carve(fs, k, n)|
    ensures var (b, t) := (Carve(fs, k, n)[j], Taken(fs, k, n));
      && t.n == n && t.a + n == fs[k].a + fs[k].n
      && (exists i :: 0 <= i < |fs| && fs[i].a == b.a && (i != k ==> b == fs[i]) && (i == k ==> b.a + b.n == t.a))
  {
    var i := if j < k || fs[k].n > n then j else j + 1;
    assert fs[i].a == Carve(fs, k, n)[j].a;
  }

  /** Carving splits the units exactly between the list and the caller. */
  lemma CarveUnits(fs: seq<Blk>, k: nat, n: nat, u: int)
    requires Sorted(fs) && 0 < k < |fs| && 0 < n <= fs[k].n
    ensures InFree(fs, u) <==> InFree(Carve(fs, k, n), u) || Holds(Taken(fs, k, n), u)
  {
    var r, t := Carve(fs, k, n), Taken(fs, k, n);
    var gone := if fs[k].n == n then 1 else 0;
    if j :| 0 <= j < |fs| && Holds(fs[j], u) {
      if j < k { HoldsInFree(r, j, u); }
      else if j > k { HoldsInFree(r, j - gone, u); }
      else if !Holds(t, u) { HoldsInFree(r, k, u); }
    }
    if j :| 0 <= j < |r| && Holds(r[j], u) { HoldsInFree(fs, if j < k then j else j + gone, u); }
    if Holds(t, u) { HoldsInFree(fs, k, u); }
  }

  lemma CarveApart(fs: seq<Blk>, k: nat, n: nat, u: int)
    requires Sorted(fs) && 0 < k < |fs| && 0 < n <= fs[k].n && Holds(Taken(fs, k, n), u)
    ensures !InFree(Carve(fs, k, n), u)
  {
    var r := Carve(fs, k, n);
    forall j | 0 <= j < |r|
      ensures !Holds(r[j], u)
    {
      var i := if j < k || fs[k].n > n then j else j + 1;
      if i < k { SortedPair(fs, i, k); }
      if i > k { SortedPair(fs, k, i); }
    }
  }
}
