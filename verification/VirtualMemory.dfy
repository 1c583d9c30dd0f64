/** Physical page allocation (xv6/kalloc.c) and address spaces (xv6/vm.c) as they run: the free list threaded through
    the free pages, walkpgdir, mappages, setupkvm, copyuvm, deallocuvm and freevm. */
module VirtualMemory {

  import opened Common
  import opened PageTables

  // ---------------------------------------------------------------- the free list

  /** The kernel address of a physical page, p2v. */
  function Ptr(p: nat): nat {
    0x8000_0000 + 4096 * p
  }

  function PageOf(ptr: nat): int {
    (ptr - 0x8000_0000) / 4096
  }

  /** The pointer to the k-th free page from the bottom of the list, null below the first. */
  function Link(free: seq<nat>, k: nat): nat
    requires k <= |free|
  {
    if k == 0 then 0 else Ptr(free[k - 1])
  }

  /** free lists the free pages, the head last; each page's first word points to the one below it. */
  ghost predicate FreeOk(mem: seq<Page>, owner: seq<Owner>, freelist: nat, free: seq<nat>, first: nat) {
    && Sized(mem) && |owner| == |mem| && freelist == Link(free, |free|) && 0 < first
    && (forall k :: 0 <= k < |free| ==> FreeAt(mem, owner, free, first, k))
    && (forall p :: 0 <= p < |owner| && owner[p].Free? ==> owner[p].at < |free| && free[owner[p].at] == p)
  }

  ghost predicate FreeAt(mem: seq<Page>, owner: seq<Owner>, free: seq<nat>, first: nat, k: nat)
    requires Sized(mem) && |owner| == |mem| && k < |free|
  {
    first <= free[k] < |mem| && owner[free[k]] == Free(k) && mem[free[k]][0] == Link(free, k)
  }

  /** memset(v, 1, PGSIZE); r->next = kmem.freelist */
  function FreedPage(next: nat): (r: Page)
    ensures |r| == NENT
  {
    seq(NENT, i => if i == 0 then next else 0x0101_0101)
  }

  lemma PopKeepsFree(mem: seq<Page>, owner: seq<Owner>, free: seq<nat>, first: nat)
    requires FreeOk(mem, owner, Link(free, |free|), free, first) && |free| > 0
    ensures var p := free[|free| - 1];
      && first <= p < |mem| && owner[p] == Free(|free| - 1) && mem[p][0] == Link(free, |free| - 1)
      && FreeOk(mem, owner[p := Other], mem[p][0], free[..|free| - 1], first)
  {
    var n := |free| - 1;
    assert FreeAt(mem, owner, free, first, n);
    var rest, owner' := free[..n], owner[free[n] := Other];
    forall k | 0 <= k < |rest|
      ensures FreeAt(mem, owner', rest, first, k)
    {
      assert FreeAt(mem, owner, free, first, k);
    }
  }

  lemma PushKeepsFree(mem: seq<Page>, owner: seq<Owner>, free: seq<nat>, first: nat, p: nat)
    requires FreeOk(mem, owner, Link(free, |free|), free, first) && first <= p < |mem| && !owner[p].Free?
    ensures FreeOk(mem[p := FreedPage(Link(free, |free|))], owner[p := Free(|free|)], Ptr(p), free + [p], first)
  {
    var mem', owner', more := mem[p := FreedPage(Link(free, |free|))], owner[p := Free(|free|)], free + [p];
    forall k | 0 <= k < |more|
      ensures FreeAt(mem', owner', more, first, k)
    {
      if k < |free| {
        assert FreeAt(mem, owner, free, first, k);
      }
    }
  }

  /** Writing a page that is not free, and handing around pages that stay off the list, leaves the list alone. */
  lemma WriteKeepsFree(mem: seq<Page>, owner: seq<Owner>, owner': seq<Owner>, freelist: nat, free: seq<nat>, first: nat,
                       p: nat, page: Page)
    requires FreeOk(mem, owner, freelist, free, first) && p < |mem| && !owner[p].Free? && |page| == NENT
    requires |owner'| == |owner|
    requires forall q :: 0 <= q < |owner| ==> if owner[q].Free? then owner'[q] == owner[q] else !owner'[q].Free?
    ensures FreeOk(mem[p := page], owner', freelist, free, first)
  {
    var mem' := mem[p := page];
    forall k | 0 <= k < |free|
      ensures FreeAt(mem', owner', free, first, k)
    {
      assert FreeAt(mem, owner, free, first, k);
    }
  }

  // ---------------------------------------------------------------- what changes hands

  /** The page is part of the address space d. */
  predicate Belongs(o: Owner, p: nat, d: nat) {
    (o == Dir && p == d) || (o.Table? && o.d == d) || (o.User? && o.d == d)
  }

  /** Building up address space d: free pages may go to d, or be among the lost; d's tables may be written; pages
      [lo, lo + n) may become d's user pages; everything else keeps its owner and its contents. */
  ghost predicate GrowsAt(mem: seq<Page>, owner: seq<Owner>, mem': seq<Page>, owner': seq<Owner>,
                          d: nat, lo: nat, n: nat, lost: set<nat>, p: nat)
    requires |mem| == |owner| == |mem'| == |owner'| && p < |mem|
  {
    if owner[p].Free? then owner'[p].Free? || Belongs(owner'[p], p, d) || (p in lost && owner'[p].Other?)
    else if (owner[p] == Dir && p == d) || (owner[p].Table? && owner[p].d == d) then owner'[p] == owner[p]
    else mem'[p] == mem[p] && (owner'[p] == owner[p] || (lo <= p < lo + n && owner'[p].User? && owner'[p].d == d))
  }

  ghost predicate Grows(mem: seq<Page>, owner: seq<Owner>, mem': seq<Page>, owner': seq<Owner>,
                        d: nat, lo: nat, n: nat, lost: set<nat>) {
    && |mem| == |owner| == |mem'| == |owner'|
    && forall p :: 0 <= p < |mem| ==> GrowsAt(mem, owner, mem', owner', d, lo, n, lost, p)
  }

  lemma GrowsTwice(m: seq<Page>, o: seq<Owner>, m': seq<Page>, o': seq<Owner>, m'': seq<Page>, o'': seq<Owner>,
                   d: nat, lo: nat, n: nat, lost: set<nat>)
    requires Grows(m, o, m', o', d, lo, n, {}) && Grows(m', o', m'', o'', d, lo, n, lost)
    ensures Grows(m, o, m'', o'', d, lo, n, lost)
  {
    forall p | 0 <= p < |m|
      ensures GrowsAt(m, o, m'', o'', d, lo, n, lost, p)
    {
      assert GrowsAt(m, o, m', o', d, lo, n, {}, p) && GrowsAt(m', o', m'', o'', d, lo, n, lost, p);
    }
  }

  // ---------------------------------------------------------------- page tables in use

  /** The directory entries that have a table. */
  ghost function Slots(dir: Page): (r: set<nat>)
    requires |dir| == NENT
    ensures forall x :: x in r <==> 0 <= x < NENT && Present(dir[x])
  {
    set x: nat | x < NENT && Present(dir[x])
  }

  /** The directory entries that virtual pages [v, v + n) fall under. */
  ghost function RangeSlots(v: nat, n: nat): (r: set<nat>) {
    set u: nat | v <= u < v + n :: u / NENT
  }

  lemma RangeSlotsNext(v: nat, n: nat)
    ensures RangeSlots(v, 0) == {} && RangeSlots(v, n + 1) == RangeSlots(v, n) + {(v + n) / NENT}
  {
    var a, b := RangeSlots(v, n + 1), RangeSlots(v, n) + {(v + n) / NENT};
    forall x | x in b
      ensures x in a
    {
      if x == (v + n) / NENT {
        assert v <= v + n < v + (n + 1);
      }
    }
  }

  lemma RangeSlotsIn(v: nat, n: nat, u: nat)
    requires v <= u < v + n
    ensures u / NENT in RangeSlots(v, n)
  {
  }

  lemma RangeSlotsOne(v: nat)
    ensures RangeSlots(v, 0) == {} && RangeSlots(v, 1) == {v / NENT}
  {
    RangeSlotsNext(v, 0);
  }

  /** One slot more, one page less. */
  lemma SlotTaken(before: set<nat>, after: set<nat>, x: nat)
    requires after == before + {x}
    ensures |after| == |before| + if x in before then 0 else 1
  {
    if x in before {
      assert after == before;
    }
  }

  lemma SlotsFewer(a: set<nat>, b: set<nat>)
    requires a <= b
    ensures |a| <= |b| && (a != b ==> |a| < |b|)
  {
    assert b == a + (b - a);
  }

  /** The slot of the page that could not be mapped is wanted and not there. */
  lemma SlotMissing(dir: Page, before: set<nat>, v: nat, done: nat, n: nat)
    requires |dir| == NENT && Slots(dir) == before + RangeSlots(v, done) && done < n && v + n <= VPAGES
    requires !Present(dir[(v + done) / NENT])
    ensures Slots(dir) < before + RangeSlots(v, n)
  {
    RangeSlotsIn(v, n, v + done);
    forall x | x in RangeSlots(v, done)
      ensures x in RangeSlots(v, n)
    {
      var u: nat :| v <= u < v + done && u / NENT == x;
      RangeSlotsIn(v, n, u);
    }
  }

  lemma SlotsGrow(before: set<nat>, after: set<nat>, all: set<nat>)
    requires before <= all && after <= all
    ensures |before| <= |all| && |after| <= |all| && (after < all ==> |after| < |all|)
  {
    SlotsFewer(before, all);
    SlotsFewer(after, all);
  }

  /** The tables that the first i virtual pages need. */
  function Tables(i: nat): nat {
    (i + NENT - 1) / NENT
  }

  /** Page i needs a table of its own exactly at the start of a stretch of 1024. */
  lemma NextTable(i: nat)
    ensures i / NENT in RangeSlots(0, i) <==> i % NENT != 0
    ensures Tables(i + 1) == Tables(i) + if i % NENT == 0 then 1 else 0
  {
    if i % NENT != 0 {
      assert (i - 1) / NENT == i / NENT;
      RangeSlotsIn(0, i, i - 1);
    }
  }

  lemma {:induction false} RangeSlotsCount(i: nat)
    ensures |RangeSlots(0, i)| == Tables(i)
  {
    if i > 0 {
      RangeSlotsCount(i - 1);
      RangeSlotsNext(0, i - 1);
      NextTable(i - 1);
      hide RangeSlots;
    }
  }


  // ---------------------------------------------------------------- mapping

  datatype Status = Mapped | NoMemory | Remap

  /** How copyuvm ends; the last two are its panics, on a missing table and on a page not present. */
  datatype Copy = Copied | OutOfMemory | NoTable | NoPage

  /** How many pages [va, va + size) touches. */
  function PagesOf(va: nat, size: nat): nat
    requires size > 0
  {
    (va + size - 1) / 4096 - va / 4096 + 1
  }

  /** Mapping into the user half hands the frames over. */
  function UserCount(v: nat, n: nat): nat {
    if v < USER then n else 0
  }

  lemma OnePage(i: nat)
    requires i < USER
    ensures PagesOf(i * 4096, 4096) == 1 && UserCount(i, 1) == 1 && i * 4096 / 4096 == i
  {
  }

  ghost predicate TakesFrom(owner: seq<Owner>, first: nat, d: nat, v: nat, n: nat, f: nat, done: nat) {
    v < USER ==>
      && v + n <= USER && first <= f && f + n <= |owner|
      && forall p :: f <= p < f + n ==> owner[p] == if p < f + done then User(d, v + p - f) else Other
  }

  /** Entries v, v + 1, ... of d, m of them, map frames f, f + 1, ...; the rest are as before. */
  ghost predicate Ranged(mem: seq<Page>, mem': seq<Page>, d: nat, v: nat, m: nat, f: nat, perm: nat) {
    && Sized(mem) && Sized(mem') && d < |mem| == |mem'|
    && forall u :: 0 <= u < VPAGES ==>
         Entry(mem', d, u) == if v <= u < v + m then Pack(f + u - v, perm) else Entry(mem, d, u)
  }

  lemma RangedNone(mem: seq<Page>, d: nat, v: nat, f: nat, perm: nat)
    requires Sized(mem) && d < |mem|
    ensures Ranged(mem, mem, d, v, 0, f, perm)
  {
  }

  lemma RangedNext(mem0: seq<Page>, mem: seq<Page>, mem': seq<Page>, d: nat, v: nat, m: nat, f: nat, perm: nat,
                   mapped: bool)
    requires Ranged(mem0, mem, d, v, m, f, perm) && Sized(mem') && |mem'| == |mem| && v + m < VPAGES
    requires forall u :: 0 <= u < VPAGES ==>
      Entry(mem', d, u) == if mapped && u == v + m then Pack(f + m, perm) else Entry(mem, d, u)
    ensures Ranged(mem0, mem', d, v, if mapped then m + 1 else m, f, perm)
    ensures Entry(mem, d, v + m) == Entry(mem0, d, v + m)
  {
  }

  lemma TakesNext(mem: seq<Page>, owner: seq<Owner>, mem': seq<Page>, owner': seq<Owner>, first: nat,
                  d: nat, v: nat, n: nat, f: nat, done: nat, mapped: bool)
    requires TakesFrom(owner, first, d, v, n, f, done) && done < n
    requires Grows(mem, owner, mem', owner', d, f + done, UserCount(v + done, 1), {})
    requires v < USER ==> owner'[f + done] == if mapped then User(d, v + done) else Other
    ensures TakesFrom(owner', first, d, v, n, f, if mapped then done + 1 else done)
  {
    if v < USER {
      var done' := if mapped then done + 1 else done;
      forall p | f <= p < f + n
        ensures owner'[p] == if p < f + done' then User(d, v + p - f) else Other
      {
        assert GrowsAt(mem, owner, mem', owner', d, f + done, UserCount(v + done, 1), {}, p);
      }
    }
  }

  lemma GrowsWider(m: seq<Page>, o: seq<Owner>, m': seq<Page>, o': seq<Owner>, d: nat, lo: nat, n: nat, lo': nat,
                   n': nat)
    requires Grows(m, o, m', o', d, lo, n, {}) && (n == 0 || lo' <= lo <= lo + n <= lo' + n')
    ensures Grows(m, o, m', o', d, lo', n', {})
  {
    forall p | 0 <= p < |m|
      ensures GrowsAt(m, o, m', o', d, lo', n', {}, p)
    {
      assert GrowsAt(m, o, m', o', d, lo, n, {}, p);
    }
  }

  /** mappages' loop after done pages: the entries, the owners, and the pages that new tables took. */
  ghost predicate Mapping(mem0: seq<Page>, owner0: seq<Owner>, nfree0: nat, mem: seq<Page>, owner: seq<Owner>,
                          nfree: nat, first: nat, d: nat, v: nat, n: nat, f: nat, perm: nat, done: nat) {
    && Ranged(mem0, mem, d, v, done, f, perm)
    && Grows(mem0, owner0, mem, owner, d, f, UserCount(v, n), {})
    && TakesFrom(owner, first, d, v, n, f, done)
    && Slots(mem[d]) == Slots(mem0[d]) + RangeSlots(v, done)
    && nfree + |Slots(mem[d])| == nfree0 + |Slots(mem0[d])|
  }

  lemma MappingStarts(mem: seq<Page>, owner: seq<Owner>, nfree: nat, first: nat, d: nat, v: nat, n: nat, f: nat,
                      perm: nat)
    requires Sized(mem) && d < |mem| == |owner| && TakesFrom(owner, first, d, v, n, f, 0)
    ensures Mapping(mem, owner, nfree, mem, owner, nfree, first, d, v, n, f, perm, 0)
  {
    RangedNone(mem, d, v, f, perm);
    GrowsSelf(mem, owner, d, f, UserCount(v, n));
    RangeSlotsNext(v, 0);
  }

  lemma MappingTakes(mem0: seq<Page>, owner0: seq<Owner>, nfree0: nat, mem: seq<Page>, owner: seq<Owner>, nfree: nat,
                     first: nat, d: nat, v: nat, n: nat, f: nat, perm: nat, done: nat)
    requires Mapping(mem0, owner0, nfree0, mem, owner, nfree, first, d, v, n, f, perm, done) && done < n
    ensures v + done < USER ==> first <= f + done < |owner| && owner[f + done].Other?
  {
  }

  lemma MappingNext(mem0: seq<Page>, owner0: seq<Owner>, nfree0: nat, mem: seq<Page>, owner: seq<Owner>, nfree: nat,
                    mem': seq<Page>, owner': seq<Owner>, nfree': nat, first: nat, d: nat, v: nat, n: nat, f: nat,
                    perm: nat, done: nat)
    requires Mapping(mem0, owner0, nfree0, mem, owner, nfree, first, d, v, n, f, perm, done) && done < n
    requires v + done < VPAGES
    requires Sized(mem') && |mem'| == |mem| && Grows(mem, owner, mem', owner', d, f + done, UserCount(v + done, 1), {})
    requires forall u :: 0 <= u < VPAGES ==>
      Entry(mem', d, u) == if u == v + done then Pack(f + done, perm) else Entry(mem, d, u)
    requires v + done < USER ==> owner'[f + done] == User(d, v + done)
    requires Slots(mem'[d]) == Slots(mem[d]) + {(v + done) / NENT}
    requires nfree' + |Slots(mem'[d])| == nfree + |Slots(mem[d])|
    ensures Mapping(mem0, owner0, nfree0, mem', owner', nfree', first, d, v, n, f, perm, done + 1)
  {
    GrowsWider(mem, owner, mem', owner', d, f + done, UserCount(v + done, 1), f, UserCount(v, n));
    GrowsTwice(mem0, owner0, mem, owner, mem', owner', d, f, UserCount(v, n), {});
    RangedNext(mem0, mem, mem', d, v, done, f, perm, true);
    TakesNext(mem, owner, mem', owner', first, d, v, n, f, done, true);
    RangeSlotsNext(v, done);
    hide Ranged, Grows, Entry, TakesFrom;
  }

  lemma MappingEnds(mem0: seq<Page>, owner0: seq<Owner>, nfree0: nat, mem: seq<Page>, owner: seq<Owner>, nfree: nat,
                    first: nat, d: nat, v: nat, n: nat, f: nat, perm: nat, done: nat, r: Status)
    requires Mapping(mem0, owner0, nfree0, mem, owner, nfree, first, d, v, n, f, perm, done) && v + n <= VPAGES
    requires done <= n
    requires r.Mapped? <==> done == n
    requires r.NoMemory? ==> !Present(mem[d][(v + done) / NENT]) && nfree == 0
    requires r.Remap? ==> Present(Entry(mem, d, v + done))
    ensures Ranged(mem0, mem, d, v, done, f, perm) && Grows(mem0, owner0, mem, owner, d, f, UserCount(v, n), {})
    ensures TakesFrom(owner, first, d, v, n, f, done)
    ensures nfree + |Slots(mem[d])| == nfree0 + |Slots(mem0[d])|
    ensures r.Remap? ==> Present(Entry(mem0, d, v + done))
    ensures var all := Slots(mem0[d]) + RangeSlots(v, n);
      && (r.Mapped? ==> Slots(mem[d]) == all)
      && (r.NoMemory? ==> Slots(mem[d]) < all)
      && (!r.Remap? ==> (r.Mapped? <==> |all| - |Slots(mem0[d])| <= nfree0))
  {
    var all := Slots(mem0[d]) + RangeSlots(v, n);
    if r.NoMemory? {
      SlotMissing(mem[d], Slots(mem0[d]), v, done, n);
    }
    if !r.Remap? {
      SlotsGrow(Slots(mem0[d]), Slots(mem[d]), all);
    }
  }

  /** Where the entry is: in a table of d, which no one else has. */
  lemma EntryTable(mem: seq<Page>, owner: seq<Owner>, dirs: set<nat>, d: nat, v: nat)
    requires Spaces(mem, owner, dirs) && d in dirs && v < VPAGES && Present(mem[d][v / NENT])
    ensures Frame(mem[d][v / NENT]) < |mem| && owner[Frame(mem[d][v / NENT])] == Table(d, v / NENT)
    ensures v < USER && !Present(Entry(mem, d, v)) ==> forall p :: 0 <= p < |mem| ==> owner[p] != User(d, v)
  {
    assert TableOk(mem, owner, d, v / NENT);
    if v < USER && !Present(Entry(mem, d, v)) {
      forall p | 0 <= p < |mem|
        ensures owner[p] != User(d, v)
      {
        assert PageOk(mem, owner, dirs, p);
      }
    }
  }

  lemma KernelPageIsNoUsers(mem: seq<Page>, owner: seq<Owner>, dirs: set<nat>, d: nat, v: nat)
    requires Spaces(mem, owner, dirs) && USER <= v
    ensures forall p :: 0 <= p < |mem| ==> owner[p] != User(d, v)
  {
    hide Entry, Present, Frame;
    forall p | 0 <= p < |mem|
      ensures owner[p] != User(d, v)
    {
      assert PageOk(mem, owner, dirs, p);
    }
  }

  /** One table of d changes, and one page goes to d. */
  lemma MapGrows(mem: seq<Page>, owner: seq<Owner>, t: nat, page: Page, d: nat, v: nat, frame: nat)
    requires |owner| == |mem| && t < |mem| && owner[t] == Table(d, v / NENT)
    requires v < USER ==> frame < |owner| && owner[frame].Other?
    ensures var owner' := if v < USER then owner[frame := User(d, v)] else owner;
      Grows(mem, owner, mem[t := page], owner', d, frame, UserCount(v, 1), {})
  {
    var mem', owner' := mem[t := page], if v < USER then owner[frame := User(d, v)] else owner;
    forall p | 0 <= p < |mem|
      ensures GrowsAt(mem, owner, mem', owner', d, frame, UserCount(v, 1), {}, p)
    {
    }
  }

  /** A page that is anyone's stays so while d grows. */
  lemma OtherStays(mem: seq<Page>, owner: seq<Owner>, mem': seq<Page>, owner': seq<Owner>, d: nat, p: nat)
    requires Grows(mem, owner, mem', owner', d, 0, 0, {}) && p < |owner| && owner[p].Other?
    ensures p < |owner'| && owner'[p].Other?
  {
    assert GrowsAt(mem, owner, mem', owner', d, 0, 0, {}, p);
  }

  /** *pte = pa | perm | PTE_P */
  lemma MapOne(mem: seq<Page>, owner: seq<Owner>, dirs: set<nat>, freelist: nat, free: seq<nat>, first: nat,
               d: nat, v: nat, frame: nat, perm: nat)
    requires Spaces(mem, owner, dirs) && FreeOk(mem, owner, freelist, free, first) && d in dirs && v < VPAGES
    requires perm < 4096
    requires Present(mem[d][v / NENT]) && !Present(Entry(mem, d, v))
    requires v < USER ==> frame < |owner| && owner[frame].Other?
    ensures Frame(mem[d][v / NENT]) < |mem|
    ensures var mem' := SetEntry(mem, d, v, Pack(frame, perm));
      var owner' := if v < USER then owner[frame := User(d, v)] else owner;
      && Spaces(mem', owner', dirs) && FreeOk(mem', owner', freelist, free, first)
      && (forall e, u :: e in dirs && 0 <= u < VPAGES ==>
            Entry(mem', e, u) == if e == d && u == v then Pack(frame, perm) else Entry(mem, e, u))
      && Grows(mem, owner, mem', owner', d, frame, UserCount(v, 1), {})
  {
    hide Spaces, FreeOk, Grows, Entry, Frame, Pack, Present;
    EntryTable(mem, owner, dirs, d, v);
    if USER <= v { KernelPageIsNoUsers(mem, owner, dirs, d, v); }
    SpacesSized(mem, owner, dirs, d);
    var t, w := Frame(mem[d][v / NENT]), Pack(frame, perm);
    var mem', owner' := SetEntry(mem, d, v, w), if v < USER then owner[frame := User(d, v)] else owner;
    PackExact(frame, perm);
    SetKeepsSpaces(mem, owner, owner', dirs, d, v, w);
    assert mem' == mem[t := mem'[t]];
    WriteKeepsFree(mem, owner, owner', freelist, free, first, t, mem'[t]);
    forall e, u | e in dirs && 0 <= u < VPAGES
      ensures Entry(mem', e, u) == if e == d && u == v then w else Entry(mem, e, u)
    {
      EntryAfterSet(mem, owner, dirs, d, v, w, e, u);
    }
    MapGrows(mem, owner, t, mem'[t], d, v, frame);
  }

  lemma SpacesSized(mem: seq<Page>, owner: seq<Owner>, dirs: set<nat>, d: nat)
    requires Spaces(mem, owner, dirs) && d in dirs
    ensures Sized(mem) && |owner| == |mem| && d < |mem|
    ensures forall e :: e in dirs ==> e < |mem|
  {
  }

  // ---------------------------------------------------------------- unmapping

  /** Giving up d's user pages in [lo, hi): they go to the free list; all else keeps its owner, and its contents unless
      it is a table of d. */
  ghost predicate ShrinksAt(mem: seq<Page>, owner: seq<Owner>, mem': seq<Page>, owner': seq<Owner>, d: nat, lo: nat,
                            hi: nat, p: nat)
    requires |mem| == |owner| == |mem'| == |owner'| && p < |mem|
  {
    if owner[p].User? && owner[p].d == d && lo <= owner[p].v < hi then owner'[p].Free?
    else owner'[p] == owner[p] && (mem'[p] == mem[p] || (owner[p].Table? && owner[p].d == d))
  }

  ghost predicate Shrinks(mem: seq<Page>, owner: seq<Owner>, mem': seq<Page>, owner': seq<Owner>, d: nat, lo: nat,
                          hi: nat) {
    && |mem| == |owner| == |mem'| == |owner'|
    && forall p :: 0 <= p < |mem| ==> ShrinksAt(mem, owner, mem', owner', d, lo, hi, p)
  }

  /** The entries of d: those in [lo, hi) are no longer present, the others as before. */
  ghost predicate Unmapped(mem: seq<Page>, mem': seq<Page>, d: nat, lo: nat, hi: nat)
    requires Sized(mem) && Sized(mem') && d < |mem| == |mem'|
  {
    forall u :: 0 <= u < VPAGES ==> UnmappedAt(mem, mem', d, lo, hi, u)
  }

  ghost predicate UnmappedAt(mem: seq<Page>, mem': seq<Page>, d: nat, lo: nat, hi: nat, u: nat)
    requires Sized(mem) && Sized(mem') && d < |mem| == |mem'| && u < VPAGES
  {
    if lo <= u < hi then !Present(Entry(mem', d, u)) else Entry(mem', d, u) == Entry(mem, d, u)
  }

  /** Where deallocuvm starts to look at entries: a missing table makes it skip 4 MB from where it stands, so it
      lands past the start of the next table unless it stands on a 4 MB boundary. */
  function From(dir: Page, v: nat, hi: nat): (r: nat)
    requires |dir| == NENT && hi <= USER
    ensures v <= r
    decreases hi - v
  {
    if v >= hi || v % NENT == 0 || Present(dir[v / NENT]) then v else From(dir, v + NENT, hi)
  }

  /** PGROUNDUP, in pages */
  function Up(sz: nat): nat {
    (sz + 4095) / 4096
  }

  lemma UnmapNothing(mem: seq<Page>, owner: seq<Owner>, d: nat, lo: nat, hi: nat)
    requires Sized(mem) && d < |mem| == |owner| && hi <= lo
    ensures Unmapped(mem, mem, d, lo, hi) && Shrinks(mem, owner, mem, owner, d, lo, hi)
  {
  }

  lemma UnmapNext(mem0: seq<Page>, owner0: seq<Owner>, mem: seq<Page>, owner: seq<Owner>, mem': seq<Page>,
                  owner': seq<Owner>, d: nat, lo: nat, v: nat)
    requires Sized(mem0) && Sized(mem) && Sized(mem') && d < |mem0| == |mem| == |mem'| && lo <= v < USER
    requires Unmapped(mem0, mem, d, lo, v) && Shrinks(mem0, owner0, mem, owner, d, lo, v)
    requires forall u :: 0 <= u < VPAGES ==> Entry(mem', d, u) == if u == v then 0 else Entry(mem, d, u)
    requires Shrinks(mem, owner, mem', owner', d, v, v + 1)
    ensures Unmapped(mem0, mem', d, lo, v + 1) && Shrinks(mem0, owner0, mem', owner', d, lo, v + 1)
  {
    hide Entry;
    var hi := v + 1;
    forall u | 0 <= u < VPAGES
      ensures UnmappedAt(mem0, mem', d, lo, hi, u)
    {
      assert UnmappedAt(mem0, mem, d, lo, v, u);
    }
    forall p | 0 <= p < |mem0|
      ensures ShrinksAt(mem0, owner0, mem', owner', d, lo, hi, p)
    {
      assert ShrinksAt(mem0, owner0, mem, owner, d, lo, v, p) && ShrinksAt(mem, owner, mem', owner', d, v, hi, p);
    }
  }

  /** Entries [v, v') of d are not present, so there is nothing to give up in between. */
  lemma UnmapGap(mem0: seq<Page>, owner0: seq<Owner>, mem: seq<Page>, owner: seq<Owner>, dirs: set<nat>,
                 d: nat, lo: nat, v: nat, v': nat)
    requires Sized(mem0) && Spaces(mem, owner, dirs) && d in dirs && d < |mem0| == |mem| && lo <= v <= v' <= USER
    requires Unmapped(mem0, mem, d, lo, v) && Shrinks(mem0, owner0, mem, owner, d, lo, v)
    requires forall u :: v <= u < v' ==> !Present(Entry(mem, d, u))
    ensures Unmapped(mem0, mem, d, lo, v') && Shrinks(mem0, owner0, mem, owner, d, lo, v')
  {
    hide Entry;
    forall u | 0 <= u < VPAGES
      ensures UnmappedAt(mem0, mem, d, lo, v', u)
    {
      assert UnmappedAt(mem0, mem, d, lo, v, u);
    }
    forall p | 0 <= p < |mem0|
      ensures ShrinksAt(mem0, owner0, mem, owner, d, lo, v', p)
    {
      assert ShrinksAt(mem0, owner0, mem, owner, d, lo, v, p) && PageOk(mem, owner, dirs, p);
    }
  }

  lemma UnmapAbsent(mem0: seq<Page>, owner0: seq<Owner>, mem: seq<Page>, owner: seq<Owner>, dirs: set<nat>, d: nat,
                    lo: nat, v: nat)
    requires Sized(mem0) && Spaces(mem, owner, dirs) && d in dirs && d < |mem0| == |mem| && lo <= v < USER
    requires Unmapped(mem0, mem, d, lo, v) && Shrinks(mem0, owner0, mem, owner, d, lo, v) && !Present(Entry(mem, d, v))
    ensures Unmapped(mem0, mem, d, lo, v + 1) && Shrinks(mem0, owner0, mem, owner, d, lo, v + 1)
  {
    UnmapGap(mem0, owner0, mem, owner, dirs, d, lo, v, v + 1);
  }

  /** From a 4 MB boundary, a missing table is exactly the 1024 entries skipped. */
  lemma SkipTable(mem0: seq<Page>, owner0: seq<Owner>, mem: seq<Page>, owner: seq<Owner>, dirs: set<nat>,
                  d: nat, lo: nat, hi: nat, v: nat)
    requires Sized(mem0) && Spaces(mem, owner, dirs) && d in dirs && d < |mem0| == |mem| && lo <= v < hi <= USER
    requires Unmapped(mem0, mem, d, lo, v) && Shrinks(mem0, owner0, mem, owner, d, lo, v)
    requires v % NENT == 0 && !Present(mem[d][v / NENT])
    ensures var top := if v + NENT < hi then v + NENT else hi;
      Unmapped(mem0, mem, d, lo, top) && Shrinks(mem0, owner0, mem, owner, d, lo, top)
  {
    var top := if v + NENT < hi then v + NENT else hi;
    forall u | v <= u < top
      ensures !Present(Entry(mem, d, u))
    {
      assert u / NENT == v / NENT;
    }
    UnmapGap(mem0, owner0, mem, owner, dirs, d, lo, v, top);
  }

  lemma EntryIs(mem: seq<Page>, d: nat, v: nat, t: nat)
    requires Sized(mem) && d < |mem| && v < VPAGES && Present(mem[d][v / NENT]) && Frame(mem[d][v / NENT]) == t < |mem|
    ensures Entry(mem, d, v) == mem[t][v % NENT]
  {
  }

  /** deallocuvm's loop at page v: before lo nothing has been done and every table on the way is missing; from lo on,
      the pages in [lo, v) are given up, and v stands where a missing table can be skipped. */
  ghost predicate Sweeping(mem0: seq<Page>, owner0: seq<Owner>, mem: seq<Page>, owner: seq<Owner>, d: nat, lo: nat,
                           hi: nat, v: nat) {
    && Sized(mem0) && Sized(mem) && d < |mem0| == |mem| == |owner| == |owner0| && mem[d] == mem0[d] && hi <= USER
    && (v < lo ==> mem == mem0 && owner == owner0 && From(mem[d], v, hi) == lo)
    && (v >= lo ==> v >= hi || v % NENT == 0 || Present(mem[d][v / NENT]))
    && (v >= lo ==>
          var top := if v < hi then v else hi;
          Unmapped(mem0, mem, d, lo, top) && Shrinks(mem0, owner0, mem, owner, d, lo, top))
  }

  lemma SweepStarts(mem: seq<Page>, owner: seq<Owner>, d: nat, lo: nat, hi: nat, v: nat)
    requires Sized(mem) && d < |mem| == |owner| && hi <= USER && lo == From(mem[d], v, hi)
    ensures Sweeping(mem, owner, mem, owner, d, lo, hi, v)
  {
    UnmapNothing(mem, owner, d, lo, if v < hi then v else hi);
  }

  lemma SweepEnds(mem0: seq<Page>, owner0: seq<Owner>, mem: seq<Page>, owner: seq<Owner>, d: nat, lo: nat, hi: nat,
                  v: nat)
    requires Sweeping(mem0, owner0, mem, owner, d, lo, hi, v) && v >= hi
    ensures Unmapped(mem0, mem, d, lo, hi) && Shrinks(mem0, owner0, mem, owner, d, lo, hi)
  {
    if v < lo {
      UnmapNothing(mem, owner, d, lo, hi);
    }
  }

  lemma SweepSkips(mem0: seq<Page>, owner0: seq<Owner>, mem: seq<Page>, owner: seq<Owner>, dirs: set<nat>,
                   d: nat, lo: nat, hi: nat, v: nat)
    requires Sweeping(mem0, owner0, mem, owner, d, lo, hi, v) && v < hi && Spaces(mem, owner, dirs) && d in dirs
    requires !Present(mem[d][v / NENT])
    ensures Sweeping(mem0, owner0, mem, owner, d, lo, hi, v + NENT)
  {
    hide Unmapped, Shrinks;
    if v >= lo {
      SkipTable(mem0, owner0, mem, owner, dirs, d, lo, hi, v);
    } else if v + NENT == lo {
      UnmapNothing(mem, owner, d, lo, if lo < hi then lo else hi);
    }
  }

  /** The next page has the same table or starts a new one. */
  lemma NextPlace(v: nat)
    ensures (v + 1) % NENT == 0 || (v + 1) / NENT == v / NENT
  {
  }

  lemma SweepPasses(mem0: seq<Page>, owner0: seq<Owner>, mem: seq<Page>, owner: seq<Owner>, dirs: set<nat>,
                    d: nat, lo: nat, hi: nat, v: nat)
    requires Sweeping(mem0, owner0, mem, owner, d, lo, hi, v) && v < hi && Spaces(mem, owner, dirs) && d in dirs
    requires Present(mem[d][v / NENT]) && !Present(Entry(mem, d, v))
    ensures Sweeping(mem0, owner0, mem, owner, d, lo, hi, v + 1)
  {
    hide Unmapped, Shrinks;
    NextPlace(v);
    assert v >= lo;
    UnmapAbsent(mem0, owner0, mem, owner, dirs, d, lo, v);
  }

  lemma SweepFrees(mem0: seq<Page>, owner0: seq<Owner>, mem: seq<Page>, owner: seq<Owner>, mem': seq<Page>,
                   owner': seq<Owner>, dirs: set<nat>, d: nat, lo: nat, hi: nat, v: nat)
    requires Sweeping(mem0, owner0, mem, owner, d, lo, hi, v) && v < hi && Spaces(mem, owner, dirs) && d in dirs
    requires Present(mem[d][v / NENT]) && Sized(mem') && |mem'| == |mem|
    requires forall u :: 0 <= u < VPAGES ==> Entry(mem', d, u) == if u == v then 0 else Entry(mem, d, u)
    requires Shrinks(mem, owner, mem', owner', d, v, v + 1)
    ensures Sweeping(mem0, owner0, mem', owner', d, lo, hi, v + 1)
  {
    assert ShrinksAt(mem, owner, mem', owner', d, v, v + 1, d);
    hide Unmapped, Shrinks, Entry;
    NextPlace(v);
    assert v >= lo;
    UnmapNext(mem0, owner0, mem, owner, mem', owner', d, lo, v);
  }

  /** The tables passed over on the way to where deallocuvm starts are missing. */
  lemma {:induction false} SkippedTables(mem: seq<Page>, d: nat, v: nat, hi: nat, u: nat)
    requires Sized(mem) && d < |mem| && hi <= USER && v <= USER
    requires v / NENT * NENT <= u < From(mem[d], v, hi) / NENT * NENT
    ensures u < VPAGES && !Present(Entry(mem, d, u))
    decreases hi - v
  {
    if !(v >= hi || v % NENT == 0 || Present(mem[d][v / NENT])) && u / NENT != v / NENT {
      FromBelow(mem[d], v + NENT, hi);
      SkippedTables(mem, d, v + NENT, hi, u);
    }
  }

  lemma {:induction false} FromBelow(dir: Page, v: nat, hi: nat)
    requires |dir| == NENT && hi <= USER
    ensures v <= hi + NENT ==> From(dir, v, hi) <= hi + NENT
    decreases hi - v
  {
    if v < hi {
      FromBelow(dir, v + NENT, hi);
    }
  }

  /** No page from v up to hi stays mapped exactly when the start v has a table or a 4 MB boundary, or the first table
      found after it maps nothing below where deallocuvm comes upon it. */
  ghost predicate SweepsAll(mem: seq<Page>, d: nat, v: nat, hi: nat)
    requires Sized(mem) && d < |mem| && v <= USER && hi <= USER
  {
    var lo := From(mem[d], v, hi);
    || v % NENT == 0 || Present(mem[d][v / NENT])
    || forall u :: lo / NENT * NENT <= u < lo && u < hi ==> !Present(Entry(mem, d, u))
  }

  lemma SweepComplete(mem: seq<Page>, mem': seq<Page>, d: nat, v: nat, lo: nat, hi: nat)
    requires Sized(mem) && Sized(mem') && d < |mem| == |mem'| && v <= USER && hi <= USER && lo == From(mem[d], v, hi)
    requires Unmapped(mem, mem', d, lo, hi)
    ensures (forall u :: v <= u < hi ==> !Present(Entry(mem', d, u))) <==> SweepsAll(mem, d, v, hi)
  {
    forall u | v <= u < hi
      ensures Present(Entry(mem', d, u)) <==> u < lo && Present(Entry(mem, d, u))
    {
      assert UnmappedAt(mem, mem', d, lo, hi, u);
    }
    forall u | v / NENT * NENT <= u < lo / NENT * NENT
      ensures u < VPAGES && !Present(Entry(mem, d, u))
    {
      SkippedTables(mem, d, v, hi, u);
    }
  }

  /** Address spaces that exec, fork and growproc make are mapped from page 0 up without a gap: there nothing is
      missed. */
  lemma DenseSweeps(mem: seq<Page>, d: nat, v: nat, hi: nat)
    requires Sized(mem) && d < |mem| && v <= USER && hi <= USER
    requires forall w, u :: 0 <= w < u < USER && Present(Entry(mem, d, u)) ==> Present(Entry(mem, d, w))
    ensures SweepsAll(mem, d, v, hi)
  {
    var lo := From(mem[d], v, hi);
    if v % NENT != 0 && !Present(mem[d][v / NENT]) {
      forall u | lo / NENT * NENT <= u < lo && u < hi
        ensures !Present(Entry(mem, d, u))
      {
        if v < u {
          assert !Present(Entry(mem, d, v));
        } else {
          assert u / NENT == v / NENT;
        }
      }
    }
  }

  /** A present user page of d is given back and its entry cleared. */
  lemma FreeUserPage(mem: seq<Page>, owner: seq<Owner>, dirs: set<nat>, d: nat, v: nat, t: nat, p: nat, next: nat,
                     n: nat)
    requires Spaces(mem, owner, dirs) && d in dirs && v < USER && Present(mem[d][v / NENT])
    requires t == Frame(mem[d][v / NENT])
    requires Present(Entry(mem, d, v)) && p == Frame(Entry(mem, d, v))
    ensures t < |mem| && p < |mem| && owner[p] == User(d, v) && owner[t] == Table(d, v / NENT)
    ensures Sized(mem[p := FreedPage(next)])
    ensures var mem' := SetWord(mem[p := FreedPage(next)], t, v % NENT, 0);
      && Spaces(mem', owner[p := Free(n)], dirs)
      && (forall u :: 0 <= u < VPAGES ==> Entry(mem', d, u) == if u == v then 0 else Entry(mem, d, u))
  {
    assert TableOk(mem, owner, d, v / NENT) && UserOk(mem, owner, d, v);
    var mem1, owner1 := SetEntry(mem, d, v, 0), owner[p := Other];
    forall q | 0 <= q < |owner|
      ensures owner1[q] == if owner[q] == User(d, v) then Other else owner[q]
    {
      assert PageOk(mem, owner, dirs, q);
    }
    SetKeepsSpaces(mem, owner, owner1, dirs, d, v, 0);
    WriteKeepsSpaces(mem1, owner1, dirs, p, FreedPage(next));
    var mem2 := mem1[p := FreedPage(next)];
    HandOver(mem2, owner1, dirs, p, Free(n));
    assert owner1[p := Free(n)] == owner[p := Free(n)];
    assert SetWord(mem[p := FreedPage(next)], t, v % NENT, 0) == mem2;
    forall u | 0 <= u < VPAGES
      ensures Entry(mem2, d, u) == if u == v then 0 else Entry(mem, d, u)
    {
      EntryAfterSet(mem, owner, dirs, d, v, 0, d, u);
      EntryAfterWrite(mem1, owner1, dirs, p, FreedPage(next), d, u);
    }
  }

  /** Address space d given up: all its pages are free, and nothing else changed. */
  ghost predicate Released(mem: seq<Page>, owner: seq<Owner>, mem': seq<Page>, owner': seq<Owner>, d: nat) {
    && |mem| == |owner| == |mem'| == |owner'|
    && forall p :: 0 <= p < |mem| ==> ReleasedAt(mem, owner, mem', owner', d, p)
  }

  ghost predicate ReleasedAt(mem: seq<Page>, owner: seq<Owner>, mem': seq<Page>, owner': seq<Owner>, d: nat, p: nat)
    requires |mem| == |owner| == |mem'| == |owner'| && p < |mem|
  {
    if Belongs(owner[p], p, d) then owner'[p].Free? else owner'[p] == owner[p] && mem'[p] == mem[p]
  }

  /** The tables of d below entry i are free; the rest of d is orphaned; nothing else changed. */
  ghost predicate TablesFreed(mem: seq<Page>, was: seq<Owner>, mem': seq<Page>, owner': seq<Owner>, d: nat, i: nat) {
    && |mem| == |was| == |mem'| == |owner'|
    && forall p :: 0 <= p < |mem| ==> TablesFreedAt(mem, was, mem', owner', d, i, p)
  }

  ghost predicate TablesFreedAt(mem: seq<Page>, was: seq<Owner>, mem': seq<Page>, owner': seq<Owner>, d: nat, i: nat,
                                p: nat)
    requires |mem| == |was| == |mem'| == |owner'| && p < |mem|
  {
    if was[p].Table? && was[p].d == d && was[p].x < i then owner'[p].Free?
    else mem'[p] == mem[p] && owner'[p] == if p == d || (was[p].Table? && was[p].d == d) then Other else was[p]
  }

  /** The table of entry i is the one page whose turn it is. */
  lemma TableTurn(mem: seq<Page>, was: seq<Owner>, mem': seq<Page>, owner': seq<Owner>, dirs: set<nat>, d: nat, i: nat)
    requires TablesFreed(mem, was, mem', owner', d, i) && Spaces(mem, was, dirs) && d in dirs && i < NENT
    ensures Present(mem[d][i]) ==>
      var t := Frame(mem[d][i]); t < |mem| && was[t] == Table(d, i) && owner'[t].Other? && t != d
    ensures forall p :: 0 <= p < |mem| && was[p] == Table(d, i) ==> Present(mem[d][i]) && p == Frame(mem[d][i])
  {
    hide Frame, Present;
    assert TableOk(mem, was, d, i);
    if Present(mem[d][i]) {
      assert TablesFreedAt(mem, was, mem', owner', d, i, Frame(mem[d][i]));
    }
    forall p | 0 <= p < |mem| && was[p] == Table(d, i)
      ensures Present(mem[d][i]) && p == Frame(mem[d][i])
    {
      assert PageOk(mem, was, dirs, p);
    }
  }

  lemma FreesNext(mem: seq<Page>, was: seq<Owner>, mem': seq<Page>, owner': seq<Owner>, mem'': seq<Page>,
                  owner'': seq<Owner>, d: nat, i: nat, t: nat, n: nat)
    requires TablesFreed(mem, was, mem', owner', d, i) && |mem''| == |mem'| == |owner''|
    requires forall p :: 0 <= p < |mem| && was[p] == Table(d, i) ==> p == t
    requires t < |mem| ==> was[t] == Table(d, i) && owner'' == owner'[t := Free(n)]
    requires t >= |mem| ==> owner'' == owner'
    requires forall q :: 0 <= q < |mem'| && q != t ==> mem''[q] == mem'[q]
    ensures TablesFreed(mem, was, mem'', owner'', d, i + 1)
  {
    var j := i + 1;
    forall p | 0 <= p < |mem|
      ensures TablesFreedAt(mem, was, mem'', owner'', d, j, p)
    {
      assert TablesFreedAt(mem, was, mem', owner', d, i, p);
    }
  }

  /** A sweep from page 0 leaves no user page: every missing table is met on a 4 MB boundary. */
  lemma AllUnmapped(mem: seq<Page>, mem': seq<Page>, d: nat)
    requires Sized(mem) && Sized(mem') && d < |mem| == |mem'|
    requires Unmapped(mem, mem', d, From(mem[d], Up(0), Up(KERNBASE)), Up(KERNBASE))
    ensures forall v :: 0 <= v < USER ==> !Present(Entry(mem', d, v))
  {
    hide Entry;
    forall v | 0 <= v < USER
      ensures !Present(Entry(mem', d, v))
    {
      assert UnmappedAt(mem, mem', d, 0, USER, v);
    }
  }

  lemma ReleasedAll(mem0: seq<Page>, owner0: seq<Owner>, dirs: set<nat>, mem1: seq<Page>, owner1: seq<Owner>,
                    mem2: seq<Page>, owner2: seq<Owner>, mem3: seq<Page>, d: nat, n: nat)
    requires Spaces(mem0, owner0, dirs) && d in dirs && Shrinks(mem0, owner0, mem1, owner1, d, 0, USER)
    requires TablesFreed(mem1, owner1, mem2, owner2, d, NENT) && |mem3| == |mem2|
    requires forall q :: 0 <= q < |mem2| && q != d ==> mem3[q] == mem2[q]
    ensures Released(mem0, owner0, mem3, owner2[d := Free(n)], d)
  {
    var owner3 := owner2[d := Free(n)];
    hide Entry;
    forall p | 0 <= p < |mem0|
      ensures ReleasedAt(mem0, owner0, mem3, owner3, d, p)
    {
      assert PageOk(mem0, owner0, dirs, p) && ShrinksAt(mem0, owner0, mem1, owner1, d, 0, USER, p);
      assert TablesFreedAt(mem1, owner1, mem2, owner2, d, NENT, p);
    }
  }

  // ---------------------------------------------------------------- the kernel's half

  const KERNBASE: nat := 0x8000_0000
  const EXTMEM: nat := 0x10_0000
  const PHYSTOP: nat := 0xE00_0000
  const DEVSPACE: nat := 0xFE00_0000

  /** An entry of kmap. */
  datatype Region = Region(virt: nat, start: nat, end: nat, perm: nat)

  /** phys_end - phys_start, as a uint */
  function Bytes(k: Region): nat {
    (k.end as int - k.start) % UINT
  }

  predicate RegionOk(k: Region) {
    0 < Bytes(k) && k.virt + Bytes(k) <= UINT && KERNBASE <= k.virt && k.start % 4096 == 0 && k.perm < 4096
  }

  /** Regions of the kernel's half, in order, that share no page. */
  ghost predicate GoodKmap(kmap: seq<Region>) {
    && (forall i :: 0 <= i < |kmap| ==> RegionOk(kmap[i]))
    && (forall i :: 0 < i < |kmap| ==> (kmap[i - 1].virt + Bytes(kmap[i - 1]) - 1) / 4096 < kmap[i].virt / 4096)
  }

  lemma RegionIsOk(kmap: seq<Region>, i: nat)
    requires GoodKmap(kmap) && i < |kmap|
    ensures RegionOk(kmap[i])
  {
  }

  /** The table in the source, for a kernel whose data starts on the given page boundary. */
  function Kmap(data: nat): seq<Region>
    requires KERNBASE <= data
  {
    [Region(KERNBASE, 0, EXTMEM, PTE_W),
     Region(KERNBASE + EXTMEM, EXTMEM, data - KERNBASE, 0),
     Region(data, data - KERNBASE, PHYSTOP, PTE_W),
     Region(DEVSPACE, DEVSPACE, 0, PTE_W)]
  }

  lemma KmapBytes(data: nat)
    requires data % 4096 == 0 && KERNBASE + EXTMEM < data < KERNBASE + PHYSTOP
    ensures var k := Kmap(data);
      && Bytes(k[0]) == EXTMEM && Bytes(k[1]) == data - KERNBASE - EXTMEM
      && Bytes(k[2]) == PHYSTOP - (data - KERNBASE) && Bytes(k[3]) == UINT - DEVSPACE
      && forall i :: 0 <= i < 4 ==> RegionOk(k[i])
  {
  }

  lemma KmapGood(data: nat)
    requires data % 4096 == 0 && KERNBASE + EXTMEM < data < KERNBASE + PHYSTOP
    ensures GoodKmap(Kmap(data)) && KERNBASE + PHYSTOP <= DEVSPACE
  {
    hide Bytes;
    KmapBytes(data);
    assert (data - 1) / 4096 < data / 4096;
  }

  /** What the first n regions map virtual page u to. */
  function KernelEntry(kmap: seq<Region>, n: nat, u: nat): (w: nat)
    requires n <= |kmap|
  {
    if n == 0 then 0
    else
      var k := kmap[n - 1];
      var v := k.virt / 4096;
      if 0 < Bytes(k) && v <= u < v + PagesOf(k.virt, Bytes(k)) then Pack(k.start / 4096 + u - v, k.perm)
      else KernelEntry(kmap, n - 1, u)
  }

  /** The pages of a region that starts and ends on page boundaries. */
  lemma RegionPages(k: Region, u: nat)
    requires 0 < Bytes(k) && k.virt % 4096 == 0 && Bytes(k) % 4096 == 0
    ensures k.virt / 4096 <= u < k.virt / 4096 + PagesOf(k.virt, Bytes(k)) <==> k.virt <= 4096 * u < k.virt + Bytes(k)
  {
  }

  /** A page of the region, at its offset from the start; a page outside it is as before. */
  lemma KernelStep(kmap: seq<Region>, n: nat, u: nat)
    requires n < |kmap| && RegionOk(kmap[n]) && kmap[n].perm % 2 == 0
    requires kmap[n].virt % 4096 == 0 && Bytes(kmap[n]) % 4096 == 0
    ensures var (k, w) := (kmap[n], KernelEntry(kmap, n + 1, u));
      if k.virt <= 4096 * u < k.virt + Bytes(k) then
        Present(w) && 4096 * Frame(w) == k.start + 4096 * u - k.virt && Flags(w) == k.perm + PTE_P
      else w == KernelEntry(kmap, n, u)
  {
    RegionPages(kmap[n], u);
  }

  /** What setupkvm maps: physical memory from KERNBASE up and the devices at their own addresses, nothing else; the
      kernel's text cannot be written, all the rest can, and none of it is the user's. */
  lemma KernelMap(data: nat, u: nat)
    requires data % 4096 == 0 && KERNBASE + EXTMEM < data < KERNBASE + PHYSTOP && u < VPAGES
    ensures var (w, a) := (KernelEntry(Kmap(data), 4, u), 4096 * u);
      && (Present(w) <==> KERNBASE <= a < KERNBASE + PHYSTOP || DEVSPACE <= a)
      && (Present(w) ==>
            && 4096 * Frame(w) == (if a < DEVSPACE then a - KERNBASE else a)
            && Flags(w) == if KERNBASE + EXTMEM <= a < data then PTE_P else PTE_P + PTE_W)
  {
    hide Bytes, KernelEntry, Present, Frame, Flags, GoodKmap;
    var k := Kmap(data);
    KmapBytes(data);
    KernelStep(k, 0, u);
    KernelStep(k, 1, u);
    KernelStep(k, 2, u);
    KernelStep(k, 3, u);
    NoEntry(k, u);
  }

  lemma NoEntry(kmap: seq<Region>, u: nat)
    ensures !Present(KernelEntry(kmap, 0, u))
  {
  }

  /** A page at or past the next region is in none of those before it, nor is a user page in any. */
  lemma {:induction false} NotYetMapped(kmap: seq<Region>, n: nat, u: nat)
    requires GoodKmap(kmap) && n <= |kmap| && (u < USER || (n < |kmap| && kmap[n].virt / 4096 <= u))
    ensures KernelEntry(kmap, n, u) == 0
  {
    if n > 0 {
      assert RegionOk(kmap[n - 1]);
      NotYetMapped(kmap, n - 1, u);
    }
  }

  /** The directory entries that the first n regions fall under. */
  ghost function KmapSlots(kmap: seq<Region>, n: nat): (r: set<nat>)
    requires n <= |kmap|
  {
    if n == 0 then {}
    else
      var k := kmap[n - 1];
      KmapSlots(kmap, n - 1) + if Bytes(k) == 0 then {} else RangeSlots(k.virt / 4096, PagesOf(k.virt, Bytes(k)))
  }

  /** The pages an address space has before any user page: the directory and the kernel's page tables. */
  ghost function KernelPages(kmap: seq<Region>): nat {
    1 + |KmapSlots(kmap, |kmap|)|
  }

  lemma {:induction false} KmapSlotsGrow(kmap: seq<Region>, i: nat, n: nat)
    requires i <= n <= |kmap|
    ensures KmapSlots(kmap, i) <= KmapSlots(kmap, n)
  {
    if i < n {
      KmapSlotsGrow(kmap, i, n - 1);
    }
  }

  /** The kernel's tables are in the upper half of the directory, the user's in the lower. */
  lemma {:induction false} KmapSlotsHigh(kmap: seq<Region>, n: nat, x: nat)
    requires GoodKmap(kmap) && n <= |kmap| && x in KmapSlots(kmap, n)
    ensures USER / NENT <= x
  {
    var k := kmap[n - 1];
    assert RegionOk(k);
    if x in KmapSlots(kmap, n - 1) {
      KmapSlotsHigh(kmap, n - 1, x);
    }
  }

  /** A directory that lacks one of the tables of the first regions has fewer than all. */
  lemma TablesShort(kmap: seq<Region>, n: nat, have: set<nat>)
    requires n <= |kmap| && have < KmapSlots(kmap, n)
    ensures |have| + 1 < KernelPages(kmap)
  {
    KmapSlotsGrow(kmap, n, |kmap|);
    SlotsFewer(have, KmapSlots(kmap, |kmap|));
  }

  /** setupkvm's loop after i regions. */
  ghost predicate Building(mem0: seq<Page>, owner0: seq<Owner>, nfree0: nat, mem: seq<Page>, owner: seq<Owner>,
                           nfree: nat, d: nat, kmap: seq<Region>, i: nat)
    requires Sized(mem) && d < |mem| && i <= |kmap|
  {
    && Grows(mem0, owner0, mem, owner, d, 0, 0, {})
    && (forall u :: 0 <= u < VPAGES ==> Entry(mem, d, u) == KernelEntry(kmap, i, u))
    && Slots(mem[d]) == KmapSlots(kmap, i) && nfree + |Slots(mem[d])| + 1 == nfree0
  }

  lemma BuildingStarts(mem0: seq<Page>, owner0: seq<Owner>, nfree0: nat, mem: seq<Page>, owner: seq<Owner>, nfree: nat,
                       d: nat, kmap: seq<Region>)
    requires Sized(mem) && d < |mem| && Grows(mem0, owner0, mem, owner, d, 0, 0, {})
    requires forall u :: 0 <= u < VPAGES ==> Entry(mem, d, u) == 0
    requires Slots(mem[d]) == {} && nfree + 1 == nfree0
    ensures Building(mem0, owner0, nfree0, mem, owner, nfree, d, kmap, 0)
  {
  }

  /** The next region: mapped, or short of a table; never mapped before. */
  lemma BuildingNext(mem0: seq<Page>, owner0: seq<Owner>, nfree0: nat, mem: seq<Page>, owner: seq<Owner>, nfree: nat,
                     mem': seq<Page>, owner': seq<Owner>, nfree': nat, d: nat, kmap: seq<Region>, i: nat, r: Status,
                     done: nat)
    requires Sized(mem) && d < |mem| == |mem'| && i < |kmap| && GoodKmap(kmap) && Sized(mem')
    requires Building(mem0, owner0, nfree0, mem, owner, nfree, d, kmap, i)
    requires var k := kmap[i]; var n := PagesOf(k.virt, Bytes(k));
      && k.virt / 4096 + n <= VPAGES && done <= n && (r.Mapped? <==> done == n)
      && Ranged(mem, mem', d, k.virt / 4096, done, k.start / 4096, k.perm)
      && Grows(mem, owner, mem', owner', d, k.start / 4096, 0, {})
      && nfree' + |Slots(mem'[d])| == nfree + |Slots(mem[d])|
      && (r.Mapped? ==> Slots(mem'[d]) == Slots(mem[d]) + RangeSlots(k.virt / 4096, n))
      && (r.NoMemory? ==> Slots(mem'[d]) < Slots(mem[d]) + RangeSlots(k.virt / 4096, n) && nfree' == 0)
      && (r.Remap? ==> k.virt / 4096 + done < VPAGES && Present(Entry(mem, d, k.virt / 4096 + done)))
    ensures !r.Remap? && Grows(mem0, owner0, mem', owner', d, 0, 0, {})
    ensures r.Mapped? ==> Building(mem0, owner0, nfree0, mem', owner', nfree', d, kmap, i + 1)
    ensures r.NoMemory? ==> 0 < nfree0 < KernelPages(kmap)
  {
    hide Grows, Entry, Ranged, Slots, RangeSlots, GoodKmap, KernelEntry;
    var k := kmap[i];
    assert RegionOk(k) by {
      RegionIsOk(kmap, i);
    }
    GrowsWider(mem, owner, mem', owner', d, k.start / 4096, 0, 0, 0);
    GrowsTwice(mem0, owner0, mem, owner, mem', owner', d, 0, 0, {});
    NotYetMapped(kmap, i, k.virt / 4096 + done);
    if r.Mapped? {
      RegionMapped(mem, mem', kmap, i, d);
    }
    if r.NoMemory? {
      TablesShort(kmap, i + 1, Slots(mem'[d]));
    }
  }

  lemma BuildingEnds(mem0: seq<Page>, owner0: seq<Owner>, nfree0: nat, mem: seq<Page>, owner: seq<Owner>, nfree: nat,
                     d: nat, kmap: seq<Region>)
    requires Sized(mem) && d < |mem| && Building(mem0, owner0, nfree0, mem, owner, nfree, d, kmap, |kmap|)
    ensures Grows(mem0, owner0, mem, owner, d, 0, 0, {})
    ensures forall u :: 0 <= u < VPAGES ==> Entry(mem, d, u) == KernelEntry(kmap, |kmap|, u)
    ensures Slots(mem[d]) == KmapSlots(kmap, |kmap|) && nfree + KernelPages(kmap) == nfree0
  {
  }

  // ---------------------------------------------------------------- copying

  /** Page v of c is a copy of the page that entry w maps: same flags, same contents. */
  ghost predicate CopyOf(mem: seq<Page>, w: nat, mem': seq<Page>, c: nat, v: nat)
    requires Sized(mem) && Sized(mem') && c < |mem'| && v < VPAGES
  {
    var w' := Entry(mem', c, v);
    && Present(w) && Present(w') && Flags(w') == Flags(w)
    && Frame(w) < |mem| && Frame(w') < |mem'| && mem'[Frame(w')] == mem[Frame(w)]
  }

  /** Page v of c is a copy of page v of d. */
  ghost predicate CopiedAt(mem: seq<Page>, mem': seq<Page>, d: nat, c: nat, v: nat)
    requires Sized(mem) && Sized(mem') && d < |mem| && c < |mem'| && v < VPAGES
  {
    CopyOf(mem, Entry(mem, d, v), mem', c, v)
  }

  /** Filling a page taken from the free list changes no entry. */
  lemma AroundCopy(mem: seq<Page>, owner: seq<Owner>, mem': seq<Page>, owner': seq<Owner>, dirs: set<nat>, c: nat,
                   m: nat, pa: nat)
    requires Spaces(mem, owner, dirs) && c in dirs && m < |mem| && owner[m].Free? && pa < |mem|
    requires mem' == mem[m := mem[pa]] && owner' == owner[m := Other]
    ensures mem'[c] == mem[c] && forall u :: 0 <= u < VPAGES ==> Entry(mem', c, u) == Entry(mem, c, u)
  {
    forall u | 0 <= u < VPAGES
      ensures Entry(mem', c, u) == Entry(mem, c, u)
    {
      EntryAfterWrite(mem, owner, dirs, m, mem[pa], c, u);
    }
  }

  lemma FlagsKept(w: nat, m: nat)
    requires Present(w)
    ensures Flags(w) < 4096 && WithP(Flags(w)) == Flags(w)
    ensures Present(Pack(m, Flags(w))) && Frame(Pack(m, Flags(w))) == m && Flags(Pack(m, Flags(w))) == Flags(w)
  {
    PackExact(m, Flags(w));
  }

  /** From before the page was taken to after it was mapped, or not: the entries. */
  lemma CopyMapped(mem: seq<Page>, mem1: seq<Page>, mem2: seq<Page>, c: nat, i: nat, w: nat, m: nat, done: nat)
    requires Sized(mem) && Sized(mem1) && c < |mem| && i < USER && Present(w) && Frame(w) < |mem| && m < |mem| == |mem1|
    requires done <= 1
    requires forall u :: 0 <= u < VPAGES ==> Entry(mem1, c, u) == Entry(mem, c, u)
    requires Ranged(mem1, mem2, c, i, done, m, Flags(w)) && mem2[m] == mem[Frame(w)]
    ensures done == 1 ==> CopyOf(mem, w, mem2, c, i)
    ensures forall u :: 0 <= u < VPAGES && (u != i || done == 0) ==> Entry(mem2, c, u) == Entry(mem, c, u)
  {
    FlagsKept(w, m);
    hide Entry, Pack, Present, Frame, Flags;
  }

  /** ... and the owners. */
  lemma CopyGrows(mem: seq<Page>, owner: seq<Owner>, mem1: seq<Page>, owner1: seq<Owner>, mem2: seq<Page>,
                  owner2: seq<Owner>, c: nat, i: nat, m: nat, v: Page, mapped: bool)
    requires |mem| == |owner| && m < |mem| && owner[m].Free? && mem1 == mem[m := v] && owner1 == owner[m := Other]
    requires Grows(mem1, owner1, mem2, owner2, c, m, 1, {}) && owner2[m] == if mapped then User(c, i) else Other
    ensures mem2[m] == v && Grows(mem, owner, mem2, owner2, c, 0, 0, if mapped then {} else {m})
  {
    assert GrowsAt(mem1, owner1, mem2, owner2, c, m, 1, {}, m);
    var lost := if mapped then {} else {m};
    forall p | 0 <= p < |mem|
      ensures GrowsAt(mem, owner, mem2, owner2, c, 0, 0, lost, p)
    {
      assert GrowsAt(mem1, owner1, mem2, owner2, c, m, 1, {}, p);
    }
  }

  /** An address space other than c is read the same after c has grown. */
  lemma ForeignEntry(mem: seq<Page>, owner: seq<Owner>, dirs: set<nat>, mem': seq<Page>, owner': seq<Owner>, c: nat,
                     lost: set<nat>, e: nat, u: nat)
    requires Spaces(mem, owner, dirs) && Grows(mem, owner, mem', owner', c, 0, 0, lost) && Sized(mem')
    requires e in dirs && e != c && u < VPAGES
    ensures Entry(mem', e, u) == Entry(mem, e, u)
    ensures u < USER && Present(Entry(mem, e, u)) ==>
      Frame(Entry(mem, e, u)) < |mem| && mem'[Frame(Entry(mem, e, u))] == mem[Frame(Entry(mem, e, u))]
  {
    assert TableOk(mem, owner, e, u / NENT);
    assert GrowsAt(mem, owner, mem', owner', c, 0, 0, lost, e);
    if Present(mem[e][u / NENT]) {
      assert GrowsAt(mem, owner, mem', owner', c, 0, 0, lost, Frame(mem[e][u / NENT]));
    }
    if u < USER {
      assert UserOk(mem, owner, e, u);
      if Present(Entry(mem, e, u)) {
        assert GrowsAt(mem, owner, mem', owner', c, 0, 0, lost, Frame(Entry(mem, e, u)));
      }
    }
  }

  /** The child c after i pages of d: those are copies, the rest of the user half is empty, the kernel's half is
      setupkvm's; and nothing outside c changed but free pages that went to it. */
  ghost predicate Copying(mem0: seq<Page>, owner0: seq<Owner>, mem: seq<Page>, owner: seq<Owner>, d: nat, c: nat,
                          kmap: seq<Region>, i: nat) {
    && Sized(mem0) && Sized(mem) && d < |mem0| == |mem| && c < |mem| && i <= USER
    && Grows(mem0, owner0, mem, owner, c, 0, 0, {})
    && (forall v :: 0 <= v < i ==> CopiedAt(mem0, mem, d, c, v))
    && (forall v :: i <= v < USER ==> Entry(mem, c, v) == 0)
    && (forall u :: USER <= u < VPAGES ==> Entry(mem, c, u) == KernelEntry(kmap, |kmap|, u))
  }

  lemma CopyStarts(mem0: seq<Page>, owner0: seq<Owner>, mem: seq<Page>, owner: seq<Owner>, d: nat, c: nat,
                   kmap: seq<Region>)
    requires Sized(mem0) && Sized(mem) && d < |mem0| == |mem| && c < |mem| && GoodKmap(kmap)
    requires Grows(mem0, owner0, mem, owner, c, 0, 0, {})
    requires forall u :: 0 <= u < VPAGES ==> Entry(mem, c, u) == KernelEntry(kmap, |kmap|, u)
    ensures Copying(mem0, owner0, mem, owner, d, c, kmap, 0)
  {
    hide Entry;
    forall v | 0 <= v < USER
      ensures Entry(mem, c, v) == 0
    {
      NotYetMapped(kmap, |kmap|, v);
    }
  }

  /** Page i of the parent is still what it was, and page i of the child is free to map. */
  lemma CopyAt(mem0: seq<Page>, owner0: seq<Owner>, dirs0: set<nat>, mem: seq<Page>, owner: seq<Owner>, d: nat, c: nat,
               kmap: seq<Region>, i: nat)
    requires Copying(mem0, owner0, mem, owner, d, c, kmap, i) && Spaces(mem0, owner0, dirs0) && d in dirs0
    requires c !in dirs0 && i < USER
    ensures !Present(Entry(mem, c, i)) && Entry(mem, d, i) == Entry(mem0, d, i) && mem[d] == mem0[d]
    ensures Present(Entry(mem, d, i)) ==>
      Frame(Entry(mem0, d, i)) < |mem0| && mem[Frame(Entry(mem0, d, i))] == mem0[Frame(Entry(mem0, d, i))]
  {
    ForeignEntry(mem0, owner0, dirs0, mem, owner, c, {}, d, i);
    assert GrowsAt(mem0, owner0, mem, owner, c, 0, 0, {}, d);
  }

  lemma CopyNext(mem0: seq<Page>, owner0: seq<Owner>, dirs0: set<nat>, mem: seq<Page>, owner: seq<Owner>,
                 dirs: set<nat>, mem': seq<Page>, owner': seq<Owner>, d: nat, c: nat, kmap: seq<Region>, i: nat)
    requires Copying(mem0, owner0, mem, owner, d, c, kmap, i) && Spaces(mem0, owner0, dirs0) && d in dirs0
    requires c !in dirs0 && i < USER
    requires Spaces(mem, owner, dirs) && c in dirs && Sized(mem') && |mem'| == |mem|
    requires Grows(mem, owner, mem', owner', c, 0, 0, {}) && CopiedAt(mem, mem', d, c, i)
    requires forall u :: 0 <= u < VPAGES && u != i ==> Entry(mem', c, u) == Entry(mem, c, u)
    ensures Copying(mem0, owner0, mem', owner', d, c, kmap, i + 1)
  {
    CopyAt(mem0, owner0, dirs0, mem, owner, d, c, kmap, i);
    GrowsTwice(mem0, owner0, mem, owner, mem', owner', c, 0, 0, {});
    hide Entry, Frame, Present, Flags;
    forall v | 0 <= v < i + 1
      ensures CopiedAt(mem0, mem', d, c, v)
    {
      if v < i {
        assert CopiedAt(mem0, mem, d, c, v) && UserOk(mem, owner, c, v);
        assert GrowsAt(mem, owner, mem', owner', c, 0, 0, {}, Frame(Entry(mem, c, v)));
      }
    }
  }

  lemma CopyGrew(mem0: seq<Page>, owner0: seq<Owner>, mem: seq<Page>, owner: seq<Owner>, mem': seq<Page>,
                 owner': seq<Owner>, d: nat, c: nat, kmap: seq<Region>, i: nat, lost: set<nat>)
    requires Copying(mem0, owner0, mem, owner, d, c, kmap, i) && Grows(mem, owner, mem', owner', c, 0, 0, lost)
    requires Stranded(owner, owner', lost)
    ensures Grows(mem0, owner0, mem', owner', c, 0, 0, lost) && Stranded(owner0, owner', lost)
  {
    GrowsTwice(mem0, owner0, mem, owner, mem', owner', c, 0, 0, lost);
    forall p | p in lost
      ensures owner0[p].Free?
    {
      assert GrowsAt(mem0, owner0, mem, owner, c, 0, 0, {}, p);
    }
  }

  /** How many of the first n user pages of d are present before one is not. */
  ghost function Lead(mem: seq<Page>, d: nat, n: nat): (m: nat)
    requires Sized(mem) && d < |mem| && n <= USER
    ensures m <= n && (forall v :: 0 <= v < m ==> Present(Entry(mem, d, v))) && (m < n ==> !Present(Entry(mem, d, m)))
  {
    if n == 0 then 0
    else
      var m := Lead(mem, d, n - 1);
      if m == n - 1 && Present(Entry(mem, d, m)) then n else m
  }

  /** The tables and pages that i user pages of a new address space take. */
  function Takes(i: nat): nat {
    i + Tables(i)
  }

  /** With over free pages beyond the kernel's, copying m pages runs out between taking a page and mapping it. */
  predicate Loses(over: int, m: nat) {
    0 < over && over % (NENT + 1) == 1 && over / (NENT + 1) * NENT < m
  }

  lemma TakesMore(i: nat, m: nat)
    requires i < m
    ensures Takes(i + 1) == Takes(i) + if i % NENT == 0 then 2 else 1
    ensures Takes(i + 1) <= Takes(m)
  {
    assert Tables(i + 1) <= Tables(m);
  }

  /** Out of memory at page i: with no page to take, or with one page and a table to make. */
  lemma LosesOnlyAt(over: int, i: nat, m: nat)
    requires i < m && Takes(i) <= over < Takes(i + 1)
    ensures over < Takes(m) && (Loses(over, m) <==> over == Takes(i) + 1)
  {
    TakesMore(i, m);
    var q, r := i / NENT, i % NENT;
    assert i == NENT * q + r;
    if r == 0 {
      assert Takes(i) == (NENT + 1) * q;
    } else {
      assert Takes(i) == (NENT + 1) * q + r + 1;
    }
  }

  lemma LosesNot(over: int, m: nat)
    requires Takes(m) <= over || over <= 0
    ensures !Loses(over, m)
  {
    var q, r := m / NENT, m % NENT;
    assert m == NENT * q + r;
    if r == 0 {
      assert Takes(m) == (NENT + 1) * q;
    } else {
      assert Takes(m) == (NENT + 1) * q + r + 1;
    }
  }

  /** What is left of nfree0 free pages once c has the kernel's half and i user pages. */
  ghost predicate Counted(dir: Page, nfree: nat, nfree0: nat, kmap: seq<Region>, i: nat)
    requires |dir| == NENT
  {
    Slots(dir) == KmapSlots(kmap, |kmap|) + RangeSlots(0, i) && nfree + |Slots(dir)| + 1 + i == nfree0
  }

  lemma CountedStarts(dir: Page, nfree: nat, nfree0: nat, kmap: seq<Region>)
    requires |dir| == NENT && Slots(dir) == KmapSlots(kmap, |kmap|) && nfree == nfree0 - KernelPages(kmap)
    ensures Counted(dir, nfree, nfree0, kmap, 0)
  {
    RangeSlotsOne(0);
  }

  lemma CountedIs(dir: Page, nfree: nat, nfree0: nat, kmap: seq<Region>, i: nat)
    requires |dir| == NENT && Counted(dir, nfree, nfree0, kmap, i) && GoodKmap(kmap) && i <= USER
    ensures nfree == nfree0 - KernelPages(kmap) - Takes(i)
    ensures i < USER ==> (i / NENT in Slots(dir) <==> i % NENT != 0)
  {
    var k, u := KmapSlots(kmap, |kmap|), RangeSlots(0, i);
    forall x | x in k
      ensures USER / NENT <= x
    {
      KmapSlotsHigh(kmap, |kmap|, x);
    }
    assert k !! u;
    RangeSlotsCount(i);
    NextTable(i);
  }

  lemma CountedNext(dir: Page, nfree: nat, dir': Page, nfree': nat, nfree0: nat, kmap: seq<Region>, i: nat)
    requires |dir| == |dir'| == NENT && Counted(dir, nfree, nfree0, kmap, i)
    requires Slots(dir') == Slots(dir) + {i / NENT} && nfree' + |Slots(dir')| + 1 == nfree + |Slots(dir)|
    ensures Counted(dir', nfree', nfree0, kmap, i + 1)
  {
    RangeSlotsNext(0, i);
    hide RangeSlots, Slots;
  }

  /** The lost pages were free, and are now neither free nor anyone's. */
  ghost predicate Stranded(owner0: seq<Owner>, owner: seq<Owner>, lost: set<nat>) {
    |owner0| == |owner| && forall p :: p in lost ==> p < |owner| && owner0[p].Free? && owner[p].Other?
  }

  /** Everything is as before, but for the lost pages, which were free. */
  ghost predicate Returned(mem0: seq<Page>, owner0: seq<Owner>, mem: seq<Page>, owner: seq<Owner>, lost: set<nat>) {
    && |mem0| == |owner0| == |mem| == |owner| && Stranded(owner0, owner, lost)
    && forall p :: 0 <= p < |mem0| ==> ReturnedAt(mem0, owner0, mem, owner, lost, p)
  }

  ghost predicate ReturnedAt(mem0: seq<Page>, owner0: seq<Owner>, mem: seq<Page>, owner: seq<Owner>, lost: set<nat>,
                             p: nat)
    requires |mem0| == |owner0| == |mem| == |owner| && p < |mem|
  {
    if owner0[p].Free? then p in lost || owner[p].Free? else owner[p] == owner0[p] && mem[p] == mem0[p]
  }

  lemma ReturnedSelf(mem: seq<Page>, owner: seq<Owner>)
    requires |mem| == |owner|
    ensures Returned(mem, owner, mem, owner, {})
  {
  }

  /** Growing c and then giving it up. */
  lemma ReturnedAll(mem0: seq<Page>, owner0: seq<Owner>, dirs0: set<nat>, mem1: seq<Page>, owner1: seq<Owner>,
                    mem: seq<Page>, owner: seq<Owner>, c: nat, lost: set<nat>)
    requires Spaces(mem0, owner0, dirs0) && c !in dirs0
    requires Grows(mem0, owner0, mem1, owner1, c, 0, 0, lost) && Released(mem1, owner1, mem, owner, c)
    requires Stranded(owner0, owner1, lost)
    ensures Returned(mem0, owner0, mem, owner, lost)
  {
    hide Entry;
    forall p | 0 <= p < |mem0|
      ensures ReturnedAt(mem0, owner0, mem, owner, lost, p)
    {
      assert PageOk(mem0, owner0, dirs0, p);
      assert GrowsAt(mem0, owner0, mem1, owner1, c, 0, 0, lost, p) && ReleasedAt(mem1, owner1, mem, owner, c, p);
    }
    assert forall p :: p in lost ==> ReleasedAt(mem1, owner1, mem, owner, c, p);
  }

  // ---------------------------------------------------------------- pages taken from the free list

  /** The pages from a up to b, in order. */
  function Upto(a: nat, b: nat): (r: seq<nat>)
    ensures |r| == if a < b then b - a else 0
  {
    seq(if a < b then b - a else 0, i => a + i)
  }

  lemma UptoNext(a: nat, b: nat)
    ensures b <= a ==> Upto(a, b) == []
    ensures a <= b ==> Upto(a, b + 1) == Upto(a, b) + [b]
  {
  }

  lemma GrowsSelf(mem: seq<Page>, owner: seq<Owner>, d: nat, lo: nat, n: nat)
    requires |mem| == |owner|
    ensures Grows(mem, owner, mem, owner, d, lo, n, {})
  {
  }

  /** A page from the free list, zeroed, becomes the table for directory entry x: no entry changes. */
  lemma TableFromFree(mem: seq<Page>, owner: seq<Owner>, dirs: set<nat>, freelist: nat, free: seq<nat>, first: nat,
                      d: nat, x: nat, t: nat)
    requires Spaces(mem, owner, dirs) && d in dirs && x < NENT && !Present(mem[d][x])
    requires t < |mem| && owner[t].Free? && FreeOk(mem, owner[t := Other], freelist, free, first)
    ensures Sized(mem[t := ZEROPAGE])
    ensures var mem' := SetWord(mem[t := ZEROPAGE], d, x, Pack(t, PTE_P + PTE_W + PTE_U));
      var owner' := owner[t := Other][t := Table(d, x)];
      && Spaces(mem', owner', dirs) && FreeOk(mem', owner', freelist, free, first)
      && Present(mem'[d][x]) && Frame(mem'[d][x]) == t && Slots(mem'[d]) == Slots(mem[d]) + {x}
      && (forall e, u :: e in dirs && 0 <= u < VPAGES ==> Entry(mem', e, u) == Entry(mem, e, u))
      && Grows(mem, owner, mem', owner', d, 0, 0, {})
  {
    var flags := PTE_P + PTE_W + PTE_U;
    var owner1, mem1 := owner[t := Other], mem[t := ZEROPAGE];
    HandOver(mem, owner, dirs, t, Other);
    WriteKeepsSpaces(mem, owner1, dirs, t, ZEROPAGE);
    WriteKeepsFree(mem, owner1, owner1, freelist, free, first, t, ZEROPAGE);
    NewTable(mem1, owner1, dirs, d, x, t, flags);
    PackExact(t, flags);
    var mem2, owner2 := SetWord(mem1, d, x, Pack(t, flags)), owner1[t := Table(d, x)];
    assert Slots(mem2[d]) == Slots(mem[d]) + {x} by {
      assert forall y :: 0 <= y < NENT && y != x ==> mem2[d][y] == mem[d][y];
    }
    WriteKeepsFree(mem1, owner1, owner2, freelist, free, first, d, mem2[d]);
    forall e, u | e in dirs && 0 <= u < VPAGES
      ensures Entry(mem2, e, u) == Entry(mem, e, u)
    {
      EntryAfterWrite(mem, owner1, dirs, t, ZEROPAGE, e, u);
      EntryAfterTable(mem1, owner1, dirs, d, x, t, flags, e, u);
    }
    hide Entry;
    forall p | 0 <= p < |mem|
      ensures GrowsAt(mem, owner, mem2, owner2, d, 0, 0, {}, p)
    {
    }
  }

  lemma DirFromFree(mem: seq<Page>, owner: seq<Owner>, dirs: set<nat>, freelist: nat, free: seq<nat>, first: nat,
                    d: nat)
    requires Spaces(mem, owner, dirs) && d < |mem| && owner[d].Free?
    requires FreeOk(mem, owner[d := Other], freelist, free, first)
    ensures var mem' := mem[d := ZEROPAGE];
      var owner' := owner[d := Other][d := Dir];
      && d !in dirs && Spaces(mem', owner', dirs + {d}) && FreeOk(mem', owner', freelist, free, first)
      && (forall u :: 0 <= u < VPAGES ==> Entry(mem', d, u) == 0)
      && Grows(mem, owner, mem', owner', d, 0, 0, {})
  {
    var owner1, mem1 := owner[d := Other], mem[d := ZEROPAGE];
    HandOver(mem, owner, dirs, d, Other);
    WriteKeepsSpaces(mem, owner1, dirs, d, ZEROPAGE);
    NewDir(mem1, owner1, dirs, d);
    var owner2 := owner1[d := Dir];
    WriteKeepsFree(mem, owner1, owner2, freelist, free, first, d, ZEROPAGE);
    hide Entry;
    forall p | 0 <= p < |mem|
      ensures GrowsAt(mem, owner, mem1, owner2, d, 0, 0, {}, p)
    {
    }
  }

  lemma RegionMapped(mem: seq<Page>, mem': seq<Page>, kmap: seq<Region>, i: nat, d: nat)
    requires i < |kmap| && RegionOk(kmap[i]) && Sized(mem) && d < |mem|
    requires forall u :: 0 <= u < VPAGES ==> Entry(mem, d, u) == KernelEntry(kmap, i, u)
    requires var k := kmap[i]; Ranged(mem, mem', d, k.virt / 4096, PagesOf(k.virt, Bytes(k)), k.start / 4096, k.perm)
    ensures forall u :: 0 <= u < VPAGES ==> Entry(mem', d, u) == KernelEntry(kmap, i + 1, u)
  {
  }

  // ---------------------------------------------------------------- the machine

  class Machine {
    const first: nat        // the first page past the kernel
    var mem: seq<Page>      // physical memory, by page
    var freelist: nat       // kmem.freelist
    ghost var free: seq<nat>
    ghost var owner: seq<Owner>
    ghost var dirs: set<nat>

    ghost predicate FreeListOk()
      reads this
    {
      FreeOk(mem, owner, freelist, free, first)
    }

    ghost predicate Valid()
      reads this
    {
      FreeListOk() && Spaces(mem, owner, dirs) && forall p :: 0 <= p < |owner| && !owner[p].Other? ==> first <= p
    }

    /** Memory before kinit1: no address space, nothing on the free list. */
    constructor (mem: seq<Page>, first: nat)
      requires Sized(mem) && 0 < first
      ensures Valid() && free == [] && dirs == {} && this.mem == mem && this.first == first
      ensures forall p :: 0 <= p < |owner| ==> owner[p] == Other
    {
      this.mem := mem;
      this.first := first;
      freelist := 0;
      free := [];
      owner := seq(|mem|, _ => Other);
      dirs := {};
    }

    /** A free page, or 0 when there is none. */
    method Kalloc() returns (p: nat)
      requires FreeListOk()
      modifies `freelist, `free, `owner
      ensures FreeListOk()
      ensures old(free) == [] ==> p == 0 && free == [] && owner == old(owner)
      ensures old(free) != [] ==>
        && p == old(free)[|old(free)| - 1] && free == old(free)[..|old(free)| - 1] && 0 < p < |mem|
        && old(owner)[p].Free? && owner == old(owner)[p := Other]
      ensures p == 0 <==> old(free) == []
    {
      if freelist == 0 {
        return 0;
      }
      PopKeepsFree(mem, owner, free, first);
      p := PageOf(freelist);
      freelist := mem[p][0];
      owner := owner[p := Other];
      free := free[..|free| - 1];
    }

    /** Puts a page on the free list; the panic is for a page of the kernel or past the end of memory. A page that
        was on the list already is not caught, and the list is then no longer one. */
    method Kfree(p: nat) returns (ok: bool)
      requires FreeListOk()
      modifies `mem, `freelist, `free, `owner
      ensures ok == (first <= p < |old(mem)|)
      ensures FreeListOk() <==> !ok || !old(owner)[p].Free?
      ensures ok ==> free == old(free) + [p] && owner == old(owner)[p := Free(|old(free)|)]
      ensures ok ==> mem == old(mem)[p := FreedPage(old(freelist))] && freelist == Ptr(p)
      ensures ok ==> mem[p][0] == old(freelist) && forall k :: 0 < k < NENT ==> mem[p][k] == 0x0101_0101
      ensures !ok ==> unchanged(this)
    {
      if p < first || |mem| <= p {
        return false;
      }
      if !owner[p].Free? {
        PushKeepsFree(mem, owner, free, first, p);
      }
      ghost var k := owner[p];
      mem := mem[p := FreedPage(freelist)];
      freelist := Ptr(p);
      owner := owner[p := Free(|free|)];
      free := free + [p];
      assert k.Free? ==> !FreeAt(mem, owner, free, first, k.at);
      return true;
    }

    /** The page table for virtual page v, made if alloc; 0 when there is none. */
    method Walkpgdir(d: nat, v: nat, alloc: bool) returns (t: nat)
      requires Valid() && d in dirs && v < VPAGES
      modifies `mem, `freelist, `free, `owner
      ensures Valid() && |mem| == |old(mem)|
      ensures t != 0 ==> t < |mem| && Present(mem[d][v / NENT]) && Frame(mem[d][v / NENT]) == t
      ensures t != 0 && !Present(old(mem)[d][v / NENT]) ==> mem[d][v / NENT] == Pack(t, PTE_P + PTE_W + PTE_U)
      ensures forall e, u :: e in dirs && 0 <= u < VPAGES ==> Entry(mem, e, u) == Entry(old(mem), e, u)
      ensures Grows(old(mem), old(owner), mem, owner, d, 0, 0, {})
      ensures Present(old(mem)[d][v / NENT]) || !alloc ==> unchanged(this)
      ensures t == 0 <==> !Present(old(mem)[d][v / NENT]) && (!alloc || old(free) == [])
      ensures t == 0 ==> unchanged(this)
      ensures t != 0 ==> Slots(mem[d]) == Slots(old(mem)[d]) + {v / NENT}
      ensures |free| + |Slots(mem[d])| == |old(free)| + |Slots(old(mem)[d])|
    {
      GrowsSelf(mem, owner, d, 0, 0);
      var pde := mem[d][v / NENT];
      assert TableOk(mem, owner, d, v / NENT);
      if Present(pde) {
        assert Slots(mem[d]) == Slots(mem[d]) + {v / NENT};
        return Frame(pde);
      }
      if !alloc {
        return 0;
      }
      t := Kalloc();
      if t == 0 {
        return;
      }
      TableFromFree(old(mem), old(owner), dirs, freelist, free, first, d, v / NENT, t);
      mem := mem[t := ZEROPAGE];
      mem := SetWord(mem, d, v / NENT, Pack(t, PTE_P + PTE_W + PTE_U));
      owner := owner[t := Table(d, v / NENT)];
      SlotTaken(Slots(old(mem)[d]), Slots(mem[d]), v / NENT);
    }

    /** Maps the pages that [va, va + size) touches to frames from pa on. A failure leaves the first done of them
        mapped. */
    method Mappages(d: nat, va: nat, size: nat, pa: nat, perm: nat) returns (r: Status, ghost done: nat)
      requires Valid() && d in dirs && 0 < size && va + size <= 0x1_0000_0000 && pa % 4096 == 0 && perm < 4096
      requires TakesFrom(owner, first, d, va / 4096, PagesOf(va, size), pa / 4096, 0)
      modifies `mem, `freelist, `free, `owner
      ensures Valid() && |mem| == |old(mem)| && done <= PagesOf(va, size)
      ensures Ranged(old(mem), mem, d, va / 4096, done, pa / 4096, perm)
      ensures Grows(old(mem), old(owner), mem, owner, d, pa / 4096, UserCount(va / 4096, PagesOf(va, size)), {})
      ensures r.Mapped? <==> done == PagesOf(va, size)
      ensures r.NoMemory? ==> free == []
      ensures done == 0 ==> unchanged(this)
      ensures |free| + |Slots(mem[d])| == |old(free)| + |Slots(old(mem)[d])|
      ensures var all := Slots(old(mem)[d]) + RangeSlots(va / 4096, PagesOf(va, size));
        && (r.Mapped? ==> Slots(mem[d]) == all)
        && (r.NoMemory? ==> Slots(mem[d]) < all)
        && (!r.Remap? ==> (r.Mapped? <==> |all| - |Slots(old(mem)[d])| <= |old(free)|))
      ensures r.Remap? ==> va / 4096 + done < VPAGES && Present(Entry(old(mem), d, va / 4096 + done))
      ensures TakesFrom(owner, first, d, va / 4096, PagesOf(va, size), pa / 4096, done)
    {
      hide TableOk, UserOk, PageOk, FreeOk, Ranged, Entry, Grows, Slots, RangeSlots, TakesFrom, Mapping;
      var v, f, n := va / 4096, pa / 4096, PagesOf(va, size);
      var a, last, frame := v, (va + size - 1) / 4096, f;
      assert last == v + n - 1 < VPAGES && 0 < n;
      hide PagesOf, UserCount;
      done := 0;
      MappingStarts(mem, owner, |free|, first, d, v, n, f, perm);
      while true
        invariant Valid() && |mem| == |old(mem)|
        invariant a == v + done <= last && frame == f + done && done < n && last == v + n - 1 < VPAGES
        invariant Mapping(old(mem), old(owner), |old(free)|, mem, owner, |free|, first, d, v, n, f, perm, done)
        invariant done == 0 ==> unchanged(this)
        decreases last - a
      {
        r := MapNext(old(mem), old(owner), |old(free)|, d, v, n, f, a, frame, perm, done);
        if !r.Mapped? {
          break;
        }
        done := done + 1;
        if a == last {
          break;
        }
        a := a + 1;
        frame := frame + 1;
      }
      MappingEnds(old(mem), old(owner), |old(free)|, mem, owner, |free|, first, d, v, n, f, perm, done, r);
    }

    /** One pass of mappages' loop, in what the loop has done so far. */
    method MapNext(ghost mem0: seq<Page>, ghost owner0: seq<Owner>, ghost nfree0: nat, d: nat, ghost v: nat,
                   ghost n: nat, ghost f: nat, a: nat, frame: nat, perm: nat, ghost done: nat)
        returns (r: Status)
      requires Valid() && d in dirs && done < n && a == v + done < VPAGES && frame == f + done && perm < 4096
      requires Mapping(mem0, owner0, nfree0, mem, owner, |free|, first, d, v, n, f, perm, done)
      modifies `mem, `freelist, `free, `owner
      ensures Valid() && |mem| == |old(mem)| && (!r.Mapped? ==> unchanged(this))
      ensures r.NoMemory? ==> !Present(mem[d][a / NENT]) && free == []
      ensures r.Remap? ==> Present(Entry(mem, d, a))
      ensures r.Mapped? ==> Mapping(mem0, owner0, nfree0, mem, owner, |free|, first, d, v, n, f, perm, done + 1)
    {
      hide TableOk, UserOk, PageOk, FreeOk, Ranged, Entry, Grows, Slots, RangeSlots, TakesFrom, Mapping, UserCount;
      ghost var mem1, owner1, nfree := mem, owner, |free|;
      MappingTakes(mem0, owner0, nfree0, mem, owner, |free|, first, d, v, n, f, perm, done);
      r := MapPage(d, a, frame, perm);
      if r.Mapped? {
        MappingNext(mem0, owner0, nfree0, mem1, owner1, nfree, mem, owner, |free|, first, d, v, n, f, perm, done);
      }
    }

    /** The entry of one page. */
    method MapPage(d: nat, v: nat, frame: nat, perm: nat) returns (r: Status)
      requires Valid() && d in dirs && v < VPAGES && perm < 4096
      requires v < USER ==> first <= frame < |owner| && owner[frame].Other?
      modifies `mem, `freelist, `free, `owner
      ensures Valid() && |mem| == |old(mem)|
      ensures r.Mapped? ==> forall e, u :: e in dirs && 0 <= u < VPAGES ==>
        Entry(mem, e, u) == if e == d && u == v then Pack(frame, perm) else Entry(old(mem), e, u)
      ensures !r.Mapped? ==> forall e, u :: e in dirs && 0 <= u < VPAGES ==> Entry(mem, e, u) == Entry(old(mem), e, u)
      ensures Grows(old(mem), old(owner), mem, owner, d, frame, UserCount(v, 1), {})
      ensures v < USER ==> owner[frame] == if r.Mapped? then User(d, v) else Other
      ensures r.NoMemory? <==> !Present(old(mem)[d][v / NENT]) && old(free) == []
      ensures !r.Mapped? ==> unchanged(this)
      ensures r.Remap? <==> Present(Entry(old(mem), d, v))
      ensures r.Mapped? ==> Slots(mem[d]) == Slots(old(mem)[d]) + {v / NENT}
      ensures |free| + |Slots(mem[d])| == |old(free)| + |Slots(old(mem)[d])|
    {
      hide TableOk, UserOk, PageOk, FreeOk, Grows, Frame, Pack, Slots;
      var t := Walkpgdir(d, v, true);
      if t == 0 {
        GrowsSelf(mem, owner, d, frame, UserCount(v, 1));
        return NoMemory;
      }
      EntryTable(mem, owner, dirs, d, v);
      assert t != d && mem[t][v % NENT] == Entry(mem, d, v);
      GrowsWider(old(mem), old(owner), mem, owner, d, 0, 0, frame, UserCount(v, 1));
      if Present(mem[t][v % NENT]) {
        return Remap;
      }
      if v < USER { OtherStays(old(mem), old(owner), mem, owner, d, frame); }
      MapOne(mem, owner, dirs, freelist, free, first, d, v, frame, perm);
      ghost var mem1, owner1 := mem, owner;
      mem := SetWord(mem, t, v % NENT, Pack(frame, perm));
      if v < USER {
        owner := owner[frame := User(d, v)];
      }
      GrowsTwice(old(mem), old(owner), mem1, owner1, mem, owner, d, frame, UserCount(v, 1), {});
      return Mapped;
    }

    /** A directory with the kernel's half mapped and the user's empty. On failure (d == 0) the directory and tables
        made so far, if any, stay allocated: left is that directory. */
    method Setupkvm(kmap: seq<Region>) returns (d: nat, ghost left: nat)
      requires Valid() && GoodKmap(kmap)
      modifies this
      ensures Valid() && |mem| == |old(mem)|
      ensures d != 0 ==> d !in old(dirs) && dirs == old(dirs) + {d}
      ensures d != 0 ==> Grows(old(mem), old(owner), mem, owner, d, 0, 0, {})
      ensures d != 0 ==> forall u :: 0 <= u < VPAGES ==> Entry(mem, d, u) == KernelEntry(kmap, |kmap|, u)
      ensures d == 0 && left == 0 ==> old(free) == [] && unchanged(this)
      ensures d == 0 && left != 0 ==>
        && left !in old(dirs) && dirs == old(dirs) + {left} && free == []
        && Grows(old(mem), old(owner), mem, owner, left, 0, 0, {})
      ensures d != 0 <==> KernelPages(kmap) <= |old(free)|
      ensures left != 0 <==> 0 < |old(free)| < KernelPages(kmap)
      ensures d != 0 ==> |free| == |old(free)| - KernelPages(kmap) && Slots(mem[d]) == KmapSlots(kmap, |kmap|)
    {
      hide TableOk, UserOk, PageOk, FreeOk, Ranged, Entry, Grows, Slots, RangeSlots, KmapSlots, KernelEntry, Building;
      d, left := NewDirectory();
      if d == 0 {
        return;
      }
      ghost var e := d;
      var i := 0;
      BuildingStarts(old(mem), old(owner), |old(free)|, mem, owner, |free|, d, kmap);
      while i < |kmap|
        invariant i <= |kmap| && Valid() && d == e && d in dirs && dirs == old(dirs) + {d} && |mem| == |old(mem)|
        invariant Building(old(mem), old(owner), |old(free)|, mem, owner, |free|, d, kmap, i)
      {
        var k := kmap[i];
        assert RegionOk(k);
        ghost var mem1, owner1, nfree := mem, owner, |free|;
        var r, done := Mappages(d, k.virt, Bytes(k), k.start, k.perm);
        BuildingNext(old(mem), old(owner), |old(free)|, mem1, owner1, nfree, mem, owner, |free|, d, kmap, i, r, done);
        if r.NoMemory? {
          return 0, e;
        }
        i := i + 1;
      }
      BuildingEnds(old(mem), old(owner), |old(free)|, mem, owner, |free|, d, kmap);
    }

    method NewDirectory() returns (d: nat, ghost left: nat)
      requires Valid()
      modifies this
      ensures Valid() && left == 0 && |mem| == |old(mem)|
      ensures d == 0 ==> old(free) == [] && unchanged(this)
      ensures d != 0 ==> d !in old(dirs) && dirs == old(dirs) + {d}
      ensures d != 0 ==> Grows(old(mem), old(owner), mem, owner, d, 0, 0, {})
      ensures d != 0 ==> d < |mem| && forall u :: 0 <= u < VPAGES ==> Entry(mem, d, u) == 0
      ensures d != 0 ==> Slots(mem[d]) == {} && |free| + 1 == |old(free)|
    {
      left := 0;
      d := Kalloc();
      if d == 0 {
        return;
      }
      DirFromFree(old(mem), old(owner), dirs, freelist, free, first, d);
      mem := mem[d := ZEROPAGE];
      owner := owner[d := Dir];
      dirs := dirs + {d};
    }

    /** deallocuvm's step on a present entry: kfree the page, clear the entry */
    method UnmapPage(d: nat, v: nat, t: nat) returns (ok: bool)
      requires Valid() && d in dirs && v < USER && Present(mem[d][v / NENT]) && t == Frame(mem[d][v / NENT])
      requires Present(Entry(mem, d, v))
      modifies `mem, `freelist, `free, `owner
      ensures ok && Valid() && |mem| == |old(mem)|
      ensures forall u :: 0 <= u < VPAGES ==> Entry(mem, d, u) == if u == v then 0 else Entry(old(mem), d, u)
      ensures Shrinks(old(mem), old(owner), mem, owner, d, v, v + 1) && old(free) <= free
    {
      var p := Frame(Entry(mem, d, v));
      FreeUserPage(mem, owner, dirs, d, v, t, p, freelist, |free|);
      if p == 0 {
        return false;
      }
      ok := Kfree(p);
      if !ok {
        return;
      }
      WriteKeepsFree(mem, owner, owner, freelist, free, first, t, mem[t][v % NENT := 0]);
      mem := SetWord(mem, t, v % NENT, 0);
      hide Entry;
      ghost var hi := v + 1;
      forall q | 0 <= q < |mem|
        ensures ShrinksAt(old(mem), old(owner), mem, owner, d, v, hi, q)
      {
        assert PageOk(old(mem), old(owner), dirs, q);
      }
    }

    /** Frees exactly the user pages from From(...) up to oldsz; no panic. */
    method Deallocuvm(d: nat, oldsz: nat, newsz: nat) returns (ok: bool, r: nat)
      requires Valid() && d in dirs && oldsz <= KERNBASE
      modifies `mem, `freelist, `free, `owner
      ensures ok && Valid() && |mem| == |old(mem)| && old(free) <= free && r == if newsz >= oldsz then oldsz else newsz
      ensures newsz >= oldsz ==> unchanged(this)
      ensures newsz < oldsz ==> var (hi, lo) := (Up(oldsz), From(old(mem)[d], Up(newsz), Up(oldsz)));
        Unmapped(old(mem), mem, d, lo, hi) && Shrinks(old(mem), old(owner), mem, owner, d, lo, hi)
      ensures newsz < oldsz ==>
        ((forall u :: Up(newsz) <= u < Up(oldsz) ==> !Present(Entry(mem, d, u)))
         <==> SweepsAll(old(mem), d, Up(newsz), Up(oldsz)))
    {
      hide SweepsAll, TableOk, UserOk, PageOk, FreeOk, Entry, Unmapped, Shrinks, Sweeping;
      if newsz >= oldsz {
        return true, oldsz;
      }
      ghost var hi, lo := Up(oldsz), From(mem[d], Up(newsz), Up(oldsz));
      var v := Up(newsz);
      SweepStarts(mem, owner, d, lo, hi, v);
      while v * 4096 < oldsz
        invariant Valid() && |mem| == |old(mem)| && old(free) <= free
        invariant Sweeping(old(mem), old(owner), mem, owner, d, lo, hi, v)
        decreases hi - v
      {
        ghost var mem1, owner1 := mem, owner;
        var t := Walkpgdir(d, v, false);
        if t == 0 {
          SweepSkips(old(mem), old(owner), mem, owner, dirs, d, lo, hi, v);
          v := v + (NENT - 1);
        } else {
          EntryIs(mem, d, v, t);
          if Present(mem[t][v % NENT]) {
            ok := UnmapPage(d, v, t);
            SweepFrees(old(mem), old(owner), mem1, owner1, mem, owner, dirs, d, lo, hi, v);
          } else {
            SweepPasses(old(mem), old(owner), mem, owner, dirs, d, lo, hi, v);
          }
        }
        v := v + 1;
      }
      SweepEnds(old(mem), old(owner), mem, owner, d, lo, hi, v);
      SweepComplete(old(mem), mem, d, Up(newsz), lo, hi);
      return true, newsz;
    }

    /** kfree of a page that belongs to no address space */
    method FreePage(p: nat) returns (ok: bool)
      requires Valid() && p < |mem| && owner[p].Other? && first <= p
      modifies `mem, `freelist, `free, `owner
      ensures ok && Valid() && |mem| == |old(mem)| && free == old(free) + [p]
      ensures owner == old(owner)[p := Free(|old(free)|)]
      ensures forall q :: 0 <= q < |mem| && q != p ==> mem[q] == old(mem)[q]
    {
      WriteKeepsSpaces(mem, owner, dirs, p, FreedPage(freelist));
      HandOver(mem[p := FreedPage(freelist)], owner, dirs, p, Free(|free|));
      ok := Kfree(p);
    }

    /** freerange: every whole page of [start, end) goes on the list, in order. */
    method Freerange(start: nat, end: nat) returns (ok: bool)
      requires Valid() && first <= Up(start) && end / 4096 <= |mem|
      requires forall p :: Up(start) <= p < end / 4096 ==> owner[p].Other?
      modifies `mem, `freelist, `free, `owner
      ensures ok && Valid() && |mem| == |old(mem)|
      ensures forall p :: Up(start) <= p < end / 4096 ==> owner[p].Free?
      ensures forall p :: 0 <= p < |mem| && !(Up(start) <= p < end / 4096) ==>
        owner[p] == old(owner)[p] && mem[p] == old(mem)[p]
      ensures free == old(free) + Upto(Up(start), end / 4096)
    {
      hide TableOk, UserOk, PageOk, FreeOk;
      var p := Up(start);
      UptoNext(Up(start), p);
      while (p + 1) * 4096 <= end
        invariant Up(start) <= p && (p == Up(start) || p <= end / 4096) && Valid() && |mem| == |old(mem)|
        invariant free == old(free) + Upto(Up(start), p)
        invariant forall q :: Up(start) <= q < p ==> owner[q].Free?
        invariant forall q :: 0 <= q < |mem| && !(Up(start) <= q < p) ==>
          owner[q] == old(owner)[q] && mem[q] == old(mem)[q]
      {
        ok := FreePage(p);
        UptoNext(Up(start), p);
        p := p + 1;
      }
      return true;
    }

    /** Gives back the directory, its tables and its user pages, each once, and nothing else; no panic. */
    method Freevm(d: nat) returns (ok: bool)
      requires Valid() && (d == 0 || d in dirs)
      modifies this
      ensures ok == (d in old(dirs)) && Valid() && old(free) <= free
      ensures ok ==> dirs == old(dirs) - {d} && Released(old(mem), old(owner), mem, owner, d)
      ensures !ok ==> unchanged(this)
    {
      assert 0 !in dirs;
      hide Entry, Frame, Present, TableOk, UserOk, PageOk, FreeOk, Shrinks, Unmapped;
      if d == 0 {
        return false;
      }
      var _, _ := Deallocuvm(d, KERNBASE, 0);
      ghost var mem1, owner1 := mem, owner;
      AllUnmapped(old(mem), mem, d);
      DropDir(mem, owner, dirs, d);
      WriteKeepsFree(mem, owner, Orphaned(owner, d), freelist, free, first, d, mem[d]);
      assert mem[d := mem[d]] == mem;
      owner := Orphaned(owner, d);
      dirs := dirs - {d};
      assert dirs + {d} == old(dirs);
      FreeTables(d, owner1);
      assert TablesFreedAt(mem1, owner1, mem, owner, d, NENT, d);
      ghost var mem2, owner2, n := mem, owner, |free|;
      ok := FreePage(d);
      ReleasedAll(old(mem), old(owner), old(dirs), mem1, owner1, mem2, owner2, mem, d, n);
    }

    /** freevm's loop over the directory */
    method FreeTables(d: nat, ghost was: seq<Owner>)
      requires Valid() && d < |mem| == |was| && owner == Orphaned(was, d) && was[d] == Dir
      requires Spaces(mem, was, dirs + {d})
      requires forall p :: 0 <= p < |was| && !was[p].Other? ==> first <= p
      modifies `mem, `freelist, `free, `owner
      ensures Valid() && |mem| == |old(mem)| && old(free) <= free && mem[d] == old(mem)[d]
      ensures TablesFreed(old(mem), was, mem, owner, d, NENT)
    {
      hide Entry, Frame, Present, TableOk, UserOk, PageOk, FreeOk;
      var i := 0;
      while i < NENT
        invariant i <= NENT && Valid() && |mem| == |old(mem)| && old(free) <= free && mem[d] == old(mem)[d]
        invariant TablesFreed(old(mem), was, mem, owner, d, i)
      {
        TableTurn(old(mem), was, mem, owner, dirs + {d}, d, i);
        ghost var mem1, owner1, n := mem, owner, |free|;
        if Present(mem[d][i]) {
          var t := Frame(mem[d][i]);
          var _ := FreePage(t);
          FreesNext(old(mem), was, mem1, owner1, mem, owner, d, i, t, n);
        } else {
          FreesNext(old(mem), was, mem1, owner1, mem, owner, d, i, |mem|, n);
        }
        i := i + 1;
      }
    }

    /** mem = kalloc(); memmove(mem, p2v(pa), PGSIZE) */
    method KallocCopy(pa: nat) returns (m: nat)
      requires Valid() && pa < |mem|
      modifies `mem, `freelist, `free, `owner
      ensures Valid() && |mem| == |old(mem)|
      ensures m == 0 <==> old(free) == []
      ensures m == 0 ==> unchanged(this)
      ensures m != 0 ==> free == old(free)[..|old(free)| - 1] && m == old(free)[|old(free)| - 1]
      ensures m != 0 ==> first <= m < |mem| && old(owner)[m].Free? && owner == old(owner)[m := Other]
      ensures m != 0 ==> mem == old(mem)[m := old(mem)[pa]]
    {
      m := Kalloc();
      if m == 0 {
        return;
      }
      HandOver(mem, old(owner), dirs, m, Other);
      WriteKeepsSpaces(mem, owner, dirs, m, mem[pa]);
      WriteKeepsFree(mem, owner, owner, freelist, free, first, m, mem[pa]);
      mem := mem[m := mem[pa]];
    }

    /** copyuvm for one present page table entry w of the parent: a new page with the bytes of w's, mapped as page i
        of c with w's flags. When memory runs out, a page already taken for the copy is lost. */
    method CopyFrame(c: nat, i: nat, w: nat) returns (r: Status, ghost lost: set<nat>)
      requires Valid() && c in dirs && i < USER && !Present(Entry(mem, c, i)) && Present(w) && Frame(w) < |mem|
      modifies `mem, `freelist, `free, `owner
      ensures Valid() && |mem| == |old(mem)| && !r.Remap?
      ensures r.NoMemory? <==> old(free) == [] || (|old(free)| == 1 && i / NENT !in Slots(old(mem)[c]))
      ensures r.NoMemory? ==> lost == if old(free) == [] then {} else {old(free)[0]}
      ensures r.Mapped? ==> lost == {} && CopyOf(old(mem), w, mem, c, i)
      ensures r.Mapped? ==> forall u :: 0 <= u < VPAGES && u != i ==> Entry(mem, c, u) == Entry(old(mem), c, u)
      ensures r.Mapped? ==> Slots(mem[c]) == Slots(old(mem)[c]) + {i / NENT}
      ensures r.Mapped? ==> |free| + |Slots(mem[c])| + 1 == |old(free)| + |Slots(old(mem)[c])|
      ensures Grows(old(mem), old(owner), mem, owner, c, 0, 0, lost) && Stranded(old(owner), owner, lost)
    {
      hide TableOk, UserOk, PageOk, FreeOk, Ranged, Grows, Slots, RangeSlots, Frame, Flags, Entry, Present, CopyOf,
           PagesOf, UserCount;
      OnePage(i);
      GrowsSelf(mem, owner, c, 0, 0);
      lost := {};
      var m := KallocCopy(Frame(w));
      if m == 0 {
        return NoMemory, {};
      }
      ghost var mem1, owner1 := mem, owner;
      AroundCopy(old(mem), old(owner), mem, owner, dirs, c, m, Frame(w));
      FlagsKept(w, m);
      RangeSlotsOne(i);
      ghost var done;
      r, done := Mappages(c, i * 4096, 4096, m * 4096, Flags(w));
      CopyGrows(old(mem), old(owner), mem1, owner1, mem, owner, c, i, m, old(mem)[Frame(w)], r.Mapped?);
      CopyMapped(old(mem), mem1, mem, c, i, w, m, done);
      SlotTaken(Slots(mem1[c]), Slots(mem1[c]) + {i / NENT}, i / NENT);
      if r.NoMemory? {
        lost := {m};
      }
    }

    /** One pass of copyuvm's loop: page i of d, copied and mapped in c. */
    method CopyPage(d: nat, c: nat, i: nat) returns (r: Copy, ghost lost: set<nat>)
      requires Valid() && d in dirs && c in dirs && i < USER && !Present(Entry(mem, c, i))
      modifies `mem, `freelist, `free, `owner
      ensures Valid() && |mem| == |old(mem)| && |lost| <= 1
      ensures r.NoTable? <==> i / NENT !in Slots(old(mem)[d])
      ensures r.NoTable? || r.NoPage? <==> !Present(Entry(old(mem), d, i))
      ensures r.NoPage? <==> i / NENT in Slots(old(mem)[d]) && !Present(Entry(old(mem), d, i))
      ensures r.OutOfMemory? <==>
        Present(Entry(old(mem), d, i)) && (old(free) == [] || (|old(free)| == 1 && i / NENT !in Slots(old(mem)[c])))
      ensures r.OutOfMemory? ==> lost == if old(free) == [] then {} else {old(free)[0]}
      ensures r.Copied? ==> lost == {} && CopiedAt(old(mem), mem, d, c, i)
      ensures r.Copied? ==> forall u :: 0 <= u < VPAGES && u != i ==> Entry(mem, c, u) == Entry(old(mem), c, u)
      ensures r.Copied? ==> Slots(mem[c]) == Slots(old(mem)[c]) + {i / NENT}
      ensures r.Copied? ==> |free| + |Slots(mem[c])| + 1 == |old(free)| + |Slots(old(mem)[c])|
      ensures Grows(old(mem), old(owner), mem, owner, c, 0, 0, lost) && Stranded(old(owner), owner, lost)
    {
      hide TableOk, PageOk, FreeOk, Ranged, Grows, Slots;
      GrowsSelf(mem, owner, c, 0, 0);
      lost := {};
      var t := Walkpgdir(d, i, false);
      if t == 0 {
        return NoTable, {};
      }
      EntryIs(mem, d, i, t);
      var pte := mem[t][i % NENT];
      if !Present(pte) {
        return NoPage, {};
      }
      assert UserOk(mem, owner, d, i);
      var mapped;
      mapped, lost := CopyFrame(c, i, pte);
      r := if mapped.Mapped? then Copied else OutOfMemory;
    }

    /** fork's copy. Copied: page for page below sz the child has the parent's flags and bytes, nothing else in its
        user half, the kernel's half of setupkvm; and no page outside the child changed. OutOfMemory: all is as before
        but for what is named as left (by setupkvm) or lost (one page at most). */
    method Copyuvm(d: nat, sz: nat, kmap: seq<Region>) returns (r: Copy, c: nat, ghost left: nat,
                                                                ghost lost: set<nat>)
      requires Valid() && d in dirs && sz <= KERNBASE && GoodKmap(kmap)
      modifies this
      ensures r.Copied? ==> Valid() && c !in old(dirs) && dirs == old(dirs) + {c} && |mem| == |old(mem)|
      ensures r.Copied? ==> Copying(old(mem), old(owner), mem, owner, d, c, kmap, Up(sz))
      ensures r.OutOfMemory? && left == 0 ==>
        Valid() && dirs == old(dirs) && |lost| <= 1 && Returned(old(mem), old(owner), mem, owner, lost)
      ensures r.OutOfMemory? && left != 0 ==>
        && Valid() && left !in old(dirs) && dirs == old(dirs) + {left} && free == []
        && Grows(old(mem), old(owner), mem, owner, left, 0, 0, {})
      ensures var (over, m) := (|old(free)| - KernelPages(kmap), Lead(old(mem), d, Up(sz)));
        && (r.Copied? <==> m == Up(sz) && Takes(m) <= over)
        && (r.NoTable? <==> m < Up(sz) && Takes(m) <= over && m / NENT !in Slots(old(mem)[d]))
        && (r.NoPage? <==> m < Up(sz) && Takes(m) <= over && m / NENT in Slots(old(mem)[d]))
        && (left != 0 <==> 0 < |old(free)| && over < 0)
        && (lost != {} <==> Loses(over, m))
    {
      hide Entry, Frame, Present, TableOk, UserOk, PageOk, FreeOk, Grows, Copying, Released, Returned, Stranded, Slots,
           Counted, Tables, Loses,
           KmapSlots, KernelPages, GoodKmap;
      ghost var over, m := |free| - KernelPages(kmap), Lead(mem, d, Up(sz));
      lost := {};
      c, left := Setupkvm(kmap);
      if c == 0 {
        if left == 0 {
          ReturnedSelf(mem, owner);
        }
        LosesNot(over, m);
        return OutOfMemory, 0, left, {};
      }
      left := 0;
      CopyStarts(old(mem), old(owner), mem, owner, d, c, kmap);
      CountedStarts(mem[c], |free|, |old(free)|, kmap);
      var i := 0;
      while i * 4096 < sz
        invariant i <= Up(sz) && Valid() && |mem| == |old(mem)| && dirs == old(dirs) + {c} && c !in old(dirs)
        invariant Copying(old(mem), old(owner), mem, owner, d, c, kmap, i)
        invariant Counted(mem[c], |free|, |old(free)|, kmap, i) && i <= m
        decreases Up(sz) - i
      {
        ghost var mem1, owner1, nfree := mem, owner, |free|;
        CopyAt(old(mem), old(owner), old(dirs), mem, owner, d, c, kmap, i);
        CountedIs(mem[c], nfree, |old(free)|, kmap, i);
        r, lost := CopyPage(d, c, i);
        if r.NoTable? || r.NoPage? {
          LosesNot(over, m);
          return r, 0, 0, {};
        }
        if r.OutOfMemory? {
          TakesMore(i, m);
          LosesOnlyAt(over, i, m);
          CopyGrew(old(mem), old(owner), mem1, owner1, mem, owner, d, c, kmap, i, lost);
          ghost var mem2, owner2 := mem, owner;
          var _ := Freevm(c);
          ReturnedAll(old(mem), old(owner), old(dirs), mem2, owner2, mem, owner, c, lost);
          assert old(dirs) + {c} - {c} == old(dirs);
          return OutOfMemory, 0, 0, lost;
        }
        CopyNext(old(mem), old(owner), old(dirs), mem1, owner1, dirs, mem, owner, d, c, kmap, i);
        CountedNext(mem1[c], nfree, mem[c], |free|, |old(free)|, kmap, i);
        i := i + 1;
      }
      CountedIs(mem[c], |free|, |old(free)|, kmap, i);
      LosesNot(over, m);
      return Copied, c, 0, {};
    }
  }

  /** No kernel region maps a user page, or needs its table. */
  lemma UserPageFree(kmap: seq<Region>, v: nat)
    requires GoodKmap(kmap) && v < USER
    ensures KernelEntry(kmap, |kmap|, v) == 0 && v / NENT !in KmapSlots(kmap, |kmap|)
  {
    NotYetMapped(kmap, |kmap|, v);
    if v / NENT in KmapSlots(kmap, |kmap|) {
      KmapSlotsHigh(kmap, |kmap|, v / NENT);
    }
  }

  /** A machine after boot with one process, whose one user page is v, and n more pages free. */
  method OnePageProcess(kmap: seq<Region>, mem: seq<Page>, v: nat, ghost n: nat) returns (m: Machine, d: nat)
    requires GoodKmap(kmap) && Sized(mem) && v < USER && |mem| == 1 + KernelPages(kmap) + 2 + n
    ensures fresh(m) && m.Valid() && |m.free| == n && d in m.dirs && d < |m.mem|
    ensures Present(Entry(m.mem, d, v)) && Slots(m.mem[d]) == KmapSlots(kmap, |kmap|) + {v / NENT}
  {
    hide GoodKmap, TableOk, UserOk, PageOk, FreeOk, KernelPages, KernelEntry, KmapSlots, Slots, Grows;
    UserPageFree(kmap, v);
    m := new Machine(mem, 1);
    var _ := m.Freerange(4096, 4096 * |mem|);
    ghost var left;
    d, left := m.Setupkvm(kmap);
    ghost var slots := Slots(m.mem[d]);
    var r, lost := m.CopyFrame(d, v, Pack(0, PTE_W + PTE_U));
    SlotTaken(slots, Slots(m.mem[d]), v / NENT);
  }

  /** setupkvm can leave its directory behind: from boot, with one page and a kernel map that needs more. */
  method SetupLeavesDirectory(kmap: seq<Region>, mem: seq<Page>) returns (m: Machine, d: nat, ghost left: nat)
    requires GoodKmap(kmap) && Sized(mem) && |mem| == 2 && KernelPages(kmap) > 1
    ensures d == 0 && m.Valid() && m.dirs == {left} && m.free == []
  {
    hide GoodKmap, TableOk, UserOk, PageOk, FreeOk, KernelPages, Grows;
    m := new Machine(mem, 1);
    var _ := m.Freerange(4096, 8192);
    d, left := m.Setupkvm(kmap);
  }

  /** kfree of a page that is already free succeeds, and breaks the free list. */
  method FreeTwice(mem: seq<Page>) returns (m: Machine, ok: bool)
    requires Sized(mem) && |mem| == 2
    ensures ok && !m.FreeListOk()
  {
    m := new Machine(mem, 1);
    var _ := m.Kfree(1);
    ok := m.Kfree(1);
  }

  /** fork can lose a page: for any kernel map, from boot, a process of one page forks with one page beyond the kernel's
      left. The copy fails, and that page is in no address space and not free. */
  method CopyLosesPage(kmap: seq<Region>, mem: seq<Page>) returns (m: Machine, r: Copy, ghost lost: set<nat>)
    requires GoodKmap(kmap) && Sized(mem) && |mem| == 2 * KernelPages(kmap) + 4
    ensures r.OutOfMemory? && m.Valid() && lost != {}
    ensures forall p :: p in lost ==> p < |m.owner| && m.owner[p].Other?
  {
    hide GoodKmap, TableOk, UserOk, PageOk, FreeOk, KernelPages, KmapSlots, Slots, ReturnedAt, Copying;
    var d;
    m, d := OnePageProcess(kmap, mem, 0, KernelPages(kmap) + 1);
    var c;
    ghost var left;
    r, c, left, lost := m.Copyuvm(d, 4096, kmap);
  }

  /** deallocuvm can leave a page: from boot, a process whose one page is 1024, shrunk from 8 MB to one page, keeps
      it. */
  method SweepCanMiss(kmap: seq<Region>, mem: seq<Page>) returns (m: Machine, d: nat, r: nat)
    requires GoodKmap(kmap) && Sized(mem) && |mem| == KernelPages(kmap) + 3
    ensures m.Valid() && d in m.dirs && r == 4096 && Present(Entry(m.mem, d, NENT))
  {
    hide GoodKmap, TableOk, UserOk, PageOk, FreeOk, KernelPages, KmapSlots, Shrinks;
    m, d := OnePageProcess(kmap, mem, NENT, 0);
    UserPageFree(kmap, 0);
    assert 0 !in Slots(m.mem[d]) && 1 in Slots(m.mem[d]);
    assert From(m.mem[d], 1, 2 * NENT) == NENT + 1 by {
      assert 1 / NENT == 0 && (1 + NENT) / NENT == 1;
    }
    ghost var was := m.mem;
    var ok;
    ok, r := m.Deallocuvm(d, 2 * NENT * 4096, 4096);
    assert UnmappedAt(was, m.mem, d, NENT + 1, 2 * NENT, NENT);
  }
}
