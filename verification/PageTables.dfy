/** Two-level page tables over physical pages, as xv6/vm.c keeps them, and who owns each page. A page is 1024 words; an
    address is a page number; an entry is frame * 4096 + flags, with the present bit lowest. */
module PageTables {

  const NENT: nat := 1024             // NPDENTRIES, NPTENTRIES
  const USER: nat := 0x8_0000         // user virtual pages, below KERNBASE
  const VPAGES: nat := 0x10_0000      // all virtual pages
  const PTE_P: nat := 1
  const PTE_W: nat := 2
  const PTE_U: nat := 4

  type Page = seq<nat>

  const ZEROPAGE: Page := seq(NENT, _ => 0)

  predicate Present(w: nat) {
    w % 2 == 1
  }

  function Frame(w: nat): nat {
    w / 4096
  }

  function Flags(w: nat): nat {
    w % 4096
  }

  /** flags | PTE_P */
  function WithP(flags: nat): nat {
    if flags % 2 == 1 then flags else flags + 1
  }

  /** pa | perm | PTE_P for the pa of a frame */
  function Pack(frame: nat, flags: nat): nat {
    4096 * frame + WithP(flags)
  }

  lemma PackExact(frame: nat, flags: nat)
    requires flags < 4096
    ensures Present(Pack(frame, flags)) && Frame(Pack(frame, flags)) == frame
    ensures Flags(Pack(frame, flags)) == WithP(flags)
  {
  }

  /** Who has a physical page: the free list, a page directory, a page table of one, a user page of one, or anyone
      else. */
  datatype Owner = Free(at: nat) | Dir | Table(d: nat, x: nat) | User(d: nat, v: nat) | Other

  predicate Sized(mem: seq<Page>) {
    forall p :: 0 <= p < |mem| ==> |mem[p]| == NENT
  }

  /** The page table entry of virtual page v under directory d; 0 when its table is missing. */
  function Entry(mem: seq<Page>, d: nat, v: nat): (w: nat)
    requires Sized(mem) && d < |mem| && v < VPAGES
  {
    var pde := mem[d][v / NENT];
    if Present(pde) && Frame(pde) < |mem| then mem[Frame(pde)][v % NENT] else 0
  }

  ghost predicate TableOk(mem: seq<Page>, owner: seq<Owner>, d: nat, x: nat)
    requires Sized(mem) && |owner| == |mem| && d < |mem| && x < NENT
  {
    Present(mem[d][x]) ==> Frame(mem[d][x]) < |mem| && owner[Frame(mem[d][x])] == Table(d, x)
  }

  ghost predicate UserOk(mem: seq<Page>, owner: seq<Owner>, d: nat, v: nat)
    requires Sized(mem) && |owner| == |mem| && d < |mem| && v < USER
  {
    var w := Entry(mem, d, v);
    Present(w) ==> Frame(w) < |mem| && owner[Frame(w)] == User(d, v)
  }

  ghost predicate PageOk(mem: seq<Page>, owner: seq<Owner>, dirs: set<nat>, p: nat)
    requires Sized(mem) && |owner| == |mem| && p < |mem|
  {
    match owner[p]
    case Dir => p in dirs
    case Table(d, x) => d in dirs && d < |mem| && x < NENT && Present(mem[d][x]) && Frame(mem[d][x]) == p
    case User(d, v) => d in dirs && d < |mem| && v < USER && Present(Entry(mem, d, v)) && Frame(Entry(mem, d, v)) == p
    case _ => true
  }

  /** The live address spaces: tables and user pages correspond one to one with the entries that name them. */
  ghost predicate Spaces(mem: seq<Page>, owner: seq<Owner>, dirs: set<nat>) {
    && Sized(mem) && |owner| == |mem|
    && (forall d :: d in dirs ==> d < |mem| && owner[d] == Dir)
    && (forall d, x :: d in dirs && 0 <= x < NENT ==> TableOk(mem, owner, d, x))
    && (forall d, v :: d in dirs && 0 <= v < USER ==> UserOk(mem, owner, d, v))
    && (forall p :: 0 <= p < |mem| ==> PageOk(mem, owner, dirs, p))
  }

  /** No user page is shared: not within an address space, not between two. */
  lemma UserPagesDisjoint(mem: seq<Page>, owner: seq<Owner>, dirs: set<nat>, d: nat, v: nat, d': nat, v': nat)
    requires Spaces(mem, owner, dirs) && d in dirs && d' in dirs && v < USER && v' < USER
    requires Present(Entry(mem, d, v)) && Present(Entry(mem, d', v'))
    requires Frame(Entry(mem, d, v)) == Frame(Entry(mem, d', v'))
    ensures d == d' && v == v'
  {
    assert UserOk(mem, owner, d, v) && UserOk(mem, owner, d', v');
  }

  // ---------------------------------------------------------------- writes outside the tables

  predicate Plain(o: Owner) {
    o.Free? || o.User? || o.Other?
  }

  /** Writing a page that is no table leaves every entry alone. */
  lemma EntryAfterWrite(mem: seq<Page>, owner: seq<Owner>, dirs: set<nat>, p: nat, page: Page, d: nat, v: nat)
    requires Spaces(mem, owner, dirs) && p < |mem| && |page| == NENT && Plain(owner[p]) && d in dirs && v < VPAGES
    ensures Entry(mem[p := page], d, v) == Entry(mem, d, v)
  {
    assert TableOk(mem, owner, d, v / NENT);
  }

  /** A store into a user page is seen at that page of that address space and nowhere else. */
  lemma WriteSeenOnce(mem: seq<Page>, owner: seq<Owner>, dirs: set<nat>, d: nat, v: nat, page: Page, e: nat, u: nat)
    requires Spaces(mem, owner, dirs) && d in dirs && e in dirs && v < USER && u < USER && |page| == NENT
    requires Present(Entry(mem, d, v)) && Present(Entry(mem, e, u))
    ensures Frame(Entry(mem, d, v)) < |mem| && Frame(Entry(mem, e, u)) < |mem|
    ensures var mem' := mem[Frame(Entry(mem, d, v)) := page];
      && Entry(mem', e, u) == Entry(mem, e, u)
      && mem'[Frame(Entry(mem', e, u))] == if e == d && u == v then page else mem[Frame(Entry(mem, e, u))]
  {
    assert UserOk(mem, owner, d, v) && UserOk(mem, owner, e, u);
    EntryAfterWrite(mem, owner, dirs, Frame(Entry(mem, d, v)), page, e, u);
    if Frame(Entry(mem, d, v)) == Frame(Entry(mem, e, u)) {
      UserPagesDisjoint(mem, owner, dirs, d, v, e, u);
    }
  }

  lemma WriteKeepsSpaces(mem: seq<Page>, owner: seq<Owner>, dirs: set<nat>, p: nat, page: Page)
    requires Spaces(mem, owner, dirs) && p < |mem| && |page| == NENT && Plain(owner[p])
    ensures Spaces(mem[p := page], owner, dirs)
  {
    var mem' := mem[p := page];
    forall d, x | d in dirs && 0 <= x < NENT
      ensures TableOk(mem', owner, d, x)
    {
      assert TableOk(mem, owner, d, x);
    }
    forall d, v | d in dirs && 0 <= v < USER
      ensures UserOk(mem', owner, d, v)
    {
      assert UserOk(mem, owner, d, v);
      EntryAfterWrite(mem, owner, dirs, p, page, d, v);
    }
    forall q | 0 <= q < |mem'|
      ensures PageOk(mem', owner, dirs, q)
    {
      assert PageOk(mem, owner, dirs, q);
      if owner[q].User? {
        EntryAfterWrite(mem, owner, dirs, p, page, owner[q].d, owner[q].v);
      }
    }
  }

  /** A page of no address space may change hands between the free list and everyone else. */
  lemma HandOver(mem: seq<Page>, owner: seq<Owner>, dirs: set<nat>, p: nat, o: Owner)
    requires Spaces(mem, owner, dirs) && p < |mem| && (owner[p].Free? || owner[p].Other?) && (o.Free? || o.Other?)
    ensures Spaces(mem, owner[p := o], dirs)
  {
    var owner' := owner[p := o];
    forall d, x | d in dirs && 0 <= x < NENT
      ensures TableOk(mem, owner', d, x)
    {
      assert TableOk(mem, owner, d, x);
    }
    forall d, v | d in dirs && 0 <= v < USER
      ensures UserOk(mem, owner', d, v)
    {
      assert UserOk(mem, owner, d, v);
    }
    forall q | 0 <= q < |mem|
      ensures PageOk(mem, owner', dirs, q)
    {
      assert PageOk(mem, owner, dirs, q);
    }
  }

  // ---------------------------------------------------------------- a new directory

  lemma NewDir(mem: seq<Page>, owner: seq<Owner>, dirs: set<nat>, d: nat)
    requires Spaces(mem, owner, dirs) && d < |mem| && owner[d].Other? && mem[d] == ZEROPAGE
    ensures Spaces(mem, owner[d := Dir], dirs + {d})
    ensures forall v :: 0 <= v < VPAGES ==> Entry(mem, d, v) == 0
  {
    var owner', dirs' := owner[d := Dir], dirs + {d};
    forall e, x | e in dirs' && 0 <= x < NENT
      ensures TableOk(mem, owner', e, x)
    {
      if e != d {
        assert TableOk(mem, owner, e, x);
      }
    }
    forall e, v | e in dirs' && 0 <= v < USER
      ensures UserOk(mem, owner', e, v)
    {
      if e != d {
        assert UserOk(mem, owner, e, v);
      }
    }
    forall q | 0 <= q < |mem|
      ensures PageOk(mem, owner', dirs', q)
    {
      assert PageOk(mem, owner, dirs, q);
    }
  }

  // ---------------------------------------------------------------- a new table

  /** *pde = v2p(pgtab) | flags */
  function SetWord(mem: seq<Page>, p: nat, x: nat, w: nat): (r: seq<Page>)
    requires Sized(mem) && p < |mem| && x < NENT
    ensures |r| == |mem| && Sized(r)
  {
    var page: Page := mem[p][x := w];
    mem[p := page]
  }

  lemma EntryAfterTable(mem: seq<Page>, owner: seq<Owner>, dirs: set<nat>, d: nat, x: nat, t: nat, flags: nat, e: nat,
                        v: nat)
    requires Spaces(mem, owner, dirs) && d in dirs && x < NENT && !Present(mem[d][x]) && flags < 4096
    requires t < |mem| && owner[t].Other? && mem[t] == ZEROPAGE && e in dirs && v < VPAGES
    ensures Entry(SetWord(mem, d, x, Pack(t, flags)), e, v) == Entry(mem, e, v)
  {
    PackExact(t, flags);
    hide Pack, Frame, Present;
    assert TableOk(mem, owner, e, v / NENT);
  }

  lemma NewTable(mem: seq<Page>, owner: seq<Owner>, dirs: set<nat>, d: nat, x: nat, t: nat, flags: nat)
    requires Spaces(mem, owner, dirs) && d in dirs && x < NENT && !Present(mem[d][x]) && flags < 4096
    requires t < |mem| && owner[t].Other? && mem[t] == ZEROPAGE
    ensures Spaces(SetWord(mem, d, x, Pack(t, flags)), owner[t := Table(d, x)], dirs)
  {
    var mem', owner' := SetWord(mem, d, x, Pack(t, flags)), owner[t := Table(d, x)];
    PackExact(t, flags);
    hide Pack, Frame, Present;
    forall e, y | e in dirs && 0 <= y < NENT
      ensures TableOk(mem', owner', e, y)
    {
      assert TableOk(mem, owner, e, y);
    }
    forall e, v | e in dirs && 0 <= v < USER
      ensures UserOk(mem', owner', e, v)
    {
      assert UserOk(mem, owner, e, v);
      EntryAfterTable(mem, owner, dirs, d, x, t, flags, e, v);
    }
    forall q | 0 <= q < |mem'|
      ensures PageOk(mem', owner', dirs, q)
    {
      assert PageOk(mem, owner, dirs, q);
      if owner[q].User? {
        EntryAfterTable(mem, owner, dirs, d, x, t, flags, owner[q].d, owner[q].v);
      }
    }
  }

  // ---------------------------------------------------------------- setting an entry

  /** The memory with the entry of virtual page v, whose table is there, set to w. */
  function SetEntry(mem: seq<Page>, d: nat, v: nat, w: nat): (r: seq<Page>)
    requires Sized(mem) && d < |mem| && v < VPAGES && Present(mem[d][v / NENT]) && Frame(mem[d][v / NENT]) < |mem|
    ensures |r| == |mem| && Sized(r)
  {
    SetWord(mem, Frame(mem[d][v / NENT]), v % NENT, w)
  }

  lemma SamePage(v: nat, v': nat)
    requires v / NENT == v' / NENT && v % NENT == v' % NENT
    ensures v == v'
  {
  }

  lemma EntryAfterSet(mem: seq<Page>, owner: seq<Owner>, dirs: set<nat>, d: nat, v: nat, w: nat, e: nat, v': nat)
    requires Spaces(mem, owner, dirs) && d in dirs && v < VPAGES && Present(mem[d][v / NENT])
    requires Frame(mem[d][v / NENT]) < |mem|
    requires e in dirs && v' < VPAGES
    ensures Entry(SetEntry(mem, d, v, w), e, v') == if e == d && v' == v then w else Entry(mem, e, v')
  {
    hide Frame, Present;
    assert TableOk(mem, owner, d, v / NENT) && TableOk(mem, owner, e, v' / NENT);
    if v / NENT == v' / NENT && v % NENT == v' % NENT {
      SamePage(v, v');
    }
  }

  /** The owners around an entry of the user half set to w; the page it named, if any, is nobody's. */
  lemma SetKeepsSpaces(mem: seq<Page>, owner: seq<Owner>, owner': seq<Owner>, dirs: set<nat>, d: nat, v: nat, w: nat)
    requires Spaces(mem, owner, dirs) && d in dirs && v < VPAGES && Present(mem[d][v / NENT])
    requires Frame(mem[d][v / NENT]) < |mem|
    requires |owner'| == |owner|
    requires v < USER && Present(w) ==> Frame(w) < |mem| && owner[Frame(w)].Other?
    requires forall p :: 0 <= p < |owner| ==>
      owner'[p] == if v < USER && Present(w) && p == Frame(w) then User(d, v)
                   else if owner[p] == User(d, v) then Other else owner[p]
    ensures Spaces(SetEntry(mem, d, v, w), owner', dirs)
  {
    var mem' := SetEntry(mem, d, v, w);
    hide Frame, Present;
    assert TableOk(mem, owner, d, v / NENT);
    forall e, x | e in dirs && 0 <= x < NENT
      ensures TableOk(mem', owner', e, x)
    {
      assert TableOk(mem, owner, e, x);
    }
    forall e, u | e in dirs && 0 <= u < USER
      ensures UserOk(mem', owner', e, u)
    {
      assert UserOk(mem, owner, e, u);
      EntryAfterSet(mem, owner, dirs, d, v, w, e, u);
    }
    forall q | 0 <= q < |mem'|
      ensures PageOk(mem', owner', dirs, q)
    {
      assert PageOk(mem, owner, dirs, q);
      if owner'[q].User? {
        EntryAfterSet(mem, owner, dirs, d, v, w, owner'[q].d, owner'[q].v);
      }
    }
  }

  // ---------------------------------------------------------------- dropping a directory

  /** The owners when directory d, whose user pages are gone, and its tables are given up. */
  function Orphaned(owner: seq<Owner>, d: nat): (r: seq<Owner>)
    ensures |r| == |owner|
  {
    seq(|owner|, p requires 0 <= p < |owner| =>
      if p == d || (owner[p].Table? && owner[p].d == d) then Other else owner[p])
  }

  lemma DropDir(mem: seq<Page>, owner: seq<Owner>, dirs: set<nat>, d: nat)
    requires Spaces(mem, owner, dirs) && d in dirs && forall v :: 0 <= v < USER ==> !Present(Entry(mem, d, v))
    ensures Spaces(mem, Orphaned(owner, d), dirs - {d})
  {
    var owner', dirs' := Orphaned(owner, d), dirs - {d};
    forall e, x | e in dirs' && 0 <= x < NENT
      ensures TableOk(mem, owner', e, x)
    {
      assert TableOk(mem, owner, e, x);
    }
    forall e, v | e in dirs' && 0 <= v < USER
      ensures UserOk(mem, owner', e, v)
    {
      assert UserOk(mem, owner, e, v);
    }
    forall q | 0 <= q < |mem|
      ensures PageOk(mem, owner', dirs', q)
    {
      assert PageOk(mem, owner, dirs, q);
    }
  }
}
