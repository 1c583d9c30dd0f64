/** The life cycle of processes in xv6/proc.c: allocproc, fork, exit, wait, kill and the scheduler over
    the process table. Code that runs under ptable.lock is one step; what fork does without it is a
    sequence of steps. */
module ExitWait {

  datatype ProcState = UNUSED | EMBRYO | SLEEPING | RUNNABLE | RUNNING | ZOMBIE

  /** How far a process is in fork, and with which slot. */
  datatype Forking = NotForking | Allocated(np: nat) | Stacked(np: nat) | Copied(np: nat)

  const NONE: int := -1

  /** parent and chan are process numbers or NONE; a chan that is no process number stands for any
      other channel. kstack and pgdir: the process owns one. */
  datatype Proc = Proc(
    state: ProcState, pid: nat, parent: int, chan: int, killed: bool,
    kstack: bool, pgdir: bool, waiting: bool, forking: Forking)

  /** History: process `pid` was reaped by the process `parent` that was then its parent. */
  datatype Reap = Reap(pid: nat, parent: nat)

  datatype Table = Table(procs: seq<Proc>, init: nat, nextpid: nat, reaped: seq<Reap>)

  datatype Step =
    | Schedule(p: nat) | Yield(p: nat)
    | SleepOther(p: nat, chan: int) | WakeOther(chan: int) | Kill(pid: nat, i: nat)
    | AllocProc(p: nat, np: nat) | AllocStack(p: nat) | NoStack(p: nat)
    | CopyMemory(p: nat) | NoMemory(p: nat) | MakeRunnable(p: nat)
    | Exit(p: nat)
    | Wait(p: nat) | WaitReap(p: nat, c: nat) | WaitFail(p: nat) | WaitSleep(p: nat)

  // ---------------------------------------------------------------- table scans

  /** wakeup1(chan) */
  function WakeAll(procs: seq<Proc>, chan: int): (r: seq<Proc>)
    ensures |r| == |procs|
  {
    seq(|procs|, i requires 0 <= i < |procs| => Wake(procs[i], chan))
  }

  function Wake(p: Proc, chan: int): Proc {
    if p.state == SLEEPING && p.chan == chan then p.(state := RUNNABLE) else p
  }

  ghost predicate HasChild(procs: seq<Proc>, p: int) {
    exists c :: 0 <= c < |procs| && procs[c].parent == p
  }

  ghost predicate HasZombie(procs: seq<Proc>, p: int) {
    exists c :: 0 <= c < |procs| && procs[c].parent == p && procs[c].state == ZOMBIE
  }

  /** Children of p become init's. */
  function Adopt(procs: seq<Proc>, p: int, init: int): (r: seq<Proc>)
    ensures |r| == |procs|
  {
    seq(|procs|, i requires 0 <= i < |procs| => if procs[i].parent == p then procs[i].(parent := init) else procs[i])
  }

  /** exit() under the lock: wake the parent, give the children to init, become a zombie. */
  ghost function ExitTable(procs: seq<Proc>, p: nat, init: nat): (r: seq<Proc>)
    requires p < |procs|
    ensures |r| == |procs|
  {
    var woken := WakeAll(procs, procs[p].parent);
    var adopted := Adopt(woken, p, init);
    var told := if HasZombie(woken, p) then WakeAll(adopted, init) else adopted;
    told[p := told[p].(state := ZOMBIE)]
  }

  /** wait() frees what a zombie still owns. */
  function Reaped(p: Proc): Proc {
    p.(kstack := false, pgdir := false, state := UNUSED, pid := 0, parent := NONE, killed := false)
  }

  // ---------------------------------------------------------------- steps

  ghost predicate Enabled(t: Table, step: Step) {
    match step
    case Schedule(p) => p < |t.procs| && t.procs[p].state == RUNNABLE
    case WakeOther(chan) => !(0 <= chan < |t.procs|) && chan != NONE
    case Kill(pid, i) => FirstPid(t.procs, pid, i)
    case Yield(p) => Runs(t, p)
    case SleepOther(p, chan) => Runs(t, p) && !(0 <= chan < |t.procs|) && chan != NONE && !t.procs[p].waiting
    case AllocProc(p, np) => Runs(t, p) && Free(t, p) && FirstUnused(t.procs, np)
    case AllocStack(p) => Runs(t, p) && t.procs[p].forking.Allocated? && t.procs[p].forking.np < |t.procs|
    case NoStack(p) => Runs(t, p) && t.procs[p].forking.Allocated? && t.procs[p].forking.np < |t.procs|
    case CopyMemory(p) => Runs(t, p) && t.procs[p].forking.Stacked? && t.procs[p].forking.np < |t.procs|
    case NoMemory(p) => Runs(t, p) && t.procs[p].forking.Stacked? && t.procs[p].forking.np < |t.procs|
    case MakeRunnable(p) => Runs(t, p) && t.procs[p].forking.Copied? && t.procs[p].forking.np < |t.procs|
    case Exit(p) => Runs(t, p) && Free(t, p) && p != t.init
    case Wait(p) => Runs(t, p) && Free(t, p)
    case WaitReap(p, c) => Runs(t, p) && t.procs[p].waiting && FirstZombie(t.procs, p, c)
    case WaitFail(p) =>
      && Runs(t, p) && t.procs[p].waiting && !HasZombie(t.procs, p)
      && (!HasChild(t.procs, p) || t.procs[p].killed)
    case WaitSleep(p) =>
      && Runs(t, p) && t.procs[p].waiting && !HasZombie(t.procs, p)
      && HasChild(t.procs, p) && !t.procs[p].killed
  }

  predicate Runs(t: Table, p: nat) {
    p < |t.procs| && t.procs[p].state == RUNNING
  }

  /** Neither in fork nor in wait. */
  predicate Free(t: Table, p: nat)
    requires p < |t.procs|
  {
    t.procs[p].forking == NotForking && !t.procs[p].waiting
  }

  /** The slot that allocproc's scan stops at. */
  ghost predicate FirstUnused(procs: seq<Proc>, np: nat) {
    && np < |procs| && procs[np].state == UNUSED
    && forall i :: 0 <= i < np ==> procs[i].state != UNUSED
  }

  /** The child that wait's scan stops at. */
  ghost predicate FirstZombie(procs: seq<Proc>, p: nat, c: nat) {
    && c < |procs| && procs[c].parent == p && procs[c].state == ZOMBIE
    && forall i :: 0 <= i < c ==> !(procs[i].parent == p && procs[i].state == ZOMBIE)
  }

  /** The process that kill's scan stops at. */
  ghost predicate FirstPid(procs: seq<Proc>, pid: nat, i: nat) {
    && i < |procs| && procs[i].pid == pid
    && forall j :: 0 <= j < i ==> procs[j].pid != pid
  }

  function Set(t: Table, p: nat, proc: Proc): Table
    requires p < |t.procs|
  {
    t.(procs := t.procs[p := proc])
  }

  /** Two entries, of the forking process p and of its new slot. */
  function Set2(t: Table, p: nat, proc: Proc, np: nat, child: Proc): Table
    requires p < |t.procs| && np < |t.procs|
  {
    t.(procs := t.procs[np := child][p := proc])
  }

  ghost function Do(t: Table, step: Step): (t': Table)
    requires Enabled(t, step)
  {
    match step
    case Schedule(p) => Set(t, p, t.procs[p].(state := RUNNING))
    case Yield(p) => Set(t, p, t.procs[p].(state := RUNNABLE))
    case SleepOther(p, chan) => Set(t, p, t.procs[p].(state := SLEEPING, chan := chan))
    case WakeOther(chan) => t.(procs := WakeAll(t.procs, chan))
    case Kill(pid, i) =>
      var q := t.procs[i].(killed := true);
      Set(t, i, if q.state == SLEEPING then q.(state := RUNNABLE) else q)
    case AllocProc(p, np) =>
      Set2(t, p, t.procs[p].(forking := Allocated(np)),
           np, t.procs[np].(state := EMBRYO, pid := t.nextpid)).(nextpid := t.nextpid + 1)
    case AllocStack(p) =>
      var np := t.procs[p].forking.np;
      Set2(t, p, t.procs[p].(forking := Stacked(np)), np, t.procs[np].(kstack := true))
    case NoStack(p) =>
      var np := t.procs[p].forking.np;
      Set2(t, p, t.procs[p].(forking := NotForking), np, t.procs[np].(state := UNUSED))
    case CopyMemory(p) =>
      var np := t.procs[p].forking.np;
      Set2(t, p, t.procs[p].(forking := Copied(np)), np, t.procs[np].(pgdir := true, parent := p))
    case NoMemory(p) =>
      var np := t.procs[p].forking.np;
      Set2(t, p, t.procs[p].(forking := NotForking), np, t.procs[np].(kstack := false, state := UNUSED))
    case MakeRunnable(p) =>
      var np := t.procs[p].forking.np;
      Set2(t, p, t.procs[p].(forking := NotForking), np, t.procs[np].(state := RUNNABLE))
    case Exit(p) => t.(procs := ExitTable(t.procs, p, t.init))
    case Wait(p) => Set(t, p, t.procs[p].(waiting := true))
    case WaitReap(p, c) =>
      var procs := t.procs[c := Reaped(t.procs[c])];
      t.(procs := procs[p := procs[p].(waiting := false)], reaped := t.reaped + [Reap(t.procs[c].pid, p)])
    case WaitFail(p) => Set(t, p, t.procs[p].(waiting := false))
    case WaitSleep(p) => Set(t, p, t.procs[p].(state := SLEEPING, chan := p))
  }

  /** The first process alone; pids 1 and up are handed out from here. */
  function Init(n: nat): (t: Table)
    requires n > 0
  {
    var unused := Proc(UNUSED, 0, NONE, NONE, false, false, false, false, NotForking);
    Table(seq(n, i => if i == 0 then Proc(RUNNABLE, 1, NONE, NONE, false, true, true, false, NotForking) else unused),
          0, 2, [])
  }

  // ---------------------------------------------------------------- invariant

  predicate Alive(s: ProcState) {
    s == SLEEPING || s == RUNNABLE || s == RUNNING
  }

  ghost predicate HasForker(procs: seq<Proc>, np: nat) {
    exists p :: 0 <= p < |procs| && procs[p].forking != NotForking && procs[p].forking.np == np
  }

  /** The process in fork with slot np. */
  ghost function Forker(procs: seq<Proc>, np: nat): (p: nat)
    requires HasForker(procs, np)
    ensures p < |procs| && procs[p].forking != NotForking && procs[p].forking.np == np
  {
    var p :| 0 <= p < |procs| && procs[p].forking != NotForking && procs[p].forking.np == np;
    p
  }

  /** The slot of a process in fork is its own embryo, with what fork has given it so far. */
  ghost predicate ForkOk(procs: seq<Proc>, i: nat)
    requires i < |procs|
  {
    procs[i].forking != NotForking ==>
      var np := procs[i].forking.np;
      && np < |procs| && np != i && procs[np].state == EMBRYO && Forker(procs, np) == i
      && match procs[i].forking
         case Allocated(_) => procs[np].parent == NONE && !procs[np].kstack && !procs[np].pgdir
         case Stacked(_) => procs[np].parent == NONE && procs[np].kstack && !procs[np].pgdir
         case Copied(_) => procs[np].parent == i && procs[np].kstack && procs[np].pgdir
         case NotForking => true
  }

  /** What a process owns, and that its parent is alive. */
  predicate Owns(procs: seq<Proc>, init: nat, i: nat)
    requires i < |procs|
  {
    var p := procs[i];
    && (p.state == UNUSED ==> p.parent == NONE && !p.kstack && !p.pgdir)
    && (Alive(p.state) || p.state == ZOMBIE ==> p.kstack && p.pgdir && (p.parent == NONE <==> i == init))
    && (p.parent != NONE ==> 0 <= p.parent < |procs| && p.parent != i && Alive(procs[p.parent].state))
    && (p.parent != NONE && p.state == EMBRYO ==> procs[p.parent].forking == Copied(i))
  }

  /** Only a running process is in fork; a process asleep in wait has no zombie child. */
  ghost predicate Waits(procs: seq<Proc>, i: nat)
    requires i < |procs|
  {
    var p := procs[i];
    && (p.waiting ==> Alive(p.state) && p.forking == NotForking)
    && (p.forking != NotForking ==> Alive(p.state))
    && (p.state == SLEEPING && p.waiting ==> p.chan == i && !HasZombie(procs, i))
    && (p.state == SLEEPING && !p.waiting ==> !(0 <= p.chan < |procs|))
  }

  ghost predicate Inv(t: Table) {
    && t.init < |t.procs| && Alive(t.procs[t.init].state)
    && forall i :: 0 <= i < |t.procs| ==> ForkOk(t.procs, i) && Owns(t.procs, t.init, i) && Waits(t.procs, i)
  }

  // ---------------------------------------------------------------- steps that keep everyone's place

  /** Same place in the family, same possessions, same stage of fork. */
  predicate SamePlace(p: Proc, q: Proc) {
    && p.parent == q.parent && p.kstack == q.kstack && p.pgdir == q.pgdir && p.forking == q.forking
    && (p.state == q.state || (Alive(p.state) && Alive(q.state)))
  }

  ghost predicate SamePlaces(a: seq<Proc>, b: seq<Proc>) {
    |a| == |b| && forall i :: 0 <= i < |a| ==> SamePlace(a[i], b[i])
  }

  lemma SameZombies(a: seq<Proc>, b: seq<Proc>, p: int)
    requires SamePlaces(a, b)
    ensures HasZombie(a, p) <==> HasZombie(b, p)
  {
    if c :| 0 <= c < |a| && a[c].parent == p && a[c].state == ZOMBIE { assert b[c].state == ZOMBIE; }
    if c :| 0 <= c < |b| && b[c].parent == p && b[c].state == ZOMBIE { assert a[c].state == ZOMBIE; }
  }

  lemma SameForks(a: seq<Proc>, b: seq<Proc>, i: nat)
    requires |a| == |b| && i < |a| && ForkOk(a, i) && b[i].forking == a[i].forking
    requires forall j :: 0 <= j < |a| && b[j].forking != NotForking ==> a[j].forking == b[j].forking && ForkOk(a, j)
    requires b[i].forking != NotForking ==>
               var np := a[i].forking.np;
               && b[np].state == EMBRYO && b[np].parent == a[np].parent
               && b[np].kstack == a[np].kstack && b[np].pgdir == a[np].pgdir
    ensures ForkOk(b, i)
  {
    if b[i].forking != NotForking {
      var q := Forker(b, b[i].forking.np);
      assert ForkOk(a, q);
    }
  }

  lemma PlacesKept(t: Table, procs': seq<Proc>)
    requires Inv(t) && SamePlaces(t.procs, procs')
    requires forall i :: 0 <= i < |procs'| ==> Waits(procs', i)
    ensures Inv(t.(procs := procs'))
  {
    forall i | 0 <= i < |procs'|
      ensures ForkOk(procs', i) && Owns(procs', t.init, i)
    {
      SameForks(t.procs, procs', i);
    }
  }

  lemma WakeKeepsInv(t: Table, chan: int)
    requires Inv(t)
    ensures Inv(t.(procs := WakeAll(t.procs, chan)))
  {
    var procs' := WakeAll(t.procs, chan);
    assert SamePlaces(t.procs, procs');
    forall i | 0 <= i < |procs'|
      ensures Waits(procs', i)
    {
      SameZombies(t.procs, procs', i);
      assert Waits(t.procs, i);
    }
    PlacesKept(t, procs');
  }

  /** One live process changes state, channel or its place in wait. */
  lemma OneKeepsInv(t: Table, p: nat, proc: Proc)
    requires Inv(t) && p < |t.procs| && SamePlace(t.procs[p], proc)
    requires proc.waiting ==> Alive(proc.state) && proc.forking == NotForking
    requires proc.state == SLEEPING && proc.waiting ==> proc.chan == p && !HasZombie(t.procs, p)
    requires proc.state == SLEEPING && !proc.waiting ==> !(0 <= proc.chan < |t.procs|)
    ensures Inv(Set(t, p, proc))
  {
    var procs' := t.procs[p := proc];
    assert SamePlaces(t.procs, procs');
    forall i | 0 <= i < |procs'|
      ensures Waits(procs', i)
    {
      SameZombies(t.procs, procs', i);
      assert Waits(t.procs, i);
    }
    PlacesKept(t, procs');
  }

  // ---------------------------------------------------------------- fork

  /** What fork at stage f has made of its slot. */
  predicate Stage(f: Forking, p: nat, np: nat, child: Proc) {
    match f
    case NotForking =>
      if child.state == UNUSED then child.parent == NONE && !child.kstack && !child.pgdir
      else child.state == RUNNABLE && child.parent == p && child.kstack && child.pgdir
    case Allocated(n) => n == np && child.state == EMBRYO && child.parent == NONE && !child.kstack && !child.pgdir
    case Stacked(n) => n == np && child.state == EMBRYO && child.parent == NONE && child.kstack && !child.pgdir
    case Copied(n) => n == np && child.state == EMBRYO && child.parent == p && child.kstack && child.pgdir
  }

  /** No other process has the slot, as embryo or as parent. */
  predicate OwnSlot(procs: seq<Proc>, p: nat, np: nat) {
    && p < |procs| && np < |procs| && p != np
    && Alive(procs[p].state) && (procs[np].state == UNUSED || procs[np].state == EMBRYO)
    && forall j :: 0 <= j < |procs| && j != p && procs[j].forking != NotForking ==> procs[j].forking.np != np
  }

  /** The table after a step of fork by p on slot np. */
  ghost predicate ForkStep(t: Table, p: nat, f: Forking, np: nat, child: Proc, procs': seq<Proc>) {
    && Inv(t) && OwnSlot(t.procs, p, np) && !t.procs[p].waiting
    && (t.procs[p].forking == NotForking || t.procs[p].forking.np == np)
    && Stage(f, p, np, child) && !child.waiting && child.forking == NotForking
    && procs' == t.procs[np := child][p := t.procs[p].(forking := f)]
  }

  lemma ForkKeepsForks(t: Table, p: nat, f: Forking, np: nat, child: Proc, procs': seq<Proc>, i: nat)
    requires ForkStep(t, p, f, np, child, procs') && i < |procs'|
    ensures ForkOk(procs', i)
  {
    assert ForkOk(t.procs, i);
    if i == p {
      if f != NotForking { assert procs'[p].forking == f && f.np == np; }
    } else if i != np {
      ForkOkOther(t.procs, procs', p, np, i);
    }
  }

  lemma ForkKeepsOwns(t: Table, p: nat, f: Forking, np: nat, child: Proc, procs': seq<Proc>, i: nat)
    requires ForkStep(t, p, f, np, child, procs') && i < |procs'|
    ensures Owns(procs', t.init, i)
  {
    assert Owns(t.procs, t.init, i) && ForkOk(t.procs, p);
  }

  lemma ForkKeepsWaits(t: Table, p: nat, f: Forking, np: nat, child: Proc, procs': seq<Proc>, i: nat)
    requires ForkStep(t, p, f, np, child, procs') && i < |procs'|
    ensures Waits(procs', i)
  {
    assert Waits(t.procs, i);
    if c :| 0 <= c < |procs'| && procs'[c].parent == i && procs'[c].state == ZOMBIE {
      assert t.procs[c].parent == i && t.procs[c].state == ZOMBIE;
    }
  }

  lemma ForkStepKeepsInv(t: Table, p: nat, f: Forking, np: nat, child: Proc)
    requires p < |t.procs| && np < |t.procs|
    requires ForkStep(t, p, f, np, child, t.procs[np := child][p := t.procs[p].(forking := f)])
    ensures Inv(Set2(t, p, t.procs[p].(forking := f), np, child))
  {
    var procs' := t.procs[np := child][p := t.procs[p].(forking := f)];
    forall i | 0 <= i < |procs'|
      ensures ForkOk(procs', i) && Owns(procs', t.init, i) && Waits(procs', i)
    {
      ForkKeepsForks(t, p, f, np, child, procs', i);
      ForkKeepsOwns(t, p, f, np, child, procs', i);
      ForkKeepsWaits(t, p, f, np, child, procs', i);
    }
  }

  lemma ForkOkOther(procs: seq<Proc>, procs': seq<Proc>, p: nat, np: nat, i: nat)
    requires |procs'| == |procs| && OwnSlot(procs, p, np) && i < |procs| && i != p && i != np && ForkOk(procs, i)
    requires forall j :: 0 <= j < |procs| && j != p && j != np ==> procs'[j] == procs[j]
    requires procs'[np].forking == NotForking
    requires procs'[p].forking == NotForking || procs'[p].forking.np == np
    requires procs'[p].state == procs[p].state && procs'[p].parent == procs[p].parent
    requires forall j :: 0 <= j < |procs| ==> ForkOk(procs, j)
    ensures ForkOk(procs', i)
  {
    if procs[i].forking != NotForking {
      var m := procs[i].forking.np;
      assert HasForker(procs', m);
      var q := Forker(procs', m);
      assert ForkOk(procs, q);
      assert m != p;
    }
  }

  // ---------------------------------------------------------------- exit

  /** The second half of exit(), from a table where the parent is awake. */
  ghost predicate ExitStep(t: Table, p: nat, procs': seq<Proc>) {
    && Inv(t) && p < |t.procs| && t.procs[p].state == RUNNING && Free(t, p) && p != t.init
    && 0 <= t.procs[p].parent < |t.procs|
    && !(t.procs[t.procs[p].parent].state == SLEEPING && t.procs[t.procs[p].parent].waiting)
    && var adopted := Adopt(t.procs, p, t.init);
       var told := if HasZombie(t.procs, p) then WakeAll(adopted, t.init) else adopted;
       procs' == told[p := told[p].(state := ZOMBIE)]
  }

  /** What becomes of each entry. */
  lemma ExitEntry(t: Table, p: nat, procs': seq<Proc>, i: nat)
    requires ExitStep(t, p, procs') && i < |procs'|
    ensures |procs'| == |t.procs|
    ensures procs'[i].kstack == t.procs[i].kstack && procs'[i].pgdir == t.procs[i].pgdir
    ensures procs'[i].forking == t.procs[i].forking && procs'[i].waiting == t.procs[i].waiting
    ensures procs'[i].chan == t.procs[i].chan
    ensures procs'[i].parent == if t.procs[i].parent == p then t.init else t.procs[i].parent
    ensures i == p ==> procs'[i].state == ZOMBIE
    ensures i != p && procs'[i].state != t.procs[i].state ==>
              HasZombie(t.procs, p) && t.procs[i].state == SLEEPING && t.procs[i].chan == t.init &&
              procs'[i].state == RUNNABLE
    ensures i != p && HasZombie(t.procs, p) && t.procs[i].chan == t.init ==> procs'[i].state != SLEEPING
  {
  }

  lemma ExitKeepsOwns(t: Table, p: nat, procs': seq<Proc>, i: nat)
    requires ExitStep(t, p, procs') && i < |procs'|
    ensures Owns(procs', t.init, i)
  {
    ExitEntry(t, p, procs', i);
    ExitEntry(t, p, procs', t.init);
    assert Owns(t.procs, t.init, i) && Owns(t.procs, t.init, t.init);
    if procs'[i].parent != NONE { ExitEntry(t, p, procs', procs'[i].parent); }
  }

  lemma ExitKeepsForks(t: Table, p: nat, procs': seq<Proc>, i: nat)
    requires ExitStep(t, p, procs') && i < |procs'|
    ensures ForkOk(procs', i)
  {
    assert ForkOk(t.procs, i);
    forall j: nat | j < |procs'|
      ensures procs'[j].forking == t.procs[j].forking
    {
      ExitEntry(t, p, procs', j);
    }
    if procs'[i].forking != NotForking { ExitEntry(t, p, procs', t.procs[i].forking.np); }
    SameForks(t.procs, procs', i);
  }

  /** A zombie child after exit was one before, is p itself, or came to init with a wakeup. */
  lemma ExitKeepsWaits(t: Table, p: nat, procs': seq<Proc>, i: nat)
    requires ExitStep(t, p, procs') && i < |procs'|
    ensures Waits(procs', i)
  {
    ExitEntry(t, p, procs', i);
    assert Waits(t.procs, i);
    if procs'[i].state == SLEEPING && procs'[i].waiting {
      forall c: nat | c < |procs'| && procs'[c].parent == i
        ensures procs'[c].state != ZOMBIE
      {
        ExitEntry(t, p, procs', c);
        assert Owns(t.procs, t.init, c);
      }
    }
  }

  lemma ExitKeepsInv(t: Table, p: nat)
    requires Inv(t) && Enabled(t, Exit(p))
    ensures Inv(Do(t, Exit(p)))
  {
    assert Owns(t.procs, t.init, p);
    var q := t.procs[p].parent;
    WakeKeepsInv(t, q);
    var t1, procs' := t.(procs := WakeAll(t.procs, q)), Do(t, Exit(p)).procs;
    assert Waits(t.procs, q);
    assert ExitStep(t1, p, procs');
    forall i: nat | i < |procs'|
      ensures ForkOk(procs', i) && Owns(procs', t.init, i) && Waits(procs', i)
    {
      ExitKeepsForks(t1, p, procs', i);
      ExitKeepsOwns(t1, p, procs', i);
      ExitKeepsWaits(t1, p, procs', i);
    }
    ExitEntry(t1, p, procs', t.init);
  }

  // ---------------------------------------------------------------- wait

  lemma ReapKeepsForks(t: Table, p: nat, c: nat, i: nat)
    requires Inv(t) && Enabled(t, WaitReap(p, c)) && i < |t.procs|
    ensures ForkOk(Do(t, WaitReap(p, c)).procs, i)
  {
    var procs' := Do(t, WaitReap(p, c)).procs;
    assert ForkOk(t.procs, i) && Owns(t.procs, t.init, c) && Waits(t.procs, c);
    SameForks(t.procs, procs', i);
  }

  lemma ReapKeepsOwns(t: Table, p: nat, c: nat, i: nat)
    requires Inv(t) && Enabled(t, WaitReap(p, c)) && i < |t.procs|
    ensures Owns(Do(t, WaitReap(p, c)).procs, t.init, i)
  {
    assert Owns(t.procs, t.init, i) && Owns(t.procs, t.init, c);
  }

  lemma ReapKeepsWaits(t: Table, p: nat, c: nat, i: nat)
    requires Inv(t) && Enabled(t, WaitReap(p, c)) && i < |t.procs|
    ensures Waits(Do(t, WaitReap(p, c)).procs, i)
  {
    var procs' := Do(t, WaitReap(p, c)).procs;
    assert Waits(t.procs, i) && Owns(t.procs, t.init, c);
    if d :| 0 <= d < |procs'| && procs'[d].parent == i && procs'[d].state == ZOMBIE {
      assert t.procs[d].parent == i && t.procs[d].state == ZOMBIE;
    }
  }

  lemma ReapKeepsInv(t: Table, p: nat, c: nat)
    requires Inv(t) && Enabled(t, WaitReap(p, c))
    ensures Inv(Do(t, WaitReap(p, c)))
  {
    var procs' := Do(t, WaitReap(p, c)).procs;
    forall i: nat | i < |procs'|
      ensures ForkOk(procs', i) && Owns(procs', t.init, i) && Waits(procs', i)
    {
      ReapKeepsForks(t, p, c, i);
      ReapKeepsOwns(t, p, c, i);
      ReapKeepsWaits(t, p, c, i);
    }
    assert Owns(t.procs, t.init, c);
  }

  /** How wait ends: with one child reaped, whose slot is as good as new, or with nothing changed; either way the caller
      runs on, out of wait, and no other process notices. */
  lemma WaitEnds(t: Table, p: nat, c: nat)
    requires Inv(t)
    ensures Enabled(t, WaitReap(p, c)) ==>
      var (t', q) := (Do(t, WaitReap(p, c)), t.procs[c]);
      && |t'.procs| == |t.procs| && t'.procs[p] == t.procs[p].(waiting := false) && Runs(t', p) && Free(t', p)
      && t'.procs[c] == Proc(UNUSED, 0, NONE, q.chan, false, false, false, false, NotForking)
      && (forall i :: 0 <= i < |t.procs| && i != p && i != c ==> t'.procs[i] == t.procs[i])
      && t'.reaped == t.reaped + [Reap(q.pid, p)]
    ensures Enabled(t, WaitFail(p)) ==>
      var t' := Do(t, WaitFail(p));
      && |t'.procs| == |t.procs| && t'.procs[p] == t.procs[p].(waiting := false) && Runs(t', p) && Free(t', p)
      && (forall i :: 0 <= i < |t.procs| && i != p ==> t'.procs[i] == t.procs[i]) && t'.reaped == t.reaped
  {
    if p < |t.procs| { assert Waits(t.procs, p); }
    if Enabled(t, WaitReap(p, c)) { assert Waits(t.procs, c) && Owns(t.procs, t.init, c); }
  }

  // ---------------------------------------------------------------- all steps

  predicate IsFork(step: Step) {
    step.AllocProc? || step.AllocStack? || step.NoStack? || step.CopyMemory? || step.NoMemory? || step.MakeRunnable?
  }

  /** The slot of a process in fork is nobody else's. */
  lemma SlotIsOwn(t: Table, p: nat, np: nat)
    requires Inv(t) && Runs(t, p) && np < |t.procs|
    requires t.procs[np].state == UNUSED || (t.procs[p].forking != NotForking && t.procs[p].forking.np == np)
    ensures OwnSlot(t.procs, p, np) && !t.procs[np].waiting && t.procs[np].forking == NotForking
  {
    assert ForkOk(t.procs, p) && Waits(t.procs, np);
    forall j | 0 <= j < |t.procs| && j != p && t.procs[j].forking != NotForking
      ensures t.procs[j].forking.np != np
    {
      assert ForkOk(t.procs, j);
    }
  }

  lemma ForkKeepsInv(t: Table, step: Step)
    requires Inv(t) && Enabled(t, step) && IsFork(step)
    ensures Inv(Do(t, step))
  {
    var p := step.p;
    var np := if step.AllocProc? then step.np else t.procs[p].forking.np;
    SlotIsOwn(t, p, np);
    assert ForkOk(t.procs, p) && Owns(t.procs, t.init, np) && Waits(t.procs, p);
    var t' := Do(t, step);
    ForkStepKeepsInv(t, p, t'.procs[p].forking, np, t'.procs[np]);
  }

  lemma StepKeepsInv(t: Table, step: Step)
    requires Inv(t) && Enabled(t, step)
    ensures Inv(Do(t, step))
  {
    match step
    case Exit(p) => ExitKeepsInv(t, p);
    case WaitReap(p, c) => ReapKeepsInv(t, p, c);
    case WakeOther(chan) => WakeKeepsInv(t, chan);
    case Schedule(p) => assert Waits(t.procs, p); OneKeepsInv(t, p, Do(t, step).procs[p]);
    case Yield(p) => assert Waits(t.procs, p); OneKeepsInv(t, p, Do(t, step).procs[p]);
    case SleepOther(p, _) => assert Waits(t.procs, p); OneKeepsInv(t, p, Do(t, step).procs[p]);
    case Kill(_, i) => assert Waits(t.procs, i); OneKeepsInv(t, i, Do(t, step).procs[i]);
    case Wait(p) => assert Waits(t.procs, p); OneKeepsInv(t, p, Do(t, step).procs[p]);
    case WaitFail(p) => assert Waits(t.procs, p); OneKeepsInv(t, p, Do(t, step).procs[p]);
    case WaitSleep(p) => assert Waits(t.procs, p); OneKeepsInv(t, p, Do(t, step).procs[p]);
    case _ => ForkKeepsInv(t, step);
  }

  // ---------------------------------------------------------------- each process is reaped once

  /** A process in use, by pid. */
  predicate Is(p: Proc, pid: nat) {
    p.state != UNUSED && p.pid == pid
  }

  ghost function Owner(procs: seq<Proc>, pid: nat): (i: nat)
    requires exists i :: 0 <= i < |procs| && Is(procs[i], pid)
    ensures i < |procs| && Is(procs[i], pid)
  {
    var i :| 0 <= i < |procs| && Is(procs[i], pid);
    i
  }

  predicate WasReaped(reaped: seq<Reap>, pid: nat) {
    exists k :: 0 <= k < |reaped| && reaped[k].pid == pid
  }

  /** The pid of a process in use is its own and has not been reaped. */
  ghost predicate PidOk(t: Table, i: nat)
    requires i < |t.procs|
  {
    var p := t.procs[i];
    p.state != UNUSED ==>
      && p.pid < t.nextpid && Is(p, p.pid) && Owner(t.procs, p.pid) == i && !WasReaped(t.reaped, p.pid)
  }

  ghost predicate Pids(t: Table) {
    && (forall i :: 0 <= i < |t.procs| ==> PidOk(t, i))
    && (forall k :: 0 <= k < |t.reaped| ==> t.reaped[k].pid < t.nextpid)
    && (forall j, k :: 0 <= j < k < |t.reaped| ==> t.reaped[j].pid != t.reaped[k].pid)
  }

  /** A table whose processes in use are old ones under their old pid, and at most one with a new pid. */
  lemma PidsKept(t: Table, t': Table)
    requires Pids(t) && |t'.procs| == |t.procs| && t'.nextpid >= t.nextpid && t'.reaped == t.reaped
    requires forall i :: 0 <= i < |t.procs| && t'.procs[i].state != UNUSED ==>
               || (t.procs[i].state != UNUSED && t'.procs[i].pid == t.procs[i].pid)
               || (t'.procs[i].pid == t.nextpid < t'.nextpid)
    requires forall i, j ::
      0 <= i < |t.procs| && 0 <= j < |t.procs| && Is(t'.procs[i], t.nextpid) && Is(t'.procs[j], t.nextpid) ==> i == j
    ensures Pids(t')
  {
    forall i | 0 <= i < |t'.procs|
      ensures PidOk(t', i)
    {
      assert PidOk(t, i);
      if t'.procs[i].state != UNUSED {
        assert Is(t'.procs[i], t'.procs[i].pid);
        var j := Owner(t'.procs, t'.procs[i].pid);
        assert PidOk(t, j);
      }
    }
  }

  lemma ReapKeepsPids(t: Table, p: nat, c: nat)
    requires Pids(t) && Enabled(t, WaitReap(p, c))
    ensures Pids(Do(t, WaitReap(p, c)))
  {
    var t' := Do(t, WaitReap(p, c));
    assert PidOk(t, c);
    forall i | 0 <= i < |t'.procs|
      ensures PidOk(t', i)
    {
      assert PidOk(t, i);
      if t'.procs[i].state != UNUSED {
        assert Is(t'.procs[i], t'.procs[i].pid);
        assert PidOk(t, Owner(t'.procs, t'.procs[i].pid));
      }
    }
  }

  lemma EntryPid(t: Table, step: Step, i: nat)
    requires Inv(t) && Enabled(t, step) && !step.WaitReap? && i < |t.procs|
    ensures var t' := Do(t, step);
            && |t'.procs| == |t.procs| && t'.reaped == t.reaped
            && t'.nextpid == (if step.AllocProc? then t.nextpid + 1 else t.nextpid)
            && (|| t'.procs[i].state == UNUSED
                || (t.procs[i].state != UNUSED && t'.procs[i].pid == t.procs[i].pid)
                || (step.AllocProc? && i == step.np && t'.procs[i].pid == t.nextpid))
  {
    hide ExitTable, WakeAll;
    if IsFork(step) {
      assert ForkOk(t.procs, step.p);
    } else if step.Exit? {
      ExitKeepsPid(t.procs, step.p, t.init, i);
    } else if step.WakeOther? {
      WakeKeepsPid(t.procs, step.chan, i);
    }
  }

  lemma WakeKeepsPid(procs: seq<Proc>, chan: int, i: nat)
    requires i < |procs|
    ensures var q := WakeAll(procs, chan)[i]; q.pid == procs[i].pid && (procs[i].state == UNUSED ==> q.state == UNUSED)
  {
  }

  lemma AdoptKeepsPid(procs: seq<Proc>, p: int, init: int, i: nat)
    requires i < |procs|
    ensures var q := Adopt(procs, p, init)[i]; q.pid == procs[i].pid && q.state == procs[i].state
  {
  }

  lemma ExitKeepsPid(procs: seq<Proc>, p: nat, init: nat, i: nat)
    requires p < |procs| && i < |procs|
    ensures var q := ExitTable(procs, p, init)[i];
      q.pid == procs[i].pid && (procs[i].state == UNUSED && i != p ==> q.state == UNUSED)
  {
    hide WakeAll, Adopt, HasZombie;
    var woken := WakeAll(procs, procs[p].parent);
    WakeKeepsPid(procs, procs[p].parent, i);
    AdoptKeepsPid(woken, p, init, i);
    WakeKeepsPid(Adopt(woken, p, init), init, i);
  }

  lemma StepKeepsPids(t: Table, step: Step)
    requires Inv(t) && Pids(t) && Enabled(t, step)
    ensures Pids(Do(t, step))
  {
    if step.WaitReap? {
      ReapKeepsPids(t, step.p, step.c);
    } else {
      var t' := Do(t, step);
      EntryPid(t, step, t.init);
      forall i: nat | i < |t.procs|
        ensures t'.procs[i].state != UNUSED ==>
                  || (t.procs[i].state != UNUSED && t'.procs[i].pid == t.procs[i].pid)
                  || (t'.procs[i].pid == t.nextpid < t'.nextpid)
        ensures Is(t'.procs[i], t.nextpid) ==> step.AllocProc? && i == step.np
      {
        EntryPid(t, step, i);
        assert PidOk(t, i);
      }
      PidsKept(t, t');
    }
  }

  // ---------------------------------------------------------------- who frees

  /** The step takes the stack or the page table of slot i away. */
  ghost predicate Frees(t: Table, step: Step, i: nat)
    requires Enabled(t, step) && i < |t.procs|
  {
    var t' := Do(t, step);
    i < |t'.procs| &&
    ((t.procs[i].kstack && !t'.procs[i].kstack) || (t.procs[i].pgdir && !t'.procs[i].pgdir))
  }

  /** wait, by the process that is then the parent of the zombie in slot i; it goes down as such. */
  ghost predicate ByParentsWait(t: Table, step: Step, i: nat)
    requires Enabled(t, step) && i < |t.procs|
  {
    && step.WaitReap? && step.c == i && t.procs[i].state == ZOMBIE && t.procs[i].parent == step.p
    && Do(t, step).reaped == t.reaped + [Reap(t.procs[i].pid, step.p)]
  }

  /** fork giving up, by the process that made the embryo in slot i, which has no page table yet. */
  ghost predicate ByForker(t: Table, step: Step, i: nat)
    requires i < |t.procs|
  {
    && step.NoMemory? && step.p < |t.procs| && t.procs[step.p].forking == Stacked(i)
    && t.procs[i].state == EMBRYO && t.procs[i].parent == NONE && !t.procs[i].pgdir
  }

  lemma WakeFreesNothing(procs: seq<Proc>, chan: int, i: nat)
    requires i < |procs|
    ensures WakeAll(procs, chan)[i].kstack == procs[i].kstack && WakeAll(procs, chan)[i].pgdir == procs[i].pgdir
  {
  }

  lemma AdoptFreesNothing(procs: seq<Proc>, p: int, init: int, i: nat)
    requires i < |procs|
    ensures Adopt(procs, p, init)[i].kstack == procs[i].kstack && Adopt(procs, p, init)[i].pgdir == procs[i].pgdir
  {
  }

  /** exit() changes parents and states only. */
  lemma ExitFreesNothing(procs: seq<Proc>, p: nat, init: nat, i: nat)
    requires p < |procs| && i < |procs|
    ensures ExitTable(procs, p, init)[i].kstack == procs[i].kstack
    ensures ExitTable(procs, p, init)[i].pgdir == procs[i].pgdir
  {
    hide WakeAll, Adopt, HasZombie;
    var woken := WakeAll(procs, procs[p].parent);
    WakeFreesNothing(procs, procs[p].parent, i);
    AdoptFreesNothing(woken, p, init, i);
    WakeFreesNothing(Adopt(woken, p, init), init, i);
  }

  /** A stack or page table is freed only by the wait of the current parent, or by a fork that gives up. */
  lemma FreedByParent(t: Table, step: Step, i: nat)
    requires Inv(t) && Enabled(t, step) && i < |t.procs|
    ensures |Do(t, step).procs| == |t.procs|
    ensures Frees(t, step, i) ==> ByParentsWait(t, step, i) || ByForker(t, step, i)
  {
    hide ExitTable, WakeAll;
    if step.Exit? {
      ExitFreesNothing(t.procs, step.p, t.init, i);
    } else if step.WakeOther? {
      WakeFreesNothing(t.procs, step.chan, i);
    } else if IsFork(step) {
      assert ForkOk(t.procs, step.p);
    }
  }

  // ---------------------------------------------------------------- runs

  ghost predicate ValidRun(t: Table, run: seq<Step>)
    decreases |run|
  {
    run == [] || (Enabled(t, run[0]) && ValidRun(Do(t, run[0]), run[1..]))
  }

  ghost function Final(t: Table, run: seq<Step>): (t': Table)
    requires ValidRun(t, run)
    decreases |run|
  {
    if run == [] then t else Final(Do(t, run[0]), run[1..])
  }

  lemma {:induction false} RunKeepsInv(t: Table, run: seq<Step>)
    requires Inv(t) && Pids(t) && ValidRun(t, run)
    ensures Inv(Final(t, run)) && Pids(Final(t, run))
    decreases |run|
  {
    if run != [] {
      StepKeepsInv(t, run[0]);
      StepKeepsPids(t, run[0]);
      RunKeepsInv(Do(t, run[0]), run[1..]);
    }
  }

  lemma InitInv(n: nat)
    requires n > 0
    ensures Inv(Init(n)) && Pids(Init(n))
  {
    var t := Init(n);
    forall i | 0 <= i < n
      ensures PidOk(t, i)
    {
      if i == 0 { assert Is(t.procs[0], 1); }
    }
  }

  /** The exit/wait life cycle, in every run of a table of any size, whenever ptable.lock is free: a process
      asleep in wait has no zombie child; every process but init has a parent that is neither a zombie nor
      unused; a zombie still owns its stack and page table, an unused slot owns none; no process is reaped
      twice; and whatever step comes next, it frees a stack or a page table only as the wait of the process
      that is then the parent, or as a fork giving up its own embryo. */
  lemma ExitWaitSafe(n: nat, run: seq<Step>, i: nat, next: Step)
    requires n > 0 && ValidRun(Init(n), run)
    ensures var t := Final(Init(n), run);
            && t.init < |t.procs| && Alive(t.procs[t.init].state)
            && (forall j, k :: 0 <= j < k < |t.reaped| ==> t.reaped[j].pid != t.reaped[k].pid)
            && (i < |t.procs| ==>
                  var p := t.procs[i];
                  && (p.state == SLEEPING && p.waiting ==> p.chan == i && !HasZombie(t.procs, i))
                  && (p.state != UNUSED && p.state != EMBRYO && i != t.init ==>
                        0 <= p.parent < |t.procs| && Alive(t.procs[p.parent].state))
                  && (p.state == ZOMBIE ==> p.kstack && p.pgdir && !WasReaped(t.reaped, p.pid))
                  && (p.state == UNUSED ==> !p.kstack && !p.pgdir && p.parent == NONE)
                  && (Enabled(t, next) && Frees(t, next, i) ==> ByParentsWait(t, next, i) || ByForker(t, next, i)))
  {
    InitInv(n);
    RunKeepsInv(Init(n), run);
    var t := Final(Init(n), run);
    if i < |t.procs| {
      assert Owns(t.procs, t.init, i) && Waits(t.procs, i) && PidOk(t, i);
      if Enabled(t, next) {
        FreedByParent(t, next, i);
      }
    }
    hide Do, Enabled;
  }
}
