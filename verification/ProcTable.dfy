/** The table scans of xv6/proc.c as loops over ptable.proc, each run with ptable.lock held. They do what
    the steps of ExitWait say. */
module ProcTable {
  import opened ExitWait

  /** How a pass of wait's loop ends. */
  datatype WaitResult = Reaped(c: nat, pid: nat) | NoChildren | SleepOnSelf

  /** An entry in the middle of exit()'s loop: done says that the loop has been there, told that init was woken. */
  ghost function Passed(q: Proc, done: bool, p: nat, init: nat, told: bool): Proc {
    var r := if done && q.parent == p then q.(parent := init) else q;
    if told then Wake(r, init) else r
  }

  lemma NothingPassed(procs: seq<Proc>, p: nat, init: nat)
    ensures forall j :: 0 <= j < |procs| ==> procs[j] == Passed(procs[j], false, p, init, false)
  {
  }

  lemma PassedEntry(q: Proc, p: nat, init: nat, told: bool)
    ensures var r := Passed(q, false, p, init, told);
      && r.parent == q.parent && (r.state == ZOMBIE <==> q.state == ZOMBIE)
      && Passed(q, true, p, init, told) == if q.parent == p then r.(parent := init) else r
  {
  }

  lemma PassedAgain(q: Proc, done: bool, p: nat, init: nat, told: bool)
    ensures Wake(Passed(q, done, p, init, told), init) == Passed(q, done, p, init, true)
  {
  }

  lemma PassedAll(was: seq<Proc>, procs: seq<Proc>, p: nat, init: nat, told: bool)
    requires |procs| == |was| && forall j :: 0 <= j < |procs| ==> procs[j] == Passed(was[j], j < |procs|, p, init, told)
    requires told <==> exists c :: 0 <= c < |procs| && was[c].parent == p && was[c].state == ZOMBIE
    ensures procs == if HasZombie(was, p) then WakeAll(Adopt(was, p, init), init) else Adopt(was, p, init)
  {
  }

  lemma WokenZombies(procs: seq<Proc>, chan: int, p: int)
    ensures HasZombie(WakeAll(procs, chan), p) <==> HasZombie(procs, p)
  {
    var woken := WakeAll(procs, chan);
    if c :| 0 <= c < |procs| && procs[c].parent == p && procs[c].state == ZOMBIE { assert woken[c].state == ZOMBIE; }
    if c :| 0 <= c < |procs| && woken[c].parent == p && woken[c].state == ZOMBIE { assert procs[c].state == ZOMBIE; }
  }

  /** What exit makes of each entry: children go to init; the parent is woken, and init if a zombie comes to it, and
      nobody else. */
  lemma ExitEach(procs: seq<Proc>, p: nat, init: nat, i: nat)
    requires p < |procs| && i < |procs|
    ensures var q := procs[i];
      ExitTable(procs, p, init)[i] == q.(
        parent := if q.parent == p then init else q.parent,
        state :=
          if i == p then ZOMBIE
          else if q.state == SLEEPING && (q.chan == procs[p].parent || (q.chan == init && HasZombie(procs, p)))
          then RUNNABLE
          else q.state)
  {
    hide HasZombie;
    WokenZombies(procs, procs[p].parent, p);
  }

  lemma KillIsStep(was: seq<Proc>, procs: seq<Proc>, pid: nat, i: nat)
    requires FirstPid(was, pid, i)
    requires procs ==
      was[i := was[i].(killed := true, state := if was[i].state == SLEEPING then RUNNABLE else was[i].state)]
    ensures forall t: Table :: t.procs == was ==> Enabled(t, Kill(pid, i)) && Do(t, Kill(pid, i)).procs == procs
  {
  }

  class PTable {
    var procs: seq<Proc>
    const init: nat

    constructor (procs: seq<Proc>, init: nat)
      ensures this.procs == procs && this.init == init
    {
      this.procs, this.init := procs, init;
    }

    /** wakeup1() */
    method Wakeup1(chan: int)
      modifies this
      ensures procs == WakeAll(old(procs), chan)
      ensures forall i :: 0 <= i < |procs| ==>
        procs[i] == if old(procs)[i].state == SLEEPING && old(procs)[i].chan == chan
                    then old(procs)[i].(state := RUNNABLE) else old(procs)[i]
    {
      var i := 0;
      while i < |procs|
        invariant 0 <= i <= |procs| == |old(procs)|
        invariant forall j :: 0 <= j < i ==> procs[j] == Wake(old(procs)[j], chan)
        invariant forall j :: i <= j < |procs| ==> procs[j] == old(procs)[j]
      {
        if procs[i].state == SLEEPING && procs[i].chan == chan {
          procs := procs[i := procs[i].(state := RUNNABLE)];
        }
        i := i + 1;
      }
    }

    /** allocproc()'s search; |procs| if every slot is in use. */
    method FindUnused() returns (np: nat)
      ensures np <= |procs|
      ensures np < |procs| ==> FirstUnused(procs, np)
      ensures np == |procs| ==> forall i :: 0 <= i < |procs| ==> procs[i].state != UNUSED
    {
      np := 0;
      while np < |procs|
        invariant 0 <= np <= |procs|
        invariant forall i :: 0 <= i < np ==> procs[i].state != UNUSED
      {
        if procs[np].state == UNUSED { return; }
        np := np + 1;
      }
    }

    /** exit()'s loop: children go to init, which is woken if one of them is a zombie. */
    method PassToInit(p: nat)
      modifies this
      ensures procs ==
        if HasZombie(old(procs), p) then WakeAll(Adopt(old(procs), p, init), init) else Adopt(old(procs), p, init)
    {
      hide Wake, Passed;
      ghost var told := false;
      var i := 0;
      NothingPassed(procs, p, init);
      while i < |procs|
        invariant 0 <= i <= |procs| == |old(procs)|
        invariant told <==> exists c :: 0 <= c < i && old(procs)[c].parent == p && old(procs)[c].state == ZOMBIE
        invariant forall j :: 0 <= j < |procs| ==> procs[j] == Passed(old(procs)[j], j < i, p, init, told)
      {
        ghost var q := old(procs)[i];
        PassedEntry(q, p, init, told);
        if procs[i].parent == p {
          procs := procs[i := procs[i].(parent := init)];
          if procs[i].state == ZOMBIE {
            Wakeup1(init);
            forall j | 0 <= j < |procs|
              ensures procs[j] == Passed(old(procs)[j], j < i + 1, p, init, true)
            {
              PassedAgain(old(procs)[j], j < i + 1, p, init, told);
            }
            told := true;
          }
        }
        i := i + 1;
      }
      PassedAll(old(procs), procs, p, init, told);
    }

    /** exit() from the acquire of ptable.lock on: the table it leaves to the scheduler. */
    method ExitUnderLock(p: nat)
      requires p < |procs|
      modifies this
      ensures procs == ExitTable(old(procs), p, init)
    {
      hide Wake, Adopt;
      Wakeup1(procs[p].parent);
      PassToInit(p);
      procs := procs[p := procs[p].(state := ZOMBIE)];
    }

    /** One pass of wait()'s loop by process p. */
    method WaitPass(p: nat) returns (r: WaitResult)
      requires p < |procs|
      modifies this
      ensures r.Reaped? ==> FirstZombie(old(procs), p, r.c) && r.pid == old(procs)[r.c].pid
                            && procs == old(procs)[r.c := ExitWait.Reaped(old(procs)[r.c])]
      ensures !r.Reaped? ==> !HasZombie(old(procs), p)
      ensures r.NoChildren? ==> procs == old(procs) && (!HasChild(procs, p) || procs[p].killed)
      ensures r.SleepOnSelf? ==> HasChild(old(procs), p) && !old(procs)[p].killed
                                 && procs == old(procs)[p := old(procs)[p].(state := SLEEPING, chan := p)]
    {
      var havekids := false;
      var i := 0;
      while i < |procs|
        invariant 0 <= i <= |procs| && procs == old(procs)
        invariant havekids <==> exists c :: 0 <= c < i && procs[c].parent == p
        invariant forall c :: 0 <= c < i ==> !(procs[c].parent == p && procs[c].state == ZOMBIE)
      {
        if procs[i].parent == p {
          havekids := true;
          if procs[i].state == ZOMBIE {
            var pid := procs[i].pid;
            procs := procs[i := procs[i].(kstack := false)];
            procs := procs[i := procs[i].(pgdir := false, state := UNUSED, pid := 0, parent := NONE, killed := false)];
            return WaitResult.Reaped(i, pid);
          }
        }
        i := i + 1;
      }
      if !havekids || procs[p].killed { return NoChildren; }
      procs := procs[p := procs[p].(state := SLEEPING, chan := p)];
      r := SleepOnSelf;
    }

    /** kill() */
    method KillPid(pid: nat) returns (r: int)
      modifies this
      ensures |procs| == |old(procs)| && (r == 0 || r == -1)
      ensures r == 0 ==> exists i: nat ::
        && FirstPid(old(procs), pid, i) && procs[i].killed
        && (old(procs)[i].state == SLEEPING ==> procs[i] == old(procs)[i].(killed := true, state := RUNNABLE))
        && (old(procs)[i].state != SLEEPING ==> procs[i] == old(procs)[i].(killed := true))
        && (forall j :: 0 <= j < |procs| && j != i ==> procs[j] == old(procs)[j])
        && forall t: Table :: t.procs == old(procs) ==> Enabled(t, Kill(pid, i)) && Do(t, Kill(pid, i)).procs == procs
      ensures r != 0 ==> procs == old(procs) && forall i :: 0 <= i < |procs| ==> procs[i].pid != pid
    {
      var i := 0;
      while i < |procs|
        invariant 0 <= i <= |procs| && procs == old(procs)
        invariant forall j :: 0 <= j < i ==> procs[j].pid != pid
      {
        if procs[i].pid == pid {
          procs := procs[i := procs[i].(killed := true)];
          if procs[i].state == SLEEPING { procs := procs[i := procs[i].(state := RUNNABLE)]; }
          assert FirstPid(old(procs), pid, i);
          KillIsStep(old(procs), procs, pid, i);
          return 0;
        }
        i := i + 1;
      }
      r := -1;
    }
  }
}
