/** kill in xv6/proc.c over whole runs of the process table: whom it finds, what it does to a sleeper, how long its mark
    lasts, and who bears it. */
module Killing {

  import opened ExitWait

  // ---------------------------------------------------------------- one kill

  /** kill marks the process it finds and lets a sleeper run; nothing else changes. */
  lemma KillMarks(t: Table, pid: nat, i: nat)
    requires Enabled(t, Kill(pid, i))
    ensures var (p, t') := (t.procs[i], Do(t, Kill(pid, i)));
      && |t'.procs| == |t.procs| && t'.procs[i].killed && t'.procs[i].state != SLEEPING
      && (p.state == SLEEPING ==> t'.procs[i].state == RUNNABLE)
      && t'.procs[i] == p.(killed := true, state := if p.state == SLEEPING then RUNNABLE else p.state)
      && (forall j :: 0 <= j < |t.procs| && j != i ==> t'.procs[j] == t.procs[j])
      && t' == t.(procs := t'.procs)
  {
  }

  /** A process in wait that is killed leaves it: it can be scheduled, and unless a child has become a zombie its next
      pass through the loop returns -1; it does not go back to sleep. */
  lemma KilledLeavesWait(t: Table, pid: nat, i: nat)
    requires Inv(t) && Enabled(t, Kill(pid, i)) && t.procs[i].waiting && !HasZombie(t.procs, i)
    ensures var t1 := Do(t, Kill(pid, i));
      && i < |t1.procs| && (t1.procs[i].state == RUNNABLE || t1.procs[i].state == RUNNING)
      && (t1.procs[i].state == RUNNABLE ==> Enabled(t1, Schedule(i)))
      && var t2 := if t1.procs[i].state == RUNNABLE then Do(t1, Schedule(i)) else t1;
         && Enabled(t2, WaitFail(i)) && !Enabled(t2, WaitSleep(i))
         && Do(t2, WaitFail(i)).procs[i] == t.procs[i].(killed := true, state := RUNNING, waiting := false)
  {
    assert Waits(t.procs, i);
    var t1 := Do(t, Kill(pid, i));
    SameZombies(t.procs, t1.procs, i);
    if t1.procs[i].state == RUNNABLE { SameZombies(t.procs, Do(t1, Schedule(i)).procs, i); }
  }

  // ---------------------------------------------------------------- the mark over runs

  predicate Kills(step: Step, i: nat) {
    step.Kill? && step.i == i
  }

  predicate Reaps(step: Step, i: nat) {
    step.WaitReap? && step.c == i
  }

  /** The slot is not reaped from step k on. */
  ghost predicate UnreapedFrom(run: seq<Step>, i: nat, k: nat) {
    forall m :: k <= m < |run| ==> !Reaps(run[m], i)
  }

  /** kill found slot i, and it has not been reaped since. */
  ghost predicate KilledSince(run: seq<Step>, i: nat) {
    exists k :: 0 <= k < |run| && Kills(run[k], i) && UnreapedFrom(run, i, k)
  }

  lemma WakeKeepsMark(procs: seq<Proc>, chan: int, i: nat)
    requires i < |procs|
    ensures var (p, q) := (procs[i], WakeAll(procs, chan)[i]);
      && q.killed == p.killed && q.pid == p.pid && q.waiting == p.waiting
      && (q.state == p.state || (p.state == SLEEPING && q.state == RUNNABLE))
  {
  }

  lemma AdoptKeepsMark(procs: seq<Proc>, p: int, init: int, i: nat)
    requires i < |procs|
    ensures Adopt(procs, p, init)[i] == procs[i].(parent := Adopt(procs, p, init)[i].parent)
  {
  }

  /** exit touches no mark and no pid, and puts nobody to sleep. */
  lemma ExitKeepsMark(procs: seq<Proc>, p: nat, init: nat, i: nat)
    requires p < |procs| && i < |procs|
    ensures var q := ExitTable(procs, p, init)[i];
      && q.killed == procs[i].killed && q.pid == procs[i].pid && q.waiting == procs[i].waiting
      && (q.state == SLEEPING ==> procs[i].state == SLEEPING)
      && (q.state == UNUSED || q.state == EMBRYO ==> i == p || procs[i].state == q.state)
      && (i == p ==> q.state == ZOMBIE) && (procs[i].state == UNUSED && i != p ==> q.state == UNUSED)
  {
    hide WakeAll, Adopt, HasZombie;
    var woken := WakeAll(procs, procs[p].parent);
    WakeKeepsMark(procs, procs[p].parent, i);
    AdoptKeepsMark(woken, p, init, i);
    WakeKeepsMark(Adopt(woken, p, init), init, i);
  }

  /** What a step makes of the mark. */
  lemma StepMark(t: Table, step: Step, i: nat)
    requires Inv(t) && Enabled(t, step) && i < |t.procs|
    ensures var t' := Do(t, step);
      && |t'.procs| == |t.procs|
      && (t'.procs[i].killed <==> !Reaps(step, i) && (Kills(step, i) || t.procs[i].killed))
  {
    hide ExitTable, WakeAll;
    match step
    case Exit(p) => ExitKeepsMark(t.procs, p, t.init, i);
    case WakeOther(chan) => WakeKeepsMark(t.procs, chan, i);
    case _ =>
  }

  lemma SinceTail(run: seq<Step>, i: nat)
    requires run != []
    ensures KilledSince(run, i) <==> KilledSince(run[1..], i) || (Kills(run[0], i) && UnreapedFrom(run[1..], i, 0))
    ensures UnreapedFrom(run, i, 0) <==> !Reaps(run[0], i) && UnreapedFrom(run[1..], i, 0)
  {
    assert forall m {:trigger run[1..][m]} :: 0 <= m < |run[1..]| ==> run[1..][m] == run[m + 1];
    assert forall m :: 1 <= m < |run| ==> run[m] == run[1..][m - 1];
    if KilledSince(run, i) {
      var k :| 0 <= k < |run| && Kills(run[k], i) && UnreapedFrom(run, i, k);
      if k > 0 { assert Kills(run[1..][k - 1], i) && UnreapedFrom(run[1..], i, k - 1); }
    }
    if KilledSince(run[1..], i) {
      var k :| 0 <= k < |run[1..]| && Kills(run[1..][k], i) && UnreapedFrom(run[1..], i, k);
      assert Kills(run[k + 1], i) && UnreapedFrom(run, i, k + 1);
    }
    if Kills(run[0], i) && UnreapedFrom(run[1..], i, 0) { assert UnreapedFrom(run, i, 0); }
  }

  /** The mark of a slot: set by kill, cleared by the wait that reaps it, and kept in between. */
  lemma {:induction false} RunMark(t: Table, run: seq<Step>, i: nat)
    requires Inv(t) && ValidRun(t, run) && i < |t.procs|
    ensures var t' := Final(t, run);
      && |t'.procs| == |t.procs|
      && (t'.procs[i].killed <==> KilledSince(run, i) || (t.procs[i].killed && UnreapedFrom(run, i, 0)))
    decreases |run|
  {
    if run != [] {
      StepKeepsInv(t, run[0]);
      StepMark(t, run[0], i);
      RunMark(Do(t, run[0]), run[1..], i);
      hide Do, Enabled, Inv;
      SinceTail(run, i);
    }
  }

  // ---------------------------------------------------------------- no killed process sleeps in wait

  ghost predicate AwakeInWait(t: Table) {
    forall i :: 0 <= i < |t.procs| && t.procs[i].killed && t.procs[i].waiting ==> t.procs[i].state != SLEEPING
  }

  lemma StepKeepsAwake(t: Table, step: Step)
    requires AwakeInWait(t) && Enabled(t, step)
    ensures AwakeInWait(Do(t, step))
  {
    hide ExitTable, WakeAll;
    var t' := Do(t, step);
    forall i: nat | i < |t'.procs| && t'.procs[i].killed && t'.procs[i].waiting
      ensures t'.procs[i].state != SLEEPING
    {
      match step
      case Exit(p) => ExitKeepsMark(t.procs, p, t.init, i);
      case WakeOther(chan) => WakeKeepsMark(t.procs, chan, i);
      case _ =>
    }
  }

  // ---------------------------------------------------------------- whom a pid finds

  /** A pid other than 0 is in one slot at most, and in none once its process has been reaped. */
  ghost predicate PidsApart(t: Table) {
    && 0 < t.nextpid
    && (forall i :: 0 <= i < |t.procs| ==> t.procs[i].pid < t.nextpid)
    && (forall i :: 0 <= i < |t.procs| && t.procs[i].state != UNUSED ==> t.procs[i].pid != 0)
    && (forall i, j :: 0 <= i < j < |t.procs| && t.procs[i].pid == t.procs[j].pid ==> t.procs[i].pid == 0)
    && (forall k :: 0 <= k < |t.reaped| ==> 0 < t.reaped[k].pid < t.nextpid)
    && (forall k, i :: 0 <= k < |t.reaped| && 0 <= i < |t.procs| ==> t.procs[i].pid != t.reaped[k].pid)
  }

  /** What a step makes of a pid: allocproc gives a new one, the reaping wait takes it away. */
  ghost predicate PidAfter(t: Table, step: Step, t': Table, i: nat) {
    && i < |t.procs| == |t'.procs|
    && t'.procs[i].pid ==
       (if step.AllocProc? && i == step.np then t.nextpid else if Reaps(step, i) then 0 else t.procs[i].pid)
    && (t'.procs[i].state != UNUSED ==>
          !Reaps(step, i) && (t.procs[i].state != UNUSED || (step.AllocProc? && i == step.np)))
    && (Reaps(step, i) ==> t.procs[i].state == ZOMBIE)
  }

  lemma StepPid(t: Table, step: Step, i: nat)
    requires Inv(t) && Enabled(t, step) && i < |t.procs|
    ensures PidAfter(t, step, Do(t, step), i)
  {
    hide ExitTable, WakeAll;
    if IsFork(step) {
      assert ForkOk(t.procs, step.p);
    } else if step.Exit? {
      ExitKeepsMark(t.procs, step.p, t.init, i);
    } else if step.WakeOther? {
      WakeKeepsMark(t.procs, step.chan, i);
    }
  }

  lemma StepCounts(t: Table, step: Step)
    requires Enabled(t, step)
    ensures var t' := Do(t, step);
      && t'.nextpid == (if step.AllocProc? then t.nextpid + 1 else t.nextpid)
      && (!step.WaitReap? ==> t'.reaped == t.reaped)
      && (step.WaitReap? ==> step.c < |t.procs| && t'.reaped == t.reaped + [Reap(t.procs[step.c].pid, step.p)])
  {
    hide ExitTable, WakeAll;
  }

  lemma ApartKept(t: Table, step: Step, t': Table)
    requires PidsApart(t) && |t'.procs| == |t.procs|
    requires forall i: nat :: i < |t.procs| ==> PidAfter(t, step, t', i)
    requires t'.nextpid == if step.AllocProc? then t.nextpid + 1 else t.nextpid
    requires !step.WaitReap? ==> t'.reaped == t.reaped
    requires step.WaitReap? ==> step.c < |t.procs| && t'.reaped == t.reaped + [Reap(t.procs[step.c].pid, step.p)]
    ensures PidsApart(t')
  {
    forall i: nat | i < |t.procs|
      ensures t'.procs[i].pid < t'.nextpid && (t'.procs[i].state != UNUSED ==> t'.procs[i].pid != 0)
      ensures forall k :: 0 <= k < |t'.reaped| ==> t'.procs[i].pid != t'.reaped[k].pid
    {
      assert PidAfter(t, step, t', i);
      if step.WaitReap? { assert PidAfter(t, step, t', step.c); }
    }
    forall i: nat, j: nat | i < j < |t.procs| && t'.procs[i].pid == t'.procs[j].pid
      ensures t'.procs[i].pid == 0
    {
      assert PidAfter(t, step, t', i) && PidAfter(t, step, t', j);
    }
    if step.WaitReap? { assert PidAfter(t, step, t', step.c); }
  }

  lemma StepLength(t: Table, step: Step)
    requires Enabled(t, step)
    ensures |Do(t, step).procs| == |t.procs|
  {
    hide ExitTable, WakeAll;
  }

  lemma StepKeepsApart(t: Table, step: Step)
    requires Inv(t) && PidsApart(t) && Enabled(t, step)
    ensures PidsApart(Do(t, step))
  {
    hide Do, PidsApart, Inv;
    forall i: nat | i < |t.procs|
      ensures PidAfter(t, step, Do(t, step), i)
    {
      StepPid(t, step, i);
    }
    StepCounts(t, step);
    assert |Do(t, step).procs| == |t.procs| by { StepLength(t, step); }
    ApartKept(t, step, Do(t, step));
  }

  // ---------------------------------------------------------------- born killed

  /** No process is under way in the slot: it is free, or an embryo of a fork that may still give it back. */
  predicate Unborn(p: Proc) {
    p.state == UNUSED || p.state == EMBRYO
  }

  ghost predicate NoneMarked(t: Table) {
    forall i :: 0 <= i < |t.procs| && Unborn(t.procs[i]) ==> !t.procs[i].killed
  }

  /** Every kill of the run finds a process that has been born. */
  ghost predicate KillsBorn(t: Table, run: seq<Step>)
    requires ValidRun(t, run)
    decreases |run|
  {
    run == [] || ((run[0].Kill? ==> !Unborn(t.procs[run[0].i])) && KillsBorn(Do(t, run[0]), run[1..]))
  }

  lemma BornStays(t: Table, step: Step, i: nat)
    requires Inv(t) && Enabled(t, step) && i < |t.procs| && i < |Do(t, step).procs| && Unborn(Do(t, step).procs[i])
    ensures Unborn(t.procs[i]) || Reaps(step, i)
  {
    hide ExitTable, WakeAll;
    if IsFork(step) {
      assert ForkOk(t.procs, step.p);
    } else if step.Exit? {
      ExitKeepsMark(t.procs, step.p, t.init, i);
    } else if step.WakeOther? {
      WakeKeepsMark(t.procs, step.chan, i);
    }
  }

  /** A mark on an unborn slot comes from a kill that found it there. */
  lemma StepKeepsUnmarked(t: Table, step: Step)
    requires Inv(t) && NoneMarked(t) && Enabled(t, step)
    ensures NoneMarked(Do(t, step)) <==> !(step.Kill? && Unborn(t.procs[step.i]))
  {
    hide ExitTable, WakeAll;
    var t' := Do(t, step);
    if step.Kill? && Unborn(t.procs[step.i]) { assert Unborn(t'.procs[step.i]) && t'.procs[step.i].killed; }
    if !(step.Kill? && Unborn(t.procs[step.i])) {
      forall i: nat | i < |t'.procs| && Unborn(t'.procs[i])
        ensures !t'.procs[i].killed
      {
        StepMark(t, step, i);
        BornStays(t, step, i);
      }
    }
  }

  lemma {:induction false} RunKeepsUnmarked(t: Table, run: seq<Step>)
    requires Inv(t) && NoneMarked(t) && ValidRun(t, run) && KillsBorn(t, run)
    ensures NoneMarked(Final(t, run))
    decreases |run|
  {
    if run != [] {
      StepKeepsInv(t, run[0]);
      StepKeepsUnmarked(t, run[0]);
      RunKeepsUnmarked(Do(t, run[0]), run[1..]);
    }
  }

  /** If every kill finds a process that has been born, no process is born killed. */
  lemma NoneBornKilled(n: nat, run: seq<Step>, p: nat)
    requires n > 0 && ValidRun(Init(n), run) && KillsBorn(Init(n), run)
    requires Enabled(Final(Init(n), run), MakeRunnable(p))
    ensures var t := Final(Init(n), run);
      var np := t.procs[p].forking.np;
      np < |t.procs| && !Do(t, MakeRunnable(p)).procs[np].killed
  {
    InitInv(n);
    RunKeepsInv(Init(n), run);
    RunKeepsUnmarked(Init(n), run);
    var t := Final(Init(n), run);
    assert ForkOk(t.procs, p);
  }

  lemma RunOf(t: Table, run: seq<Step>, t': Table)
    requires run != [] && Enabled(t, run[0]) && t' == Do(t, run[0])
    ensures ValidRun(t, run) <==> ValidRun(t', run[1..])
    ensures ValidRun(t, run) ==> Final(t, run) == Final(t', run[1..])
  {
  }

  /** One step of fork by p on its slot. */
  lemma ForkOnce(t: Table, p: nat, np: nat, step: Step)
    requires Runs(t, p) && np < |t.procs| && np != p && Enabled(t, step)
    requires (step.AllocStack? || step.CopyMemory? || step.MakeRunnable?) && step.p == p && t.procs[p].forking.np == np
    ensures var (t', q) := (Do(t, step), t.procs[np]);
      && Runs(t', p) && |t'.procs| == |t.procs|
      && (step.AllocStack? ==> t'.procs[np] == q.(kstack := true) && Enabled(t', CopyMemory(p)))
      && (step.CopyMemory? ==> t'.procs[np] == q.(pgdir := true, parent := p) && Enabled(t', MakeRunnable(p)))
      && (step.MakeRunnable? ==> t'.procs[np] == q.(state := RUNNABLE))
      && (!step.MakeRunnable? ==> t'.procs[p].forking != NotForking && t'.procs[p].forking.np == np)
  {
  }

  /** fork into a free slot, all went well: the child has everything but the mark, which is the slot's. */
  lemma ForkInherits(t: Table, p: nat, np: nat)
    requires Enabled(t, AllocProc(p, np))
    ensures var run := [AllocProc(p, np), AllocStack(p), CopyMemory(p), MakeRunnable(p)];
      && ValidRun(t, run) && |Final(t, run).procs| == |t.procs|
      && Final(t, run).procs[np] ==
         t.procs[np].(state := RUNNABLE, pid := t.nextpid, parent := p, kstack := true, pgdir := true)
  {
    var run := [AllocProc(p, np), AllocStack(p), CopyMemory(p), MakeRunnable(p)];
    var t1 := Do(t, run[0]);
    assert Runs(t1, p) && Enabled(t1, run[1]) && t1.procs[np] == t.procs[np].(state := EMBRYO, pid := t.nextpid);
    hide ValidRun, Final, Do, Enabled;
    ForkOnce(t1, p, np, run[1]);
    var t2 := Do(t1, run[1]);
    ForkOnce(t2, p, np, run[2]);
    var t3 := Do(t2, run[2]);
    ForkOnce(t3, p, np, run[3]);
    var t4 := Do(t3, run[3]);
    RunDone(t4, run[4..]);
    RunOf(t3, run[3..], t4);
    RunOf(t2, run[2..], t3);
    RunOf(t1, run[1..], t2);
    RunOf(t, run, t1);
  }

  lemma RunDone(t: Table, run: seq<Step>)
    requires run == []
    ensures ValidRun(t, run) && Final(t, run) == t
  {
  }

  /** kill(0) finds a free slot, since those have pid 0, and the process that fork then makes there is born killed
      although no kill named it. */
  lemma BornKilled() returns (run: seq<Step>)
    ensures ValidRun(Init(2), run) && |run| == 6 && run[1] == Kill(0, 1) && run[5] == MakeRunnable(0)
    ensures forall k :: 0 <= k < |run| && run[k].Kill? ==> k == 1
    ensures var procs := Final(Init(2), run).procs;
      |procs| == 2 && var child := procs[1]; child.state == RUNNABLE && child.pid == 2 && child.killed
  {
    var (t, fork) := (Init(2), [AllocProc(0, 1), AllocStack(0), CopyMemory(0), MakeRunnable(0)]);
    var t1 := Do(t, Schedule(0));
    var t2 := Do(t1, Kill(0, 1));
    ForkInherits(t2, 0, 1);
    hide ValidRun, Final;
    run := [Schedule(0), Kill(0, 1)] + fork;
    assert run[1..][1..] == fork;
    RunOf(t1, run[1..], t2);
    RunOf(t, run, t1);
  }

  // ---------------------------------------------------------------- every run

  lemma {:induction false} RunKeepsKills(t: Table, run: seq<Step>)
    requires Inv(t) && AwakeInWait(t) && PidsApart(t) && ValidRun(t, run)
    ensures AwakeInWait(Final(t, run)) && PidsApart(Final(t, run))
    decreases |run|
  {
    if run != [] {
      StepKeepsInv(t, run[0]);
      StepKeepsAwake(t, run[0]);
      StepKeepsApart(t, run[0]);
      RunKeepsKills(Do(t, run[0]), run[1..]);
    }
  }

  /** kill, in every run: a slot bears the mark exactly if a kill found it and no wait has reaped it since; a marked
      process is not asleep in wait and does not go to sleep there; a pid other than 0 finds one slot at most, and none
      after its process has been reaped. */
  lemma KillSafe(n: nat, run: seq<Step>, i: nat, pid: nat)
    requires n > 0 && i < n && ValidRun(Init(n), run)
    ensures var t := Final(Init(n), run);
      && |t.procs| == n && (t.procs[i].killed <==> KilledSince(run, i))
      && (t.procs[i].killed && t.procs[i].waiting ==> t.procs[i].state != SLEEPING && !Enabled(t, WaitSleep(i)))
      && (pid != 0 && t.procs[i].pid == pid ==>
            !WasReaped(t.reaped, pid) && forall j :: 0 <= j < n && t.procs[j].pid == pid ==> j == i)
  {
    InitInv(n);
    RunMark(Init(n), run, i);
    RunKeepsKills(Init(n), run);
  }
}
