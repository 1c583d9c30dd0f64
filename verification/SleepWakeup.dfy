/** sleep and wakeup of xv6/proc.c for any number of processes. A waiter tests a condition under the
    lock lk and sleeps on a channel while it is false; any process may change the condition under lk and
    then wakes the channel, before or after it releases lk. The lock lk is the process table's own lock
    or another one (`same`). */
module SleepWakeup {

  import opened Common

  datatype RunState = RUNNING | RUNNABLE | SLEEPING

  /** What a process is about to do. */
  datatype Pc =
    | Idle
    | WaitLock           // acquire(lk)
    | Test               // while(!cond)
    | SleepLock          // sleep: acquire(&ptable.lock), unless it is lk
    | SleepUnlock        // sleep: release(lk)
    | SetChan            // proc->chan = chan
    | SetState           // proc->state = SLEEPING
    | Sched              // sched(): the scheduler runs and lets go of ptable.lock
    | Parked             // switched out
    | ClearChan          // proc->chan = 0
    | SleepDone          // sleep: release(&ptable.lock), unless it is lk
    | Relock             // sleep: acquire(lk)
    | Use                // the condition holds, lk is held
    | Unlock             // release(lk)
    | ChangeLock         // acquire(lk)
    | Change             // set the condition
    | UnlockThenWake     // release(lk), with a wakeup to follow
    | WakeLock(held: bool)          // wakeup: acquire(&ptable.lock); held: lk is held meanwhile
    | Scan(i: nat, held: bool)      // wakeup1: look at ptable.proc[i]
    | WakeUnlock(held: bool)        // wakeup: release(&ptable.lock)

  datatype Proc = Proc(pc: Pc, state: RunState, onChan: bool)

  /** A lock is held by a process number, or FREE; lk is not used when it is ptable.lock. */
  datatype State = State(procs: seq<Proc>, lk: int, ptlock: int, cond: bool)

  /** A process's own choices: wait or change when idle, the new value of the condition, whether to wake
      when it stays true, and whether to wake before releasing lk. Making it true requires a wakeup. */
  datatype Choice = Choice(wait: bool, value: bool, wake: bool, wakeFirst: bool)

  datatype Step = Act(p: nat, ch: Choice) | Kill(p: nat)

  function LkHolder(same: bool, s: State): int {
    if same then s.ptlock else s.lk
  }

  predicate Enabled(same: bool, s: State, step: Step) {
    match step
    case Kill(p) => p < |s.procs| && s.ptlock == FREE
    case Act(p, ch) =>
      && p < |s.procs|
      && match s.procs[p].pc
         case WaitLock => LkHolder(same, s) == FREE
         case Relock => LkHolder(same, s) == FREE
         case ChangeLock => LkHolder(same, s) == FREE
         case SleepLock => same || s.ptlock == FREE
         case WakeLock(held) => (same && held) || s.ptlock == FREE
         case Parked => s.procs[p].state == RUNNABLE && s.ptlock == FREE
         case _ => true
  }

  function AfterRaise(ch: Choice): Pc {
    if ch.wakeFirst then WakeLock(true) else UnlockThenWake
  }

  /** What a process's step does to itself, the locks and the condition. */
  datatype Effect = Effect(me: Proc, lk: int, ptlock: int, cond: bool)

  /** acquire(lk) or release(lk) */
  function SetLk(same: bool, e: Effect, h: int): Effect {
    if same then e.(ptlock := h) else e.(lk := h)
  }

  function Own(same: bool, s: State, p: nat, ch: Choice): (e: Effect)
    requires p < |s.procs|
  {
    var me := s.procs[p];
    var e := Effect(me, s.lk, s.ptlock, s.cond);
    match me.pc
    case Idle => e.(me := me.(pc := if ch.wait then WaitLock else ChangeLock))
    case WaitLock => SetLk(same, e, p).(me := me.(pc := Test))
    case Test => e.(me := me.(pc := if s.cond then Use else SleepLock))
    case SleepLock => if same then e.(me := me.(pc := SetChan)) else e.(ptlock := p, me := me.(pc := SleepUnlock))
    case SleepUnlock => e.(lk := FREE, me := me.(pc := SetChan))
    case SetChan => e.(me := me.(onChan := true, pc := SetState))
    case SetState => e.(me := me.(state := SLEEPING, pc := Sched))
    case Sched => e.(ptlock := FREE, me := me.(pc := Parked))
    case Parked => e.(ptlock := p, me := me.(state := RUNNING, pc := ClearChan))
    case ClearChan => e.(me := me.(onChan := false, pc := SleepDone))
    case SleepDone => if same then e.(me := me.(pc := Test)) else e.(ptlock := FREE, me := me.(pc := Relock))
    case Relock => SetLk(same, e, p).(me := me.(pc := Test))
    case Use =>
      e.(cond := ch.value, me := me.(pc := if ch.value && (!s.cond || ch.wake) then AfterRaise(ch) else Unlock))
    case Unlock => SetLk(same, e, FREE).(me := me.(pc := Idle))
    case ChangeLock => SetLk(same, e, p).(me := me.(pc := Change))
    case Change =>
      e.(cond := ch.value, me := me.(pc := if ch.value && (!s.cond || ch.wake) then AfterRaise(ch) else Unlock))
    case UnlockThenWake => SetLk(same, e, FREE).(me := me.(pc := WakeLock(false)))
    case WakeLock(held) => e.(ptlock := p, me := me.(pc := Scan(0, held)))
    case Scan(i, held) => e.(me := me.(pc := if i < |s.procs| then Scan(i + 1, held) else WakeUnlock(held)))
    case WakeUnlock(held) =>
      if held && same then e.(me := me.(pc := Unlock))
      else e.(ptlock := FREE, me := me.(pc := if held then Unlock else Idle))
  }

  /** The table after the step's look at a slot, if the process is in wakeup1. */
  function Woken(s: State, pc: Pc): (procs: seq<Proc>)
    ensures |procs| == |s.procs|
  {
    if pc.Scan? && pc.i < |s.procs| && s.procs[pc.i].state == SLEEPING && s.procs[pc.i].onChan
    then s.procs[pc.i := s.procs[pc.i].(state := RUNNABLE)] else s.procs
  }

  function Do(same: bool, s: State, step: Step): (s': State)
    requires Enabled(same, s, step)
  {
    match step
    case Kill(p) =>
      if s.procs[p].state == SLEEPING then s.(procs := s.procs[p := s.procs[p].(state := RUNNABLE)]) else s
    case Act(p, ch) =>
      var e := Own(same, s, p, ch);
      State(Woken(s, s.procs[p].pc)[p := e.me], e.lk, e.ptlock, e.cond)
  }

  function Init(n: nat, cond: bool): (s: State) {
    State(seq(n, _ => Proc(Idle, RUNNING, false)), FREE, FREE, cond)
  }

  // ---------------------------------------------------------------- invariant

  /** The process holds lk. */
  predicate HoldsLk(same: bool, pc: Pc) {
    match pc
    case Test => true
    case SleepLock => true
    case SleepUnlock => true
    case Use => true
    case Unlock => true
    case Change => true
    case UnlockThenWake => true
    case WakeLock(held) => held
    case Scan(_, held) => held
    case WakeUnlock(held) => held
    case SetChan => same
    case SetState => same
    case Sched => same
    case ClearChan => same
    case SleepDone => same
    case _ => false
  }

  /** The process holds ptable.lock, other than as lk. */
  predicate HoldsPt(pc: Pc) {
    match pc
    case SleepUnlock => true
    case SetChan => true
    case SetState => true
    case Sched => true
    case ClearChan => true
    case SleepDone => true
    case Scan(_, _) => true
    case WakeUnlock(_) => true
    case _ => false
  }

  /** The locks are where process p's place in the code says. */
  predicate Locks(same: bool, lk: int, ptlock: int, pc: Pc, p: nat) {
    if same then
      && lk == FREE && !pc.SleepUnlock? && !pc.Relock?
      && (ptlock == p <==> HoldsLk(true, pc) || HoldsPt(pc))
    else (lk == p <==> HoldsLk(false, pc)) && (ptlock == p <==> HoldsPt(pc))
  }

  /** The process will still look at slot j on behalf of a change that made the condition true. */
  predicate WillWake(pc: Pc, j: nat) {
    match pc
    case UnlockThenWake => true
    case WakeLock(_) => true
    case Scan(i, _) => i <= j
    case _ => false
  }

  /** The process is on its way into sleep or asleep, having found the condition false. */
  predicate SleepingOn(p: Proc) {
    match p.pc
    case SleepLock => true
    case SleepUnlock => true
    case SetChan => true
    case SetState => true
    case Sched => p.state == SLEEPING
    case Parked => p.state == SLEEPING
    case _ => false
  }

  predicate Shape(p: Proc) {
    match p.pc
    case SetState => p.onChan && p.state == RUNNING
    case Sched => p.onChan && p.state == SLEEPING
    case Parked => p.onChan && p.state != RUNNING
    case ClearChan => p.state == RUNNING
    case _ => p.state == RUNNING
  }

  /** A sleeper whose condition has become true will be woken. */
  ghost predicate NotLost(s: State, j: nat)
    requires j < |s.procs|
  {
    s.cond && SleepingOn(s.procs[j]) ==> exists w: nat :: w < |s.procs| && WillWake(s.procs[w].pc, j)
  }

  /** Between the test and the release of lk, the condition is still as it was tested. */
  predicate Tested(same: bool, cond: bool, pc: Pc) {
    && (pc.Use? ==> cond)
    && (pc.SleepLock? || pc.SleepUnlock? || (same && (pc.SetChan? || pc.SetState? || pc.Sched?)) ==> !cond)
  }

  predicate LocalOk(same: bool, lk: int, ptlock: int, cond: bool, me: Proc, p: nat) {
    Locks(same, lk, ptlock, me.pc, p) && Shape(me) && Tested(same, cond, me.pc)
  }

  ghost predicate Inv(same: bool, s: State) {
    && -1 <= s.lk < |s.procs| && -1 <= s.ptlock < |s.procs|
    && forall p: nat :: p < |s.procs| ==> LocalOk(same, s.lk, s.ptlock, s.cond, s.procs[p], p) && NotLost(s, p)
  }

  // ---------------------------------------------------------------- every step keeps it

  /** A lock that moves, moves between p and FREE. */
  predicate Moves(before: int, after: int, p: nat) {
    before == after || (before == FREE && after == p) || (before == p && after == FREE)
  }

  /** The process keeps its own part of the invariant, and changes the condition only under lk. */
  lemma OwnStep(same: bool, s: State, p: nat, ch: Choice)
    requires Enabled(same, s, Act(p, ch)) && LocalOk(same, s.lk, s.ptlock, s.cond, s.procs[p], p)
    ensures var e := Own(same, s, p, ch); LocalOk(same, e.lk, e.ptlock, e.cond, e.me, p)
  {
    OwnLocks(same, s, p, ch);
    OwnShape(same, s, p, ch);
  }

  lemma OwnLocks(same: bool, s: State, p: nat, ch: Choice)
    requires Enabled(same, s, Act(p, ch)) && LocalOk(same, s.lk, s.ptlock, s.cond, s.procs[p], p)
    ensures var e := Own(same, s, p, ch); Locks(same, e.lk, e.ptlock, e.me.pc, p)
  {
  }

  lemma OwnShape(same: bool, s: State, p: nat, ch: Choice)
    requires Enabled(same, s, Act(p, ch)) && LocalOk(same, s.lk, s.ptlock, s.cond, s.procs[p], p)
    ensures var e := Own(same, s, p, ch); Shape(e.me) && Tested(same, e.cond, e.me.pc)
  {
  }

  lemma OwnMoves(same: bool, s: State, p: nat, ch: Choice)
    requires Enabled(same, s, Act(p, ch)) && LocalOk(same, s.lk, s.ptlock, s.cond, s.procs[p], p)
    ensures var e := Own(same, s, p, ch);
            && Moves(s.lk, e.lk, p) && Moves(s.ptlock, e.ptlock, p)
            && (e.cond != s.cond ==> HoldsLk(same, s.procs[p].pc))
  {
  }

  /** Another process's part holds too: locks it holds did not move, a condition it relies on did not change. */
  lemma OtherStep(same: bool, lk: int, ptlock: int, cond: bool, me: Proc, p: nat,
                  lk': int, ptlock': int, cond': bool, other: Proc, q: nat)
    requires LocalOk(same, lk, ptlock, cond, me, p) && LocalOk(same, lk, ptlock, cond, other, q) && p != q
    requires Moves(lk, lk', p) && Moves(ptlock, ptlock', p) && (cond' != cond ==> HoldsLk(same, me.pc))
    requires same ==> lk' == FREE
    ensures LocalOk(same, lk', ptlock', cond', other, q)
  {
  }

  lemma ActKeepsLocal(same: bool, s: State, p: nat, ch: Choice, q: nat)
    requires Inv(same, s) && Enabled(same, s, Act(p, ch)) && q < |s.procs|
    ensures var s' := Do(same, s, Act(p, ch)); LocalOk(same, s'.lk, s'.ptlock, s'.cond, s'.procs[q], q)
  {
    var e := Own(same, s, p, ch);
    OwnStep(same, s, p, ch);
    if q != p {
      OwnMoves(same, s, p, ch);
      OtherStep(same, s.lk, s.ptlock, s.cond, s.procs[p], p, e.lk, e.ptlock, e.cond, s.procs[q], q);
    }
  }

  /** After a step: a process that will wake slot j still will, unless its scan has just passed j. */
  lemma StillWakes(same: bool, s: State, p: nat, ch: Choice, j: nat)
    requires Enabled(same, s, Act(p, ch)) && WillWake(s.procs[p].pc, j) && j < |s.procs|
    ensures WillWake(Own(same, s, p, ch).me.pc, j) || (s.procs[p].pc.Scan? && s.procs[p].pc.i == j)
  {
  }

  /** What a step of p can do to a sleeper j while the condition is true. */
  lemma SleeperStep(same: bool, s: State, p: nat, ch: Choice, j: nat)
    requires Inv(same, s) && Enabled(same, s, Act(p, ch)) && j < |s.procs|
    requires var s' := Do(same, s, Act(p, ch)); s'.cond && SleepingOn(s'.procs[j])
    ensures WillWake(Own(same, s, p, ch).me.pc, j) ||
            (s.cond && SleepingOn(s.procs[j]) && !(s.procs[p].pc.Scan? && s.procs[p].pc.i == j))
  {
    assert LocalOk(same, s.lk, s.ptlock, s.cond, s.procs[j], j);
    assert LocalOk(same, s.lk, s.ptlock, s.cond, s.procs[p], p);
    if j == p { SelfSleeps(same, s, p, ch); } else { OwnMoves(same, s, p, ch); RaiseWakes(same, s, p, ch, j); }
  }

  lemma SelfSleeps(same: bool, s: State, p: nat, ch: Choice)
    requires Enabled(same, s, Act(p, ch)) && LocalOk(same, s.lk, s.ptlock, s.cond, s.procs[p], p)
    requires var e := Own(same, s, p, ch); e.cond && SleepingOn(e.me)
    ensures s.cond && SleepingOn(s.procs[p]) && !s.procs[p].pc.Scan?
  {
  }

  lemma RaiseWakes(same: bool, s: State, p: nat, ch: Choice, j: nat)
    requires p < |s.procs|
    ensures var e := Own(same, s, p, ch); e.cond && !s.cond ==> WillWake(e.me.pc, j)
  {
  }

  lemma ActKeepsNotLost(same: bool, s: State, p: nat, ch: Choice, j: nat)
    requires Inv(same, s) && Enabled(same, s, Act(p, ch)) && j < |s.procs|
    ensures NotLost(Do(same, s, Act(p, ch)), j)
  {
    var s' := Do(same, s, Act(p, ch));
    if s'.cond && SleepingOn(s'.procs[j]) {
      SleeperStep(same, s, p, ch, j);
      if WillWake(Own(same, s, p, ch).me.pc, j) {
        assert WillWake(s'.procs[p].pc, j);
      } else {
        assert NotLost(s, j);
        var w: nat :| w < |s.procs| && WillWake(s.procs[w].pc, j);
        if w == p { StillWakes(same, s, p, ch, j); }
        assert s'.procs[w].pc == s.procs[w].pc;
      }
    }
  }

  lemma KillKeepsInv(same: bool, s: State, p: nat)
    requires Inv(same, s) && Enabled(same, s, Kill(p))
    ensures Inv(same, Do(same, s, Kill(p)))
  {
    var s' := Do(same, s, Kill(p));
    forall q: nat | q < |s.procs|
      ensures LocalOk(same, s'.lk, s'.ptlock, s'.cond, s'.procs[q], q) && NotLost(s', q)
    {
      assert LocalOk(same, s.lk, s.ptlock, s.cond, s.procs[q], q) && NotLost(s, q);
      if s'.cond && SleepingOn(s'.procs[q]) {
        var w: nat :| w < |s.procs| && WillWake(s.procs[w].pc, q);
        assert s'.procs[w].pc == s.procs[w].pc;
      }
    }
  }

  lemma StepKeepsInv(same: bool, s: State, step: Step)
    requires Inv(same, s) && Enabled(same, s, step)
    ensures Inv(same, Do(same, s, step))
  {
    match step
    case Kill(p) => KillKeepsInv(same, s, p);
    case Act(p, ch) =>
      var s' := Do(same, s, step);
      OwnMoves(same, s, p, ch);
      forall q: nat | q < |s.procs|
        ensures LocalOk(same, s'.lk, s'.ptlock, s'.cond, s'.procs[q], q) && NotLost(s', q)
      {
        ActKeepsLocal(same, s, p, ch, q);
        ActKeepsNotLost(same, s, p, ch, q);
      }
  }

  // ---------------------------------------------------------------- runs

  predicate ValidRun(same: bool, s: State, run: seq<Step>)
    decreases |run|
  {
    run == [] || (Enabled(same, s, run[0]) && ValidRun(same, Do(same, s, run[0]), run[1..]))
  }

  function Final(same: bool, s: State, run: seq<Step>): (s': State)
    requires ValidRun(same, s, run)
    decreases |run|
  {
    if run == [] then s else Final(same, Do(same, s, run[0]), run[1..])
  }

  lemma {:induction false} RunKeepsInv(same: bool, s: State, run: seq<Step>)
    requires Inv(same, s) && ValidRun(same, s, run)
    ensures Inv(same, Final(same, s, run))
    decreases |run|
  {
    if run != [] {
      StepKeepsInv(same, s, run[0]);
      RunKeepsInv(same, Do(same, s, run[0]), run[1..]);
    }
  }

  lemma InitInv(same: bool, n: nat, cond: bool)
    ensures Inv(same, Init(n, cond))
  {
  }

  /** kill, in every run: a sleeper leaves its sleep as if woken, with the condition still to be tested again; nobody
      else notices. */
  lemma KillEndsSleep(same: bool, n: nat, cond: bool, run: seq<Step>, j: nat, ch: Choice)
    requires ValidRun(same, Init(n, cond), run)
    requires var s := Final(same, Init(n, cond), run);
      j < |s.procs| && s.procs[j].state == SLEEPING && Enabled(same, s, Kill(j))
    ensures var s := Final(same, Init(n, cond), run);
      var s1 := Do(same, s, Kill(j));
      && |s1.procs| == |s.procs| && (forall i :: 0 <= i < |s.procs| && i != j ==> s1.procs[i] == s.procs[i])
      && s1 == s.(procs := s1.procs) && Enabled(same, s1, Act(j, ch))
      && Do(same, s1, Act(j, ch)).procs[j] == Proc(ClearChan, RUNNING, true)
  {
    InitInv(same, n, cond);
    RunKeepsInv(same, Init(n, cond), run);
    var s := Final(same, Init(n, cond), run);
    assert LocalOk(same, s.lk, s.ptlock, s.cond, s.procs[j], j);
  }

  /** No lost wakeup, for any number of processes and any run, whichever lock guards the condition: when
      the condition is true and no wakeup is pending, no process is asleep on the channel, nor on
      its way into sleep. */
  lemma NoLostWakeup(same: bool, n: nat, cond: bool, run: seq<Step>, j: nat)
    requires ValidRun(same, Init(n, cond), run)
    ensures var s := Final(same, Init(n, cond), run);
            && (s.cond && j < |s.procs| && (forall w: nat :: w < |s.procs| ==> !WillWake(s.procs[w].pc, j)) ==>
                  !SleepingOn(s.procs[j]))
            && (j < |s.procs| && s.procs[j].state == SLEEPING ==> SleepingOn(s.procs[j]) && s.procs[j].onChan)
  {
    InitInv(same, n, cond);
    RunKeepsInv(same, Init(n, cond), run);
    var s := Final(same, Init(n, cond), run);
    if j < |s.procs| { assert LocalOk(same, s.lk, s.ptlock, s.cond, s.procs[j], j) && NotLost(s, j); }
  }
}
