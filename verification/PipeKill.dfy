/** kill and the pipe of xv6/pipe.c: a killed process that comes to the test before its sleep returns; one that is
    killed between the test and the sleep goes to sleep all the same. */
module PipeKill {

  import opened Common
  import opened Pipe

  // ---------------------------------------------------------------- the test before the sleep

  /** A killed reader that finds the pipe empty and open for writing returns -1 with the lock released, and has taken
      nothing. */
  lemma KilledReaderReturns(s: State, p: nat)
    requires Enabled(s, Go(p)) && s.procs[p].pc.REmpty? && s.procs[p].killed && s.nread == s.nwrite && s.writeopen
    ensures var s1 := Do(s, Go(p));
      && p < |s1.procs| && s1.procs[p].pc.RGiveUp? && Enabled(s1, Go(p))
      && var s2 := Do(s1, Go(p));
         && p < |s2.procs| && s2.procs[p].pc.Outside? && s2.lock == FREE
         && s2.got == s.got && s2.delivered == s.delivered && s2.nread == s.nread
  {
  }

  /** A writer that finds the pipe full, and is killed or has no reader left, returns -1 with the lock released, and
      stores no more. */
  lemma KilledWriterReturns(s: State, p: nat)
    requires Enabled(s, Go(p)) && s.procs[p].pc.WFull? && s.nwrite == (s.nread + PIPESIZE) % UINT
    requires s.procs[p].killed || !s.readopen
    ensures var s1 := Do(s, Go(p));
      && p < |s1.procs| && s1.procs[p].pc.WGiveUp? && Enabled(s1, Go(p))
      && var s2 := Do(s1, Go(p));
         && p < |s2.procs| && s2.procs[p].pc.Outside? && s2.lock == FREE
         && s2.stored == s.stored && s2.nwrite == s.nwrite
  {
  }

  // ---------------------------------------------------------------- between the test and the sleep

  /** Past the test and not yet asleep. */
  predicate Committed(pc: Pc) {
    pc.RSleep? || pc.WTellReaders? || pc.WSleep?
  }

  /** Killed, and asleep or about to be. */
  predicate SleepsKilled(q: Proc) {
    q.killed && (q.asleep || Committed(q.pc))
  }

  /** The kill comes too late for the test and too early for the sleep. */
  predicate Misses(s: State, step: Step, p: nat) {
    step == Kill(p) && p < |s.procs| && Committed(s.procs[p].pc)
  }

  lemma GoSleeps(s: State, k: nat, p: nat)
    requires Enabled(s, Go(k)) && p < |s.procs| && !SleepsKilled(s.procs[p])
    ensures var s' := Do(s, Go(k)); |s'.procs| == |s.procs| && !SleepsKilled(s'.procs[p])
  {
    var (q, v) := (s.procs[k], Look(s));
    var woken := Wake(s.procs, q.pc.WTellReaders? || q.pc.WDone?, q.pc.RDone?);
    assert Do(s, Go(k)).procs == woken[k := Next(q, v)];
  }

  lemma StepSleeps(s: State, step: Step, p: nat)
    requires Enabled(s, step) && p < |s.procs| && !SleepsKilled(s.procs[p])
    ensures var s' := Do(s, step); |s'.procs| == |s.procs| && (SleepsKilled(s'.procs[p]) <==> Misses(s, step, p))
  {
    if step.Go? { GoSleeps(s, step.p, p); }
  }

  ghost predicate NeverSleepsKilled(s: State, run: seq<Step>, p: nat)
    requires ValidRun(s, run)
    decreases |run|
  {
    (p < |s.procs| ==> !SleepsKilled(s.procs[p])) && (run == [] || NeverSleepsKilled(Do(s, run[0]), run[1..], p))
  }

  ghost predicate NoKillMisses(s: State, run: seq<Step>, p: nat)
    requires ValidRun(s, run)
    decreases |run|
  {
    run == [] || (!Misses(s, run[0], p) && NoKillMisses(Do(s, run[0]), run[1..], p))
  }

  lemma SleepsNow(s: State, run: seq<Step>, p: nat)
    requires ValidRun(s, run) && p < |s.procs| && SleepsKilled(s.procs[p])
    ensures !NeverSleepsKilled(s, run, p)
  {
  }

  lemma {:induction false} RunSleeps(s: State, run: seq<Step>, p: nat)
    requires ValidRun(s, run) && p < |s.procs| && !SleepsKilled(s.procs[p])
    ensures NeverSleepsKilled(s, run, p) <==> NoKillMisses(s, run, p)
    decreases |run|
  {
    if run != [] {
      StepSleeps(s, run[0], p);
      var s' := Do(s, run[0]);
      if SleepsKilled(s'.procs[p]) {
        SleepsNow(s', run[1..], p);
      } else {
        RunSleeps(s', run[1..], p);
      }
    }
  }

  /** In every run a killed process never sleeps in the pipe, nor is about to, if and only if no kill found it between
      the test and the sleep. */
  lemma KilledSleepExact(n: nat, page: seq<Byte>, run: seq<Step>, p: nat)
    requires |page| == PIPESIZE && p < n && ValidRun(Init(n, page), run)
    ensures NeverSleepsKilled(Init(n, page), run, p) <==> NoKillMisses(Init(n, page), run, p)
  {
    RunSleeps(Init(n, page), run, p);
  }

  /** One process, at the given point of reading from an empty pipe. */
  predicate Alone(s: State, pc: Pc, killed: bool, asleep: bool, lock: int) {
    && Shaped(s) && |s.procs| == 1 && s.procs[0] == Proc(pc, killed, asleep, 0, 1, false)
    && s.lock == lock && s.nread == s.nwrite == 0 && s.writeopen
  }

  lemma AloneGoes(s: State, pc: Pc, killed: bool, lock: int)
    requires Alone(s, pc, killed, false, lock)
    requires (pc == RLock && lock == FREE) || (pc == REmpty && !killed && lock == 0) || (pc == RSleep && lock == 0)
    ensures Enabled(s, Go(0))
    ensures Alone(Do(s, Go(0)), if pc == RLock then REmpty else if pc == REmpty then RSleep else RAsleep, killed,
                  pc == RSleep, if pc == RSleep then FREE else 0)
  {
  }

  lemma RunOf(s: State, run: seq<Step>)
    requires run != [] && Enabled(s, run[0])
    ensures |run| == 1 ==> ValidRun(s, run) && Final(s, run) == Do(s, run[0])
    ensures ValidRun(Do(s, run[0]), run[1..]) ==> ValidRun(s, run) && Final(s, run) == Final(Do(s, run[0]), run[1..])
  {
  }

  /** A reader of an empty pipe is killed as it goes to sleep: it sleeps, killed, and nobody else is there. */
  lemma ReaderSleepsKilled(page: seq<Byte>) returns (run: seq<Step>)
    requires |page| == PIPESIZE
    ensures ValidRun(Init(1, page), run) && Alone(Final(Init(1, page), run), RAsleep, true, true, FREE)
    ensures !Enabled(Final(Init(1, page), run), Go(0))
  {
    hide ValidRun, Final;
    var s := Init(1, page);
    run := [Read(0, 1), Go(0), Go(0), Kill(0), Go(0)];
    var s1 := Do(s, run[0]);
    AloneGoes(s1, RLock, false, FREE);
    var s2 := Do(s1, run[1]);
    AloneGoes(s2, REmpty, false, 0);
    var s3 := Do(s2, run[2]);
    var s4 := Do(s3, run[3]);
    AloneGoes(s4, RSleep, true, 0);
    RunOf(s4, run[4..]);
    RunOf(s3, run[3..]);
    RunOf(s2, run[2..]);
    RunOf(s1, run[1..]);
    RunOf(s, run);
  }
}
