/** Whole runs of the logging layer (xv6/log.c): operations begin, log blocks and
    end in any interleaving; the last to end commits the group; the machine may
    crash between any two block writes, also during recovery. */
module LogProtocol {
  import opened Common
  import opened Disk
  import opened LogFormat

  /** An outstanding operation and how many log entries it has added. */
  datatype Op = Op(id: nat, used: nat)

  /** History: operation `op` logged `v` as the contents of block `b`. */
  datatype Logging = Logging(op: nat, b: nat, v: Block)

  datatype Phase =
    | Running
    | Commit(from: Image, batch: seq<int>, k: nat)  // k writes of commit() done, starting from disk `from`
    | Recover(from: Image, k: nat)                  // k writes of recover_from_log() done

  /** `view` is the latest contents of each block as the buffer cache shows it.
      `trace` and `committed` are history: all loggings that a later recovery could
      still show, and how many of them are durable. */
  datatype State = State(
    disk: Image, phase: Phase, lh: seq<int>, ops: seq<Op>, view: seq<Block>,
    trace: seq<Logging>, committed: nat)

  datatype Step =
    | Begin(id: nat)
    | LogWrite(i: nat, b: nat, v: Block)
    | End(i: nat)
    | CommitWrite
    | CommitDone
    | Crash
    | RecoveryWrite
    | Boot

  function Init(base: Image): (s: State) {
    State(base, Running, [], [], base.blocks, [], 0)
  }

  predicate FreshOp(s: State, id: nat) {
    && (forall i :: 0 <= i < |s.ops| ==> s.ops[i].id != id)
    && (forall i :: 0 <= i < |s.trace| ==> s.trace[i].op != id)
  }

  /** The guards of log_write that panic with "too big a transaction". */
  predicate TooBig(g: Geometry, s: State) {
    |s.lh| >= LOGSIZE || |s.lh| >= g.size - 1
  }

  /** end_op panics with "log.committing". */
  predicate EndPanics(s: State) {
    s.phase.Commit?
  }

  /** begin_op lets one more operation in. */
  predicate MayBegin(s: State) {
    s.phase.Running? && |s.lh| + (|s.ops| + 1) * MAXOPBLOCKS <= LOGSIZE
  }

  /** The operation stays within its budget of MAXOPBLOCKS new entries. */
  predicate WithinBudget(s: State, i: nat, b: nat) {
    i < |s.ops| && (b in s.lh || s.ops[i].used < MAXOPBLOCKS)
  }

  ghost predicate Writing(g: Geometry, s: State) {
    && s.phase.Commit? && Loggable(g, s.phase.batch)
    && |s.view| == |s.phase.from.blocks| == |s.disk.blocks| == g.nblocks
  }

  ghost predicate Recovering(g: Geometry, s: State) {
    s.phase.Recover? && GoodDisk(g, s.phase.from) && |s.disk.blocks| == g.nblocks
  }

  ghost function PhaseWrites(g: Geometry, s: State): (ws: seq<Write>)
    requires Writing(g, s) || Recovering(g, s)
    ensures InRange(g.nblocks, ws)
  {
    if s.phase.Commit? then CommitWrites(g, s.phase.from, s.phase.batch, s.view)
    else RecoveryWrites(g, s.phase.from)
  }

  ghost predicate Enabled(g: Geometry, s: State, step: Step) {
    match step
    case Begin(id) => MayBegin(s) && FreshOp(s, id)
    case LogWrite(i, b, v) => Home(g, b) && i < |s.ops| && !TooBig(g, s) && b < |s.view|
    case End(i) => i < |s.ops| && !EndPanics(s)
    case CommitWrite => Writing(g, s) && s.phase.k < |PhaseWrites(g, s)|
    case CommitDone => Writing(g, s) && s.phase.k == |PhaseWrites(g, s)|
    case Crash => GoodDisk(g, s.disk) && s.committed <= |s.trace|
    case RecoveryWrite => Recovering(g, s) && s.phase.k < |PhaseWrites(g, s)|
    case Boot => Recovering(g, s) && s.phase.k == |PhaseWrites(g, s)|
  }

  ghost function Do(g: Geometry, s: State, step: Step): (s': State)
    requires Enabled(g, s, step)
  {
    match step
    case Begin(id) => s.(ops := s.ops + [Op(id, 0)])
    case LogWrite(i, b, v) =>
      // log absorption: an entry already present is reused
      var (lh, n) := if b in s.lh then (s.lh, 0) else (s.lh + [b], 1);
      s.(lh := lh,
         ops := s.ops[i := s.ops[i].(used := s.ops[i].used + n)],
         view := s.view[b := v],
         trace := s.trace + [Logging(s.ops[i].id, b, v)])
    case End(i) =>
      var rest := s.ops[..i] + s.ops[i + 1..];
      s.(ops := rest, phase := if rest == [] then Commit(s.disk, s.lh, 0) else s.phase)
    case CommitWrite =>
      s.(disk := ApplyOne(s.disk, PhaseWrites(g, s)[s.phase.k]),
         phase := Commit(s.phase.from, s.phase.batch, s.phase.k + 1),
         lh := if s.phase.k + 1 == |PhaseWrites(g, s)| then [] else s.lh,
         committed := if s.phase.k == |s.phase.batch| then |s.trace| else s.committed)
    case CommitDone => s.(phase := Running)
    case Crash =>
      // memory is lost; the next boot starts recovery from what the disk holds
      s.(phase := Recover(s.disk, 0), lh := [], ops := [], trace := s.trace[..s.committed])
    case RecoveryWrite =>
      s.(disk := ApplyOne(s.disk, PhaseWrites(g, s)[s.phase.k]), phase := Recover(s.phase.from, s.phase.k + 1))
    case Boot => s.(phase := Running, view := s.disk.blocks)
  }

  // ---------------------------------------------------------------- meaning of a history

  ghost predicate AllHome(g: Geometry, es: seq<Logging>) {
    forall i :: 0 <= i < |es| ==> Home(g, es[i].b)
  }

  /** The blocks after a history of loggings. */
  ghost function Replay(g: Geometry, base: seq<Block>, es: seq<Logging>): (r: seq<Block>)
    requires |base| == g.nblocks && AllHome(g, es)
    ensures |r| == g.nblocks
  {
    if es == [] then base
    else
      var e := es[|es| - 1];
      Replay(g, base, es[..|es| - 1])[e.b := e.v]
  }

  /** The durable prefix of the history ends between operations: none that is
      still outstanding has a logging in it, none has loggings on both sides. */
  ghost predicate WholeOps(s: State) {
    && s.committed <= |s.trace|
    && (forall i, j :: 0 <= i < s.committed && 0 <= j < |s.ops| ==> s.trace[i].op != s.ops[j].id)
    && (forall i, j :: 0 <= i < s.committed <= j < |s.trace| ==> s.trace[i].op != s.trace[j].op)
  }

  ghost function Unspent(ops: seq<Op>): (u: int) {
    if ops == [] then 0 else MAXOPBLOCKS - ops[0].used + Unspent(ops[1..])
  }

  lemma {:induction false} UnspentConcat(a: seq<Op>, b: seq<Op>)
    ensures Unspent(a + b) == Unspent(a) + Unspent(b)
  {
    if a == [] {
      assert a + b == b;
    } else {
      UnspentConcat(a[1..], b);
      assert (a + b)[1..] == a[1..] + b;
    }
  }

  lemma UnspentFirst(op: Op, rest: seq<Op>)
    ensures Unspent([op] + rest) == MAXOPBLOCKS - op.used + Unspent(rest)
  {
    assert ([op] + rest)[1..] == rest;
  }

  lemma UnspentSplit(ops: seq<Op>, i: nat)
    requires i < |ops|
    ensures Unspent(ops) == Unspent(ops[..i]) + (MAXOPBLOCKS - ops[i].used) + Unspent(ops[i + 1..])
  {
    hide Unspent;
    assert ops == ops[..i] + ([ops[i]] + ops[i + 1..]);
    UnspentConcat(ops[..i], [ops[i]] + ops[i + 1..]);
    UnspentFirst(ops[i], ops[i + 1..]);
  }

  lemma {:induction false} UnspentBounds(ops: seq<Op>)
    requires forall i :: 0 <= i < |ops| ==> ops[i].used <= MAXOPBLOCKS
    ensures 0 <= Unspent(ops) <= |ops| * MAXOPBLOCKS
  {
    if ops != [] { UnspentBounds(ops[1..]); }
  }

  // ---------------------------------------------------------------- invariant

  /** Budgets: what is logged plus what may still be logged fits in LOGSIZE. */
  ghost predicate Reserved(s: State) {
    && (forall i :: 0 <= i < |s.ops| ==> s.ops[i].used <= MAXOPBLOCKS)
    && |s.lh| + Unspent(s.ops) <= LOGSIZE
  }

  ghost predicate Typed(g: Geometry, base: Image, s: State) {
    && ValidGeometry(g)
    && |base.blocks| == |s.disk.blocks| == |s.view| == g.nblocks
    && AllHome(g, s.trace)
    && s.committed <= |s.trace|
  }

  ghost function Latest(g: Geometry, base: Image, s: State): (r: seq<Block>)
    requires Typed(g, base, s)
  {
    Replay(g, base.blocks, s.trace)
  }

  ghost function Stable(g: Geometry, base: Image, s: State): (r: seq<Block>)
    requires Typed(g, base, s)
  {
    Replay(g, base.blocks, s.trace[..s.committed])
  }

  /** Blocks not in `lh` have the same contents in the two images. */
  ghost predicate Covers(g: Geometry, lh: seq<int>, d: seq<Block>, view: seq<Block>) {
    && |d| == |view| == g.nblocks
    && forall b {:trigger Home(g, b)} :: Home(g, b) && b !in lh ==> d[b] == view[b]
  }

  ghost predicate PhaseInv(g: Geometry, base: Image, s: State)
    requires Typed(g, base, s)
  {
    match s.phase
    case Running =>
      && Settled(g, s.disk, Stable(g, base, s))
      && SameHome(g, s.view, Latest(g, base, s))
      && Covers(g, s.lh, s.disk.blocks, s.view)
      && (s.ops == [] ==> s.lh == [])
      && (s.lh == [] ==> s.committed == |s.trace|)
    case Commit(from, batch, k) =>
      && s.ops == [] && Writing(g, s) && k <= |PhaseWrites(g, s)|
      && s.disk == Apply(from, PhaseWrites(g, s), k)
      && from.head == []
      && SameHome(g, s.view, Latest(g, base, s))
      && Covers(g, batch, from.blocks, s.view)
      && (k <= |batch| ==> SameHome(g, from.blocks, Stable(g, base, s)))
      && (k > |batch| || batch == [] ==> s.committed == |s.trace|)
      && (k == |PhaseWrites(g, s)| ==> s.lh == [])
    case Recover(from, k) =>
      && s.ops == [] && s.lh == [] && Recovering(g, s) && k <= |PhaseWrites(g, s)|
      && s.disk == Apply(from, PhaseWrites(g, s), k)
      && Means(g, from, Latest(g, base, s))
      && s.committed == |s.trace|
  }

  ghost predicate Inv(g: Geometry, base: Image, s: State) {
    && Typed(g, base, s)
    && Loggable(g, s.lh)
    && WholeOps(s)
    && PhaseInv(g, base, s)
  }

  /** In every state of the invariant, what recovery would show is the durable history. */
  lemma InvMeans(g: Geometry, base: Image, s: State)
    requires Inv(g, base, s)
    ensures Means(g, s.disk, Stable(g, base, s))
    ensures s.phase.Running? || (s.phase.Commit? && s.phase.k <= |s.phase.batch|) ==>
              SameHome(g, s.disk.blocks, Stable(g, base, s))
  {
    match s.phase
    case Running => SettledMeans(g, s.disk, Stable(g, base, s));
    case Commit(from, batch, k) =>
      if k <= |batch| {
        CommitBeforeHeader(g, from, batch, s.view, k);
        SettledMeans(g, s.disk, Stable(g, base, s));
      } else {
        CommitFromHeader(g, from, batch, s.view, k);
        assert s.trace[..s.committed] == s.trace;
      }
    case Recover(from, k) =>
      RecoveryPrefix(g, from, Latest(g, base, s), k);
      assert s.trace[..s.committed] == s.trace;
  }

  // ---------------------------------------------------------------- every step keeps the invariant

  lemma InitInv(g: Geometry, base: Image)
    requires ValidGeometry(g) && |base.blocks| == g.nblocks && base.head == []
    ensures Inv(g, base, Init(base))
  {
  }

  lemma BeginKeepsInv(g: Geometry, base: Image, s: State, id: nat)
    requires Inv(g, base, s) && Enabled(g, s, Begin(id))
    ensures Inv(g, base, Do(g, s, Begin(id)))
  {
  }

  lemma LogWriteKeepsLoggable(g: Geometry, s: State, i: nat, b: nat, v: Block)
    requires Loggable(g, s.lh) && Enabled(g, s, LogWrite(i, b, v))
    ensures Loggable(g, Do(g, s, LogWrite(i, b, v)).lh)
  {
    if b !in s.lh { DistinctAppend(s.lh, b); }
  }

  lemma LogWriteKeepsInv(g: Geometry, base: Image, s: State, i: nat, b: nat, v: Block)
    requires Inv(g, base, s) && Enabled(g, s, LogWrite(i, b, v))
    ensures Inv(g, base, Do(g, s, LogWrite(i, b, v)))
  {
    var s' := Do(g, s, LogWrite(i, b, v));
    LogWriteKeepsLoggable(g, s, i, b, v);
    hide Loggable;
    assert s'.trace[..|s.trace|] == s.trace;
    assert s'.trace[..s.committed] == s.trace[..s.committed];
  }

  lemma EndKeepsInv(g: Geometry, base: Image, s: State, i: nat)
    requires Inv(g, base, s) && Enabled(g, s, End(i))
    ensures Inv(g, base, Do(g, s, End(i)))
  {
  }

  lemma CommitWriteKeepsInv(g: Geometry, base: Image, s: State)
    requires Inv(g, base, s) && Enabled(g, s, CommitWrite)
    ensures Inv(g, base, Do(g, s, CommitWrite))
  {
    hide SameHome, Covers, Settled, Means, Replay, CommitWrites, RecoveryWrites, ApplyOne, AllHome;
  }

  lemma CommitDoneKeepsInv(g: Geometry, base: Image, s: State)
    requires Inv(g, base, s) && Enabled(g, s, CommitDone)
    ensures Inv(g, base, Do(g, s, CommitDone))
  {
    var batch := s.phase.batch;
    assert s.trace[..|s.trace|] == s.trace;
    if batch == [] {
      CommitBeforeHeader(g, s.phase.from, batch, s.view, 0);
    } else {
      CommitFromHeader(g, s.phase.from, batch, s.view, s.phase.k);
    }
  }

  lemma CrashKeepsInv(g: Geometry, base: Image, s: State)
    requires Inv(g, base, s) && Enabled(g, s, Crash)
    ensures Inv(g, base, Do(g, s, Crash))
  {
    InvMeans(g, base, s);
  }

  lemma RecoveryWriteKeepsInv(g: Geometry, base: Image, s: State)
    requires Inv(g, base, s) && Enabled(g, s, RecoveryWrite)
    ensures Inv(g, base, Do(g, s, RecoveryWrite))
  {
  }

  lemma BootKeepsInv(g: Geometry, base: Image, s: State)
    requires Inv(g, base, s) && Enabled(g, s, Boot)
    ensures Inv(g, base, Do(g, s, Boot))
  {
    RecoveryPrefix(g, s.phase.from, Latest(g, base, s), s.phase.k);
    assert s.trace[..|s.trace|] == s.trace;
  }

  lemma StepKeepsInv(g: Geometry, base: Image, s: State, step: Step)
    requires Inv(g, base, s) && Enabled(g, s, step)
    ensures Inv(g, base, Do(g, s, step))
  {
    match step
    case Begin(id) => BeginKeepsInv(g, base, s, id);
    case LogWrite(i, b, v) => LogWriteKeepsInv(g, base, s, i, b, v);
    case End(i) => EndKeepsInv(g, base, s, i);
    case CommitWrite => CommitWriteKeepsInv(g, base, s);
    case CommitDone => CommitDoneKeepsInv(g, base, s);
    case Crash => CrashKeepsInv(g, base, s);
    case RecoveryWrite => RecoveryWriteKeepsInv(g, base, s);
    case Boot => BootKeepsInv(g, base, s);
  }

  // ---------------------------------------------------------------- runs

  ghost predicate ValidRun(g: Geometry, s: State, steps: seq<Step>)
    decreases |steps|
  {
    steps == [] || (Enabled(g, s, steps[0]) && ValidRun(g, Do(g, s, steps[0]), steps[1..]))
  }

  ghost function Final(g: Geometry, s: State, steps: seq<Step>): (s': State)
    requires ValidRun(g, s, steps)
    decreases |steps|
  {
    if steps == [] then s else Final(g, Do(g, s, steps[0]), steps[1..])
  }

  /** A freshly made file system: the log header is empty. */
  ghost predicate FreshDisk(g: Geometry, base: Image) {
    ValidGeometry(g) && |base.blocks| == g.nblocks && base.head == []
  }

  lemma {:induction false} RunKeepsInv(g: Geometry, base: Image, s: State, steps: seq<Step>)
    requires Inv(g, base, s) && ValidRun(g, s, steps)
    ensures Inv(g, base, Final(g, s, steps))
    decreases |steps|
  {
    if steps != [] {
      StepKeepsInv(g, base, s, steps[0]);
      RunKeepsInv(g, base, Do(g, s, steps[0]), steps[1..]);
    }
  }

  /** Group commit over whole runs. Stop any run in any state, crash, let any number
      of recoveries crash too, then recover: the disk shows exactly the effect of
      the durable part of the history, which consists of whole operations that have
      ended. Nothing outstanding means everything is durable. */
  lemma GroupCommit(g: Geometry, base: Image, steps: seq<Step>, crashes: seq<nat>)
    requires FreshDisk(g, base) && ValidRun(g, Init(base), steps)
    ensures var s := Final(g, Init(base), steps);
            && Typed(g, base, s) && WholeOps(s) && GoodDisk(g, s.disk)
            && (s.phase.Running? && s.ops == [] ==> s.committed == |s.trace|)
            && var d := CrashingRecoveries(g, s.disk, crashes);
            Settled(g, ApplyAll(d, RecoveryWrites(g, d)), Replay(g, base.blocks, s.trace[..s.committed]))
  {
    InitInv(g, base);
    RunKeepsInv(g, base, Init(base), steps);
    var s := Final(g, Init(base), steps);
    InvMeans(g, base, s);
    RecoveryCompletes(g, s.disk, Stable(g, base, s), crashes);
  }

  /** No operation is under way, and the cache is up. */
  predicate Quiet(s: State) {
    s.ops == [] && !s.phase.Recover?
  }

  /** What is durable changes only at a header write, to what the cache then shows: a time with no operation under
      way. */
  lemma StepStable(g: Geometry, base: Image, s: State, step: Step)
    requires Inv(g, base, s) && Enabled(g, s, step)
    ensures Inv(g, base, Do(g, s, step))
    ensures var s' := Do(g, s, step);
      Stable(g, base, s') == Stable(g, base, s) || (Quiet(s') && SameHome(g, s'.view, Stable(g, base, s')))
  {
    StepKeepsInv(g, base, s, step);
    var s' := Do(g, s, step);
    if s'.committed == s.committed {
      assert s'.trace[..s.committed] == s.trace[..s.committed];
    } else {
      assert s'.trace[..s'.committed] == s'.trace;
    }
  }

  /** home is what was durable at the start; it still is (n == 0), or what the cache showed after n steps is. */
  lemma {:induction false} QuietRun(g: Geometry, base: Image, s: State, steps: seq<Step>, home: seq<Block>)
      returns (n: nat)
    requires Inv(g, base, s) && ValidRun(g, s, steps) && SameHome(g, home, Stable(g, base, s))
    ensures n <= |steps| && Inv(g, base, Final(g, s, steps)) && ValidRun(g, s, steps[..n])
    ensures n == 0 ==> SameHome(g, home, Stable(g, base, Final(g, s, steps)))
    ensures n > 0 ==> var q := Final(g, s, steps[..n]);
      Quiet(q) && SameHome(g, q.view, Stable(g, base, Final(g, s, steps)))
    decreases |steps|
  {
    hide PhaseInv, WholeOps, LogFormat.Loggable, AllHome, Enabled, Do, Replay, SameHome;
    n := 0;
    if steps != [] {
      var s' := Do(g, s, steps[0]);
      StepStable(g, base, s, steps[0]);
      var kept := Stable(g, base, s') == Stable(g, base, s);
      n := QuietRun(g, base, s', steps[1..], if kept then home else s'.view);
      if n > 0 || !kept {
        assert steps[..n + 1][1..] == steps[1..][..n];
        n := n + 1;
      }
    }
  }

  /** For operations in any interleaving: crash anywhere, let recoveries crash too, then recover. The disk shows what
      the cache showed at some time in the run when no operation was under way; now, if that is so now. */
  lemma QuietRecovery(g: Geometry, base: Image, steps: seq<Step>, crashes: seq<nat>) returns (n: nat)
    requires FreshDisk(g, base) && ValidRun(g, Init(base), steps)
    ensures n <= |steps| && ValidRun(g, Init(base), steps[..n]) && Quiet(Final(g, Init(base), steps[..n]))
    ensures var s := Final(g, Init(base), steps);
      && GoodDisk(g, s.disk)
      && var d := CrashingRecoveries(g, s.disk, crashes);
         var r := ApplyAll(d, RecoveryWrites(g, d));
         && Settled(g, r, Final(g, Init(base), steps[..n]).view)
         && (s.phase.Running? && s.ops == [] ==> Settled(g, r, s.view))
  {
    InitInv(g, base);
    n := QuietRun(g, base, Init(base), steps, base.blocks);
    GroupCommit(g, base, steps, crashes);
    HomeUntouchedBeforeHeader(g, base, steps);
    var s := Final(g, Init(base), steps);
    assert s.committed == |s.trace| ==> s.trace[..s.committed] == s.trace;
  }

  /** While the group runs the cache shows every logging so far, and home blocks on
      disk do not change before the header write. */
  lemma HomeUntouchedBeforeHeader(g: Geometry, base: Image, steps: seq<Step>)
    requires FreshDisk(g, base) && ValidRun(g, Init(base), steps)
    ensures var s := Final(g, Init(base), steps);
            && Typed(g, base, s)
            && (!s.phase.Recover? ==> SameHome(g, s.view, Replay(g, base.blocks, s.trace)))
            && (s.phase.Running? || (s.phase.Commit? && s.phase.k <= |s.phase.batch|) ==>
                  SameHome(g, s.disk.blocks, Replay(g, base.blocks, s.trace[..s.committed])))
  {
    InitInv(g, base);
    RunKeepsInv(g, base, Init(base), steps);
    InvMeans(g, base, Final(g, Init(base), steps));
  }

  /** The "log.committing" panic of end_op is unreachable, and commit and recovery
      can always take their next step. */
  lemma NeverStuck(g: Geometry, base: Image, steps: seq<Step>)
    requires FreshDisk(g, base) && ValidRun(g, Init(base), steps)
    ensures var s := Final(g, Init(base), steps);
            && (s.ops != [] ==> !EndPanics(s))
            && (s.phase.Commit? ==> Enabled(g, s, CommitWrite) || Enabled(g, s, CommitDone))
            && (s.phase.Recover? ==> Enabled(g, s, RecoveryWrite) || Enabled(g, s, Boot))
  {
    InitInv(g, base);
    RunKeepsInv(g, base, Init(base), steps);
    var s := Final(g, Init(base), steps);
    match s.phase
    case Running =>
    case Commit(_, _, k) => assert k <= |PhaseWrites(g, s)|;
    case Recover(_, k) => assert k <= |PhaseWrites(g, s)|;
  }

  /** The durable history of `s` is still durable in `t`. */
  ghost predicate KeepsDurable(s: State, t: State) {
    && s.committed <= t.committed <= |t.trace| && s.committed <= |s.trace|
    && forall i :: 0 <= i < s.committed ==> t.trace[i] == s.trace[i]
  }

  lemma StepKeepsDurable(g: Geometry, s: State, step: Step)
    requires s.committed <= |s.trace| && Enabled(g, s, step)
    ensures KeepsDurable(s, Do(g, s, step))
  {
  }

  /** Once durable, durable for the rest of the run, whatever crashes. */
  lemma {:induction false} DurableForever(g: Geometry, s: State, steps: seq<Step>)
    requires s.committed <= |s.trace| && ValidRun(g, s, steps)
    ensures KeepsDurable(s, Final(g, s, steps))
    decreases |steps|
  {
    if steps != [] {
      StepKeepsDurable(g, s, steps[0]);
      DurableForever(g, Do(g, s, steps[0]), steps[1..]);
    }
  }

  lemma {:induction false} RunAppend(g: Geometry, s: State, steps: seq<Step>, step: Step)
    requires ValidRun(g, s, steps) && Enabled(g, Final(g, s, steps), step)
    ensures ValidRun(g, s, steps + [step])
    ensures Final(g, s, steps + [step]) == Do(g, Final(g, s, steps), step)
    decreases |steps|
  {
    if steps == [] {
      assert steps + [step] == [step];
    } else {
      RunAppend(g, Do(g, s, steps[0]), steps[1..], step);
      assert (steps + [step])[1..] == steps[1..] + [step];
    }
  }

  // ---------------------------------------------------------------- the reservation

  /** A run in which every operation keeps to its budget of MAXOPBLOCKS new entries. */
  ghost predicate BudgetedRun(g: Geometry, s: State, steps: seq<Step>)
    decreases |steps|
  {
    steps == [] ||
    (Enabled(g, s, steps[0]) && Budgeted(s, steps[0]) && BudgetedRun(g, Do(g, s, steps[0]), steps[1..]))
  }

  predicate Budgeted(s: State, step: Step) {
    step.LogWrite? ==> WithinBudget(s, step.i, step.b)
  }

  lemma {:induction false} BudgetedIsValid(g: Geometry, s: State, steps: seq<Step>)
    requires BudgetedRun(g, s, steps)
    ensures ValidRun(g, s, steps)
    decreases |steps|
  {
    if steps != [] {
      BudgetedIsValid(g, Do(g, s, steps[0]), steps[1..]);
    }
  }

  lemma {:induction false} BudgetedAppend(g: Geometry, s: State, steps: seq<Step>, step: Step)
    requires BudgetedRun(g, s, steps) && ValidRun(g, s, steps) && Enabled(g, Final(g, s, steps), step)
    requires Budgeted(Final(g, s, steps), step)
    ensures BudgetedRun(g, s, steps + [step])
    decreases |steps|
  {
    if steps == [] {
      assert steps + [step] == [step];
    } else {
      BudgetedAppend(g, Do(g, s, steps[0]), steps[1..], step);
      assert (steps + [step])[1..] == steps[1..] + [step];
    }
  }

  lemma LogWriteKeepsReserved(g: Geometry, s: State, i: nat, b: nat, v: Block)
    requires Reserved(s) && Enabled(g, s, LogWrite(i, b, v)) && WithinBudget(s, i, b)
    ensures Reserved(Do(g, s, LogWrite(i, b, v)))
  {
    var s' := Do(g, s, LogWrite(i, b, v));
    UnspentSplit(s.ops, i);
    UnspentSplit(s'.ops, i);
    assert s'.ops[..i] == s.ops[..i] && s'.ops[i + 1..] == s.ops[i + 1..];
  }

  lemma StepKeepsReserved(g: Geometry, s: State, step: Step)
    requires Reserved(s) && Enabled(g, s, step) && Budgeted(s, step)
    ensures Reserved(Do(g, s, step))
  {
    match step
    case Begin(id) =>
      UnspentConcat(s.ops, [Op(id, 0)]);
      UnspentBounds(s.ops);
    case LogWrite(i, b, v) => LogWriteKeepsReserved(g, s, i, b, v);
    case End(i) =>
      UnspentSplit(s.ops, i);
      UnspentConcat(s.ops[..i], s.ops[i + 1..]);
    case Crash => UnspentBounds(s.ops);
    case _ =>
  }

  lemma {:induction false} RunKeepsReserved(g: Geometry, s: State, steps: seq<Step>)
    requires Reserved(s) && BudgetedRun(g, s, steps) && ValidRun(g, s, steps)
    ensures Reserved(Final(g, s, steps))
    decreases |steps|
  {
    if steps != [] {
      StepKeepsReserved(g, s, steps[0]);
      RunKeepsReserved(g, Do(g, s, steps[0]), steps[1..]);
    }
  }

  /** begin_op's reservation holds in every run whose operations keep to their budgets: what is logged
      plus what outstanding operations may still add is at most LOGSIZE, and no block is logged twice. */
  lemma Reservation(g: Geometry, base: Image, steps: seq<Step>, i: nat, b: nat)
    requires FreshDisk(g, base) && BudgetedRun(g, Init(base), steps)
    ensures ValidRun(g, Init(base), steps)
    ensures var s := Final(g, Init(base), steps);
            && |s.lh| + Unspent(s.ops) <= LOGSIZE && Distinct(s.lh)
            && (WithinBudget(s, i, b) && b !in s.lh ==> |s.lh| < LOGSIZE)
            && (WithinBudget(s, i, b) && b !in s.lh && g.size >= LOGSIZE + 1 ==> !TooBig(g, s))
  {
    BudgetedIsValid(g, Init(base), steps);
    InitInv(g, base);
    RunKeepsInv(g, base, Init(base), steps);
    RunKeepsReserved(g, Init(base), steps);
    var s := Final(g, Init(base), steps);
    if i < |s.ops| {
      UnspentSplit(s.ops, i);
      UnspentBounds(s.ops[..i]);
      UnspentBounds(s.ops[i + 1..]);
    }
  }

  /** What operation i of three has logged after n entries in all, when each in turn logs w. */
  function Used(i: nat, n: nat, w: nat): nat {
    if n < i * w then 0 else if n < (i + 1) * w then n - i * w else w
  }

  /** Three operations are outstanding and have logged the n blocks after the log, w each in turn. */
  ghost predicate Filled(g: Geometry, s: State, n: nat, w: nat) {
    && s.phase.Running? && |s.view| == g.nblocks
    && |s.ops| == 3 && (forall i :: 0 <= i < 3 ==> s.ops[i].used == Used(i, n, w))
    && |s.lh| == n && (forall i :: 0 <= i < n ==> s.lh[i] == g.start + g.size + i)
  }

  lemma BeginThree(g: Geometry, base: Image, w: nat) returns (steps: seq<Step>)
    requires FreshDisk(g, base)
    ensures ValidRun(g, Init(base), steps) && BudgetedRun(g, Init(base), steps)
    ensures Filled(g, Final(g, Init(base), steps), 0, w)
  {
    var s := Init(base);
    RunAppend(g, s, [], Begin(0));
    RunAppend(g, s, [] + [Begin(0)], Begin(1));
    RunAppend(g, s, [] + [Begin(0)] + [Begin(1)], Begin(2));
    BudgetedAppend(g, s, [], Begin(0));
    BudgetedAppend(g, s, [] + [Begin(0)], Begin(1));
    BudgetedAppend(g, s, [] + [Begin(0)] + [Begin(1)], Begin(2));
    steps := [] + [Begin(0)] + [Begin(1)] + [Begin(2)];
    assert Used(0, 0, w) == Used(1, 0, w) == Used(2, 0, w) == 0;
  }

  /** One more entry, by the operation whose turn it is. */
  lemma FillNext(g: Geometry, s: State, n: nat, w: nat, v: Block) returns (step: Step)
    requires Filled(g, s, n, w) && g.start + g.size + n < g.nblocks && n < LOGSIZE && n < g.size - 1 && n < 3 * w
    ensures Enabled(g, s, step) && Filled(g, Do(g, s, step), n + 1, w)
    ensures w <= MAXOPBLOCKS ==> Budgeted(s, step)
  {
    var i := if n < w then 0 else if n < 2 * w then 1 else 2;
    assert 0 * w == 0 && 1 * w == w;
    step := LogWrite(i, g.start + g.size + n, v);
  }

  /** A run of three operations that log n blocks between them; within budget if w is. */
  lemma {:induction false} FillRun(g: Geometry, base: Image, n: nat, w: nat) returns (steps: seq<Step>)
    requires FreshDisk(g, base) && g.start + g.size + LOGSIZE <= g.nblocks
    requires n <= LOGSIZE <= 3 * w && n <= g.size - 1
    ensures ValidRun(g, Init(base), steps) && Filled(g, Final(g, Init(base), steps), n, w)
    ensures w <= MAXOPBLOCKS ==> BudgetedRun(g, Init(base), steps)
  {
    if n == 0 {
      steps := BeginThree(g, base, w);
    } else {
      var before := FillRun(g, base, n - 1, w);
      var s := Final(g, Init(base), before);
      var step := FillNext(g, s, n - 1, w, base.blocks[0]);
      RunAppend(g, Init(base), before, step);
      if w <= MAXOPBLOCKS {
        BudgetedAppend(g, Init(base), before, step);
      }
      steps := before + [step];
    }
  }

  /** In no run within budgets does log_write panic on an operation that adds an entry within its own. */
  ghost predicate ReservationSuffices(g: Geometry, base: Image) {
    forall steps, i: nat, b: nat ::
      ValidRun(g, Init(base), steps) && BudgetedRun(g, Init(base), steps)
      && WithinBudget(Final(g, Init(base), steps), i, b)
      && Home(g, b) && b !in Final(g, Init(base), steps).lh ==>
        !TooBig(g, Final(g, Init(base), steps))
  }

  /** begin_op budgets against LOGSIZE but log_write also checks the log's size on
      disk: the reservation is enough exactly when the log has LOGSIZE + 1 blocks.
      (mkfs makes a log of LOGSIZE blocks, for which it is not.) */
  lemma ReservationExact(g: Geometry, base: Image)
    requires FreshDisk(g, base) && g.start + g.size + LOGSIZE <= g.nblocks
    ensures ReservationSuffices(g, base) <==> g.size >= LOGSIZE + 1
  {
    if g.size >= LOGSIZE + 1 {
      forall steps, i: nat, b: nat |
        ValidRun(g, Init(base), steps) && BudgetedRun(g, Init(base), steps)
        && WithinBudget(Final(g, Init(base), steps), i, b)
        && Home(g, b) && b !in Final(g, Init(base), steps).lh
        ensures !TooBig(g, Final(g, Init(base), steps))
      {
        Reservation(g, base, steps, i, b);
      }
    } else {
      var n := g.size - 1;
      var steps := FillRun(g, base, n, MAXOPBLOCKS);
      var s := Final(g, Init(base), steps);
      assert s.ops[n / MAXOPBLOCKS].used < MAXOPBLOCKS;
      assert WithinBudget(s, n / MAXOPBLOCKS, g.start + g.size + n);
      assert TooBig(g, s);
    }
  }

  /** Even with a log of LOGSIZE + 1 blocks or more, log_write checks for room before it
      looks for an entry to reuse: a run within every budget reaches a state where
      rewriting an already logged block panics. That happens only with a full log. */
  lemma AbsorptionCanPanic(g: Geometry, base: Image) returns (steps: seq<Step>)
    requires FreshDisk(g, base) && g.start + g.size + LOGSIZE <= g.nblocks && g.size >= LOGSIZE + 1
    ensures ValidRun(g, Init(base), steps) && BudgetedRun(g, Init(base), steps)
    ensures var s := Final(g, Init(base), steps);
            && s.lh != [] && 0 <= s.lh[0] && Home(g, s.lh[0]) && WithinBudget(s, 0, s.lh[0]) && TooBig(g, s)
    ensures forall steps' :: ValidRun(g, Init(base), steps') ==>
              (TooBig(g, Final(g, Init(base), steps')) <==> |Final(g, Init(base), steps').lh| == LOGSIZE)
  {
    steps := FillRun(g, base, LOGSIZE, MAXOPBLOCKS);
    forall steps' | ValidRun(g, Init(base), steps')
      ensures TooBig(g, Final(g, Init(base), steps')) <==> |Final(g, Init(base), steps').lh| == LOGSIZE
    {
      InitInv(g, base);
      RunKeepsInv(g, base, Init(base), steps');
    }
  }

  /** Operations that need w blocks each, over the budget: begin_op lets three in, and a log of any size runs full
      before the third has logged all of its w. */
  lemma OverBudgetPanics(g: Geometry, base: Image, w: nat) returns (steps: seq<Step>)
    requires FreshDisk(g, base) && g.start + g.size + LOGSIZE <= g.nblocks && g.size >= LOGSIZE + 1 && w > MAXOPBLOCKS
    ensures ValidRun(g, Init(base), steps)
    ensures var s := Final(g, Init(base), steps);
            && |s.ops| == 3 && s.ops[2].used < w && (forall i :: 0 <= i < 3 ==> s.ops[i].used <= w)
            && (forall b :: b in s.lh ==> g.start + g.size <= b < g.start + g.size + LOGSIZE) && TooBig(g, s)
  {
    steps := FillRun(g, base, LOGSIZE, w);
    assert Used(2, LOGSIZE, w) < w;
  }

  // ---------------------------------------------------------------- which loggings fit

  /** How many entries the two guards of log_write leave room for. */
  function Room(g: Geometry): int {
    if LOGSIZE <= g.size - 1 then LOGSIZE else g.size - 1
  }

  /** Calls of log_write by operations under way. */
  ghost predicate Loggings(g: Geometry, s: State, ws: seq<Step>) {
    forall k :: 0 <= k < |ws| ==> ws[k].LogWrite? && ws[k].i < |s.ops| && Home(g, ws[k].b) && ws[k].b < |s.view|
  }

  /** The blocks they name. */
  ghost function Named(ws: seq<Step>): (r: set<int>)
    ensures forall k :: 0 <= k < |ws| && ws[k].LogWrite? ==> ws[k].b in r
  {
    set k | 0 <= k < |ws| && ws[k].LogWrite? :: ws[k].b as int
  }

  ghost function Entries(lh: seq<int>): set<int> {
    set b | b in lh
  }

  lemma {:induction false} EntriesCount(lh: seq<int>)
    requires Distinct(lh)
    ensures |Entries(lh)| == |lh|
  {
    if lh != [] {
      DistinctElements(lh);
      var n := |lh| - 1;
      DistinctElements(lh[..n]);
      EntriesCount(lh[..n]);
      assert lh == lh[..n] + [lh[n]];
      assert Entries(lh) == Entries(lh[..n]) + {lh[n]};
    }
  }

  lemma SubsetCount(a: set<int>, b: set<int>)
    requires a <= b
    ensures |a| <= |b|
  {
    assert b == a + (b - a);
  }

  lemma NamedNext(ws: seq<Step>)
    requires |ws| > 1 && ws[0].LogWrite?
    ensures Named(ws[..|ws| - 1]) == {ws[0].b as int} + Named(ws[1..][..|ws| - 2])
  {
    var a, b := ws[..|ws| - 1], ws[1..][..|ws| - 2];
    assert a == [ws[0]] + b;
    forall x | x in Named(a)
      ensures x in {ws[0].b as int} + Named(b)
    {
      var k :| 0 <= k < |a| && a[k].LogWrite? && a[k].b == x;
      if k > 0 {
        assert b[k - 1] == a[k];
      }
    }
    forall x | x in Named(b)
      ensures x in Named(a)
    {
      var k :| 0 <= k < |b| && b[k].LogWrite? && b[k].b == x;
      assert a[k + 1] == b[k];
    }
  }

  lemma LogWriteDistinct(g: Geometry, s: State, w: Step)
    requires Distinct(s.lh) && w.LogWrite? && Enabled(g, s, w)
    ensures Distinct(Do(g, s, w).lh) && Entries(Do(g, s, w).lh) == Entries(s.lh) + {w.b as int}
    ensures |Do(g, s, w).ops| == |s.ops| && |Do(g, s, w).view| == |s.view|
  {
    if w.b !in s.lh {
      DistinctAppend(s.lh, w.b);
    }
  }

  lemma NamedNone(ws: seq<Step>)
    requires ws == []
    ensures Named(ws) == {}
  {
  }

  lemma NoSteps(g: Geometry, s: State, ws: seq<Step>)
    requires ws == []
    ensures ValidRun(g, s, ws)
  {
  }

  lemma LoggingIs(g: Geometry, s: State, ws: seq<Step>)
    requires Loggings(g, s, ws) && ws != []
    ensures ws[0].LogWrite?
  {
  }

  /** The first of several log_writes: the others follow if there is room for it. */
  lemma FirstLogging(g: Geometry, s: State, ws: seq<Step>) returns (s': State)
    requires Distinct(s.lh) && Loggings(g, s, ws) && ws != []
    ensures TooBig(g, s) ==> !ValidRun(g, s, ws)
    ensures !TooBig(g, s) ==>
      && Distinct(s'.lh) && Entries(s'.lh) == Entries(s.lh) + {ws[0].b as int} && Loggings(g, s', ws[1..])
      && (ValidRun(g, s, ws) <==> ValidRun(g, s', ws[1..]))
  {
    s' := s;
    if !TooBig(g, s) {
      s' := Do(g, s, ws[0]);
      LogWriteDistinct(g, s, ws[0]);
    }
  }

  /** A sequence of log_writes, by any operations under way and in any order, runs without the "too big a transaction"
      panic if and only if the entries there are, and the different blocks of all but the last, are fewer than there is
      room for. */
  lemma {:induction false} LoggingsExact(g: Geometry, s: State, ws: seq<Step>)
    requires Distinct(s.lh) && Loggings(g, s, ws)
    ensures ValidRun(g, s, ws) <==> ws == [] || |Entries(s.lh) + Named(ws[..|ws| - 1])| < Room(g)
    decreases |ws|
  {
    hide Do, Enabled, ValidRun, Distinct, Entries, Named, Loggings;
    if ws == [] {
      NoSteps(g, s, ws);
    } else {
      EntriesCount(s.lh);
      var s' := FirstLogging(g, s, ws);
      if |ws| == 1 {
        assert Entries(s.lh) + Named(ws[..0]) == Entries(s.lh) by { NamedNone(ws[..0]); }
        NoSteps(g, s', ws[1..]);
      } else {
        var all := Entries(s.lh) + Named(ws[..|ws| - 1]);
        SubsetCount(Entries(s.lh), all);
        LoggingIs(g, s, ws);
        NamedNext(ws);
        if !TooBig(g, s) {
          LoggingsExact(g, s', ws[1..]);
          assert Entries(s'.lh) + Named(ws[1..][..|ws| - 2]) == all;
        }
      }
    }
  }

  /** Where the panic comes: after the longest part of ws that runs. */
  lemma {:induction false} FirstPanic(g: Geometry, s: State, ws: seq<Step>) returns (n: nat)
    requires Loggings(g, s, ws) && !ValidRun(g, s, ws)
    ensures n < |ws| && ValidRun(g, s, ws[..n]) && TooBig(g, Final(g, s, ws[..n]))
    decreases |ws|
  {
    n := 0;
    if !TooBig(g, s) {
      n := FirstPanic(g, Do(g, s, ws[0]), ws[1..]);
      assert ws[..n + 1][1..] == ws[1..][..n];
      n := n + 1;
    }
  }
}
