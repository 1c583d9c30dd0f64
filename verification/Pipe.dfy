/** The pipe of xv6/pipe.c between any number of readers and writers: a ring of PIPESIZE bytes with
    counters that wrap at 2^32, one lock, and sleep/wakeup on the two counters. Every loop pass is a step;
    a process waits for the lock before it enters and after it is woken. */
module Pipe {

  import opened Common

  const PIPESIZE: int := 512

  /** What a process in pipewrite or piperead is about to do. */
  datatype Pc =
    | Outside
    | WLock | WLoop | WFull | WTellReaders | WSleep | WAsleep | WStore | WDone | WUnlock | WGiveUp
    | RLock | REmpty | RSleep | RAsleep | RCopy | RDone | RUnlock | RGiveUp

  /** i: bytes written or read so far; n: how many to write or read; asleep: sleeping in WAsleep or RAsleep;
      untold (history): bytes were stored since the last wakeup of readers. */
  datatype Proc = Proc(pc: Pc, killed: bool, asleep: bool, i: nat, n: nat, untold: bool)

  /** src and got: the bytes each process writes, and has read, in its current call. History: the bytes stored, the
      process that stored each, the bytes delivered, and the places in the stream of what each call wrote. */
  datatype State = State(
    procs: seq<Proc>, src: seq<seq<Byte>>, got: seq<seq<Byte>>,
    lock: int, data: seq<Byte>, nread: int, nwrite: int, readopen: bool, writeopen: bool,
    stored: seq<Byte>, author: seq<nat>, delivered: seq<Byte>, sent: seq<seq<nat>>)

  datatype Step =
    | Write(p: nat, src: seq<Byte>) | Read(p: nat, n: nat)   // system calls
    | Go(p: nat)                                                // the next step of a process inside one
    | Kill(p: nat)
    | CloseWrite | CloseRead                                    // pipeclose, when the last reference goes

  /** pipealloc: whatever the page held is in the ring. */
  function Init(k: nat, page: seq<Byte>): (s: State) {
    State(seq(k, _ => Proc(Outside, false, false, 0, 0, false)), seq(k, _ => []), seq(k, _ => []),
          FREE, page, 0, 0, true, true, [], [], [], seq(k, _ => []))
  }

  /** What a process looks at before it decides: the two counter tests and the two open flags. */
  datatype View = View(full: bool, empty: bool, readopen: bool, writeopen: bool)

  function Look(s: State): (v: View) {
    View(s.nwrite == (s.nread + PIPESIZE) % UINT, s.nread == s.nwrite, s.readopen, s.writeopen)
  }

  predicate IsWriter(pc: Pc) {
    pc.WLock? || pc.WLoop? || pc.WFull? || pc.WTellReaders? || pc.WSleep? || pc.WAsleep? || pc.WStore? || pc.WDone?
    || pc.WUnlock? || pc.WGiveUp?
  }

  predicate IsReader(pc: Pc) {
    pc.RLock? || pc.REmpty? || pc.RSleep? || pc.RAsleep? || pc.RCopy? || pc.RDone? || pc.RUnlock? || pc.RGiveUp?
  }

  /** wakeup(&p->nread) and wakeup(&p->nwrite), when asked for */
  function Woken(q: Proc, readers: bool, writers: bool): Proc {
    if (readers && q.pc.RAsleep?) || (writers && q.pc.WAsleep?) then q.(asleep := false) else q
  }

  function Wake(procs: seq<Proc>, readers: bool, writers: bool): (r: seq<Proc>)
    ensures |r| == |procs|
  {
    seq(|procs|, i requires 0 <= i < |procs| => Woken(procs[i], readers, writers))
  }

  predicate Shaped(s: State) {
    |s.src| == |s.got| == |s.sent| == |s.procs| && |s.data| == PIPESIZE
  }

  predicate Enabled(s: State, step: Step) {
    Shaped(s) &&
    match step
    case Write(p, _) => p < |s.procs| && s.procs[p].pc.Outside? && s.writeopen
    case Read(p, _) => p < |s.procs| && s.procs[p].pc.Outside? && s.readopen
    case Kill(p) => p < |s.procs|
    case CloseWrite => s.lock == FREE && s.writeopen && forall i :: 0 <= i < |s.procs| ==> !IsWriter(s.procs[i].pc)
    case CloseRead => s.lock == FREE && s.readopen && forall i :: 0 <= i < |s.procs| ==> !IsReader(s.procs[i].pc)
    case Go(p) => p < |s.procs| && CanGo(s.procs[p], s.lock) && (s.procs[p].pc.WStore? ==> s.procs[p].i < |s.src[p]|)
  }

  predicate CanGo(q: Proc, lock: int) {
    && !q.pc.Outside?
    && (q.pc.WLock? || q.pc.RLock? ==> lock == FREE)
    && (q.pc.WAsleep? || q.pc.RAsleep? ==> lock == FREE && !q.asleep)
  }

  /** Whether the step takes a byte out of the ring. */
  predicate Takes(q: Proc, v: View) {
    q.pc.RCopy? && q.i < q.n && !v.empty
  }

  function NextPc(q: Proc, v: View): Pc {
    match q.pc
    case Outside => Outside
    case WLock => WLoop
    case WLoop => if q.i < q.n then WFull else WDone
    case WFull => if !v.full then WStore else if !v.readopen || q.killed then WGiveUp else WTellReaders
    case WTellReaders => WSleep
    case WSleep => WAsleep
    case WAsleep => WFull
    case WStore => WLoop
    case WDone => WUnlock
    case WUnlock => Outside
    case WGiveUp => Outside
    case RLock => REmpty
    case REmpty => if !v.empty || !v.writeopen then RCopy else if q.killed then RGiveUp else RSleep
    case RSleep => RAsleep
    case RAsleep => REmpty
    case RCopy => if Takes(q, v) then RCopy else RDone
    case RDone => RUnlock
    case RUnlock => Outside
    case RGiveUp => Outside
  }

  /** The process after its step. */
  function Next(q: Proc, v: View): (q': Proc) {
    Proc(NextPc(q, v), q.killed, q.asleep || q.pc.WSleep? || q.pc.RSleep?,
         if q.pc.WStore? || Takes(q, v) then q.i + 1 else q.i, q.n,
         q.pc.WStore? || (q.untold && !q.pc.WTellReaders? && !q.pc.WDone?))
  }

  /** acquire on entry and on waking; release on return, and by sleep once the process is marked asleep */
  function NextLock(pc: Pc, p: nat, lock: int): int {
    if pc.WLock? || pc.RLock? || pc.WAsleep? || pc.RAsleep? then p
    else if pc.WSleep? || pc.WUnlock? || pc.WGiveUp? || pc.RSleep? || pc.RUnlock? || pc.RGiveUp? then FREE
    else lock
  }

  function GoStep(s: State, p: nat): (s': State)
    requires Enabled(s, Go(p))
  {
    var q, v := s.procs[p], Look(s);
    var procs := Wake(s.procs, q.pc.WTellReaders? || q.pc.WDone?, q.pc.RDone?)[p := Next(q, v)];
    var lock := NextLock(q.pc, p, s.lock);
    if q.pc.WStore? then
      var b := s.src[p][q.i];
      s.(procs := procs, lock := lock, data := s.data[s.nwrite % PIPESIZE := b], nwrite := (s.nwrite + 1) % UINT,
         stored := s.stored + [b], author := s.author + [p], sent := s.sent[p := s.sent[p] + [|s.stored|]])
    else if Takes(q, v) then
      var b := s.data[s.nread % PIPESIZE];
      s.(procs := procs, lock := lock, nread := (s.nread + 1) % UINT,
         delivered := s.delivered + [b], got := s.got[p := s.got[p] + [b]])
    else
      s.(procs := procs, lock := lock)
  }

  function Do(s: State, step: Step): (s': State)
    requires Enabled(s, step)
  {
    match step
    case Write(p, src) =>
      s.(procs := s.procs[p := s.procs[p].(pc := WLock, i := 0, n := |src|, untold := false)],
         src := s.src[p := src], sent := s.sent[p := []])
    case Read(p, n) =>
      s.(procs := s.procs[p := s.procs[p].(pc := RLock, i := 0, n := n)], got := s.got[p := []])
    case Go(p) => GoStep(s, p)
    case Kill(p) => s.(procs := s.procs[p := s.procs[p].(killed := true, asleep := false)])
    case CloseWrite => s.(writeopen := false, procs := Wake(s.procs, true, false))
    case CloseRead => s.(readopen := false, procs := Wake(s.procs, false, true))
  }

  // ---------------------------------------------------------------- the byte stream

  /** The ring holds the bytes stored and not yet delivered, the counters count modulo 2^32. */
  ghost predicate Stream(data: seq<Byte>, nread: int, nwrite: int, stored: seq<Byte>, delivered: seq<Byte>) {
    var r, w := |delivered|, |stored|;
    && |data| == PIPESIZE && r <= w <= r + PIPESIZE
    && nread == r % UINT && nwrite == w % UINT
    && (forall k {:trigger stored[k]} :: r <= k < w ==> data[k % PIPESIZE] == stored[k])
    && delivered <= stored
  }

  lemma CounterIndex(k: int)
    ensures k % UINT % PIPESIZE == k % PIPESIZE
  {
    assert k == UINT * (k / UINT) + k % UINT;
    assert UINT == PIPESIZE * 0x80_0000;
  }

  /** The uint tests for full and empty are exact, through any number of wraps. */
  lemma LookExact(s: State)
    requires Stream(s.data, s.nread, s.nwrite, s.stored, s.delivered)
    ensures Look(s).full <==> |s.stored| == |s.delivered| + PIPESIZE
    ensures Look(s).empty <==> |s.stored| == |s.delivered|
  {
  }

  lemma NextCount(k: int)
    ensures (k % UINT + 1) % UINT == (k + 1) % UINT
  {
  }

  lemma Residues(a: int, b: int)
    requires a < b < a + PIPESIZE
    ensures a % PIPESIZE != b % PIPESIZE
  {
  }

  /** Storing overwrites no byte that is still to be read. */
  lemma StoreKeepsRing(data: seq<Byte>, stored: seq<Byte>, r: nat, w: nat, b: Byte, k: nat)
    requires |data| == PIPESIZE && w == |stored| && r <= k <= w < r + PIPESIZE
    requires k < w ==> data[k % PIPESIZE] == stored[k]
    ensures data[w % PIPESIZE := b][k % PIPESIZE] == (stored + [b])[k]
  {
    if k < w {
      Residues(k, w);
    }
  }

  lemma StoreByte(data: seq<Byte>, nread: int, nwrite: int, stored: seq<Byte>, delivered: seq<Byte>, b: Byte)
    requires Stream(data, nread, nwrite, stored, delivered) && |stored| < |delivered| + PIPESIZE
    ensures Stream(data[nwrite % PIPESIZE := b], nread, (nwrite + 1) % UINT, stored + [b], delivered)
  {
    var r, w := |delivered|, |stored|;
    assert nwrite % PIPESIZE == w % PIPESIZE by { CounterIndex(w); }
    assert (nwrite + 1) % UINT == (w + 1) % UINT by { NextCount(w); }
    var data', stored' := data[w % PIPESIZE := b], stored + [b];
    forall k | r <= k < w + 1
      ensures data'[k % PIPESIZE] == stored'[k]
    {
      StoreKeepsRing(data, stored, r, w, b, k);
    }
  }

  lemma TakeByte(data: seq<Byte>, nread: int, nwrite: int, stored: seq<Byte>, delivered: seq<Byte>)
    requires Stream(data, nread, nwrite, stored, delivered) && |delivered| < |stored|
    ensures data[nread % PIPESIZE] == stored[|delivered|]
    ensures Stream(data, (nread + 1) % UINT, nwrite, stored, delivered + [data[nread % PIPESIZE]])
  {
    var r := |delivered|;
    assert nread % PIPESIZE == r % PIPESIZE by { CounterIndex(r); }
    assert (nread + 1) % UINT == (r + 1) % UINT by { NextCount(r); }
    assert data[r % PIPESIZE] == stored[r];
  }

  // ---------------------------------------------------------------- the invariant

  predicate InLock(pc: Pc) {
    !pc.Outside? && !pc.WLock? && !pc.WAsleep? && !pc.RLock? && !pc.RAsleep?
  }

  /** A lock holder has seen what its program point says; whoever uses an end keeps it open. */
  ghost predicate PointOk(v: View, q: Proc) {
    && q.i <= q.n
    && match q.pc {
       case Outside => !q.asleep
       case WLock => !q.asleep && v.writeopen
       case WLoop => !q.asleep && v.writeopen
       case WFull => !q.asleep && v.writeopen && q.i < q.n
       case WTellReaders => !q.asleep && v.writeopen && q.i < q.n && v.full && v.readopen
       case WSleep => !q.asleep && v.writeopen && q.i < q.n && v.full && v.readopen && !q.untold
       case WAsleep => v.writeopen && q.i < q.n
       case WStore => !q.asleep && v.writeopen && q.i < q.n && !v.full
       case WDone => !q.asleep && v.writeopen && q.i == q.n
       case WUnlock => !q.asleep && v.writeopen && q.i == q.n && !q.untold
       case WGiveUp => !q.asleep && v.writeopen && v.full && (q.killed || !v.readopen)
       case RLock => !q.asleep && v.readopen && q.i == 0
       case REmpty => !q.asleep && v.readopen && q.i == 0
       case RSleep => !q.asleep && v.readopen && q.i == 0 && v.empty && v.writeopen
       case RAsleep => v.readopen && q.i == 0
       case RCopy => !q.asleep && v.readopen && (q.i > 0 || !v.empty || !v.writeopen)
       case RDone => !q.asleep && v.readopen && ReadEnds(v, q)
       case RUnlock => !q.asleep && v.readopen && ReadEnds(v, q)
       case RGiveUp => !q.asleep && v.readopen && q.i == 0 && v.empty && v.writeopen
    }
  }

  /** A read stops short only on an empty ring, and returns nothing only at end of file. */
  ghost predicate ReadEnds(v: View, q: Proc) {
    && (q.i == q.n || v.empty)
    && (q.i > 0 || q.n == 0 || (v.empty && !v.writeopen))
  }

  /** What a writer has sent stands in the stream, in order, under its name. */
  ghost predicate SentOk(stored: seq<Byte>, author: seq<nat>, p: nat, src: seq<Byte>, sent: seq<nat>) {
    && |sent| <= |src|
    && (forall k :: 0 <= k < |sent| ==> SentAt(stored, author, p, sent[k], src[k]))
    && (forall k :: 0 < k < |sent| ==> sent[k - 1] < sent[k])
  }

  ghost predicate SentAt(stored: seq<Byte>, author: seq<nat>, p: nat, at: nat, b: Byte) {
    at < |stored| && at < |author| && stored[at] == b && author[at] == p
  }

  /** What a reader has got is the end of what was delivered. */
  ghost predicate IsEnd(got: seq<Byte>, delivered: seq<Byte>) {
    |got| <= |delivered| && got == delivered[|delivered| - |got|..]
  }

  /** takes: a reader is taking bytes and will wake the writers */
  ghost predicate WriterSleepOk(v: View, q: Proc, takes: bool) {
    q.asleep && q.pc.WAsleep? ==> (v.full && v.readopen) || takes
  }

  predicate Taking(s: State) {
    0 <= s.lock < |s.procs| && (s.procs[s.lock].pc.RCopy? || s.procs[s.lock].pc.RDone?)
  }

  /** owes: a writer holds the lock and has stored bytes that readers were not told of */
  ghost predicate ReaderSleepOk(v: View, q: Proc, owes: bool) {
    q.asleep && q.pc.RAsleep? ==> (v.empty && v.writeopen) || owes
  }

  predicate Owing(s: State) {
    0 <= s.lock < |s.procs| && IsWriter(s.procs[s.lock].pc) && s.procs[s.lock].untold
  }

  ghost predicate ControlOk(v: View, q: Proc, p: nat, lock: int, takes: bool) {
    && (InLock(q.pc) <==> lock == p)
    && PointOk(v, q)
    && WriterSleepOk(v, q, takes)
  }

  ghost predicate WriteOk(s: State, p: nat)
    requires Shaped(s) && p < |s.procs|
  {
    IsWriter(s.procs[p].pc) ==>
      && |s.src[p]| == s.procs[p].n && |s.sent[p]| == s.procs[p].i
      && SentOk(s.stored, s.author, p, s.src[p], s.sent[p])
  }

  ghost predicate ReadOk(s: State, p: nat)
    requires Shaped(s) && p < |s.procs|
  {
    IsReader(s.procs[p].pc) ==>
      && |s.got[p]| == s.procs[p].i
      && (InLock(s.procs[p].pc) ==> IsEnd(s.got[p], s.delivered))
  }

  ghost predicate Inv(s: State) {
    && Shaped(s)
    && Stream(s.data, s.nread, s.nwrite, s.stored, s.delivered)
    && |s.author| == |s.stored|
    && -1 <= s.lock < |s.procs|
    && (forall p :: 0 <= p < |s.procs| ==> ControlOk(Look(s), s.procs[p], p, s.lock, Taking(s)))
    && (forall p :: 0 <= p < |s.procs| ==> WriteOk(s, p))
    && (forall p :: 0 <= p < |s.procs| ==> ReadOk(s, p))
  }

  ghost predicate ReadersOk(s: State) {
    forall p :: 0 <= p < |s.procs| ==> ReaderSleepOk(Look(s), s.procs[p], Owing(s))
  }

  // ---------------------------------------------------------------- one process's step

  /** How a step changes what is seen: storing leaves the ring not empty, taking leaves it not full. */
  ghost predicate Moves(q: Proc, v: View, v': View) {
    && v'.readopen == v.readopen && v'.writeopen == v.writeopen
    && (q.pc.WStore? || Takes(q, v) || v' == v)
    && (q.pc.WStore? ==> !v'.empty)
    && (Takes(q, v) ==> !v'.full)
  }

  lemma NextPoint(q: Proc, v: View, v': View, lock: int)
    requires PointOk(v, q) && CanGo(q, lock) && Moves(q, v, v')
    ensures PointOk(v', Next(q, v))
  {
  }

  predicate TakingPc(pc: Pc) {
    pc.RCopy? || pc.RDone?
  }

  lemma NextHolds(q: Proc, v: View, p: nat, lock: int)
    requires CanGo(q, lock) && (InLock(q.pc) <==> lock == p)
    ensures InLock(NextPc(q, v)) <==> NextLock(q.pc, p, lock) == p
    ensures NextLock(q.pc, p, lock) == p || NextLock(q.pc, p, lock) == FREE
    ensures lock == p || lock == FREE
  {
  }

  /** The process that moves keeps its own part. */
  lemma OwnControl(q: Proc, v: View, v': View, p: nat, lock: int, takes: bool)
    requires ControlOk(v, q, p, lock, takes) && CanGo(q, lock) && Moves(q, v, v')
    ensures ControlOk(v', Next(q, v), p, NextLock(q.pc, p, lock), TakingPc(NextPc(q, v)))
  {
    NextPoint(q, v, v', lock);
    NextHolds(q, v, p, lock);
  }

  /** A process off the lock sees nothing but the open flags. */
  lemma OffLock(v: View, v': View, o: Proc, readers: bool, writers: bool)
    requires PointOk(v, o) && !InLock(o.pc) && v'.readopen == v.readopen && v'.writeopen == v.writeopen
    ensures PointOk(v', Woken(o, readers, writers))
  {
  }

  lemma OtherControl(q: Proc, v: View, v': View, p: nat, lock: int, o: Proc, k: nat)
    requires CanGo(q, lock) && Moves(q, v, v') && k != p
    requires ControlOk(v, q, p, lock, lock == p && TakingPc(q.pc))
    requires ControlOk(v, o, k, lock, lock == p && TakingPc(q.pc))
    ensures ControlOk(v', Woken(o, q.pc.WTellReaders? || q.pc.WDone?, q.pc.RDone?), k, NextLock(q.pc, p, lock),
                      NextLock(q.pc, p, lock) == p && TakingPc(NextPc(q, v)))
  {
    NextHolds(q, v, p, lock);
    OffLock(v, v', o, q.pc.WTellReaders? || q.pc.WDone?, q.pc.RDone?);
  }

  /** A sleeping reader is told of what it waits for, unless a writer gives up. */
  lemma OtherReader(q: Proc, v: View, v': View, p: nat, lock: int, o: Proc)
    requires CanGo(q, lock) && Moves(q, v, v')
    requires (InLock(q.pc) <==> lock == p) && PointOk(v, q)
    requires ReaderSleepOk(v, o, lock == p && IsWriter(q.pc) && q.untold)
    requires o.asleep && o.pc.RAsleep? ==> !q.pc.WGiveUp?
    ensures ReaderSleepOk(v', Woken(o, q.pc.WTellReaders? || q.pc.WDone?, q.pc.RDone?),
                          NextLock(q.pc, p, lock) == p && IsWriter(NextPc(q, v)) && Next(q, v).untold)
  {
    NextHolds(q, v, p, lock);
  }

  // ---------------------------------------------------------------- the state's step

  lemma GoKeepsStream(s: State, p: nat)
    requires Enabled(s, Go(p)) && Inv(s)
    ensures Shaped(GoStep(s, p))
    ensures var t := GoStep(s, p); Stream(t.data, t.nread, t.nwrite, t.stored, t.delivered)
    ensures |GoStep(s, p).author| == |GoStep(s, p).stored|
    ensures Moves(s.procs[p], Look(s), Look(GoStep(s, p)))
  {
    var q, s' := s.procs[p], GoStep(s, p);
    assert ControlOk(Look(s), q, p, s.lock, Taking(s));
    LookExact(s);
    if q.pc.WStore? {
      StoreByte(s.data, s.nread, s.nwrite, s.stored, s.delivered, s.src[p][q.i]);
      LookExact(s');
    } else if Takes(q, Look(s)) {
      TakeByte(s.data, s.nread, s.nwrite, s.stored, s.delivered);
      LookExact(s');
    }
  }

  lemma GoResult(s: State, p: nat, k: nat)
    requires Enabled(s, Go(p)) && k < |s.procs|
    ensures var (s', q) := (GoStep(s, p), s.procs[p]);
      && |s'.procs| == |s.procs| && s'.lock == NextLock(q.pc, p, s.lock)
      && s'.procs[k] == if k == p then Next(q, Look(s))
                        else Woken(s.procs[k], q.pc.WTellReaders? || q.pc.WDone?, q.pc.RDone?)
  {
    hide Next, NextLock, Woken, Takes, CanGo;
  }

  lemma GoKeepsControlAt(s: State, p: nat, k: nat)
    requires Enabled(s, Go(p)) && Inv(s) && k < |s.procs|
    ensures var s' := GoStep(s, p); ControlOk(Look(s'), s'.procs[k], k, s'.lock, Taking(s'))
  {
    hide PointOk, WriterSleepOk, Stream, WriteOk, ReadOk, GoStep;
    var q, v, v' := s.procs[p], Look(s), Look(GoStep(s, p));
    GoKeepsStream(s, p);
    GoResult(s, p, p);
    GoResult(s, p, k);
    assert ControlOk(v, q, p, s.lock, Taking(s)) && ControlOk(v, s.procs[k], k, s.lock, Taking(s));
    NextHolds(q, v, p, s.lock);
    if k == p {
      OwnControl(q, v, v', p, s.lock, Taking(s));
    } else {
      OtherControl(q, v, v', p, s.lock, s.procs[k], k);
    }
  }

  lemma GoKeepsControl(s: State, p: nat)
    requires Enabled(s, Go(p)) && Inv(s)
    ensures var s' := GoStep(s, p);
      && -1 <= s'.lock < |s'.procs|
      && forall k :: 0 <= k < |s'.procs| ==> ControlOk(Look(s'), s'.procs[k], k, s'.lock, Taking(s'))
  {
    var s' := GoStep(s, p);
    forall k | 0 <= k < |s'.procs|
      ensures ControlOk(Look(s'), s'.procs[k], k, s'.lock, Taking(s'))
    {
      GoKeepsControlAt(s, p, k);
    }
  }

  lemma GoKeepsReaders(s: State, p: nat)
    requires Enabled(s, Go(p)) && Inv(s) && ReadersOk(s) && !Abandons(s, Go(p))
    ensures ReadersOk(GoStep(s, p))
  {
    var q, v, s' := s.procs[p], Look(s), GoStep(s, p);
    var v' := Look(s');
    GoKeepsStream(s, p);
    assert ControlOk(v, q, p, s.lock, Taking(s));
    NextHolds(q, v, p, s.lock);
    forall k | 0 <= k < |s'.procs|
      ensures ReaderSleepOk(v', s'.procs[k], Owing(s'))
    {
      assert ReaderSleepOk(v, s.procs[k], Owing(s));
      if k != p {
        OtherReader(q, v, v', p, s.lock, s.procs[k]);
      }
    }
  }

  /** A writer gives up with bytes in the ring while some reader sleeps. */
  ghost predicate Abandons(s: State, step: Step) {
    && step.Go? && step.p < |s.procs| && s.procs[step.p].pc.WGiveUp?
    && exists k :: 0 <= k < |s.procs| && s.procs[k].asleep && s.procs[k].pc.RAsleep?
  }

  lemma SentLonger(stored: seq<Byte>, author: seq<nat>, b: Byte, a: nat, p: nat, src: seq<Byte>, sent: seq<nat>)
    requires SentOk(stored, author, p, src, sent)
    ensures SentOk(stored + [b], author + [a], p, src, sent)
  {
    forall k | 0 <= k < |sent|
      ensures SentAt(stored + [b], author + [a], p, sent[k], src[k])
    {
      assert SentAt(stored, author, p, sent[k], src[k]);
    }
  }

  lemma SentMore(stored: seq<Byte>, author: seq<nat>, p: nat, src: seq<Byte>, sent: seq<nat>)
    requires SentOk(stored, author, p, src, sent) && |author| == |stored| && |sent| < |src|
    ensures SentOk(stored + [src[|sent|]], author + [p], p, src, sent + [|stored|])
  {
    SentLonger(stored, author, src[|sent|], p, p, src, sent);
    if |sent| > 0 {
      assert SentAt(stored, author, p, sent[|sent| - 1], src[|sent| - 1]);
    }
  }

  lemma GoKeepsWrites(s: State, p: nat, k: nat)
    requires Enabled(s, Go(p)) && Inv(s) && k < |s.procs| && Shaped(GoStep(s, p))
    ensures WriteOk(GoStep(s, p), k)
  {
    var q := s.procs[p];
    assert WriteOk(s, p) && WriteOk(s, k);
    if q.pc.WStore? {
      if k == p {
        SentMore(s.stored, s.author, p, s.src[p], s.sent[p]);
      } else if IsWriter(s.procs[k].pc) {
        SentLonger(s.stored, s.author, s.src[p][q.i], p, k, s.src[k], s.sent[k]);
      }
    }
  }

  lemma EndMore(got: seq<Byte>, delivered: seq<Byte>, b: Byte)
    requires IsEnd(got, delivered)
    ensures IsEnd(got + [b], delivered + [b])
  {
    var d := delivered + [b];
    assert d[|d| - |got| - 1..] == delivered[|delivered| - |got|..] + [b];
  }

  lemma GoKeepsReads(s: State, p: nat, k: nat)
    requires Enabled(s, Go(p)) && Inv(s) && k < |s.procs| && Shaped(GoStep(s, p))
    ensures ReadOk(GoStep(s, p), k)
  {
    hide Stream, WriteOk;
    var q := s.procs[p];
    assert ReadOk(s, p) && ReadOk(s, k);
    assert ControlOk(Look(s), s.procs[k], k, s.lock, Taking(s));
    assert ControlOk(Look(s), q, p, s.lock, Taking(s));
    if Takes(q, Look(s)) {
      EndMore(s.got[p], s.delivered, s.data[s.nread % PIPESIZE]);
    }
  }

  lemma GoKeepsInv(s: State, p: nat)
    requires Enabled(s, Go(p)) && Inv(s)
    ensures Inv(GoStep(s, p))
  {
    GoKeepsStream(s, p);
    GoKeepsControl(s, p);
    forall k | 0 <= k < |s.procs|
      ensures WriteOk(GoStep(s, p), k) && ReadOk(GoStep(s, p), k)
    {
      GoKeepsWrites(s, p, k);
      GoKeepsReads(s, p, k);
    }
  }

  // ---------------------------------------------------------------- system calls, kill and close

  lemma CallControl(s: State, step: Step, k: nat)
    requires Enabled(s, step) && Inv(s) && (step.Write? || step.Read?) && k < |s.procs|
    ensures var s' := Do(s, step); ControlOk(Look(s'), s'.procs[k], k, s'.lock, Taking(s'))
    ensures var s' := Do(s, step);
      ReaderSleepOk(Look(s), s.procs[k], Owing(s)) ==> ReaderSleepOk(Look(s'), s'.procs[k], Owing(s'))
  {
    assert ControlOk(Look(s), s.procs[step.p], step.p, s.lock, Taking(s));
    assert ControlOk(Look(s), s.procs[k], k, s.lock, Taking(s));
  }

  lemma KillControl(s: State, step: Step, k: nat)
    requires Enabled(s, step) && Inv(s) && (step.Kill?) && k < |s.procs|
    ensures var s' := Do(s, step); ControlOk(Look(s'), s'.procs[k], k, s'.lock, Taking(s'))
    ensures var s' := Do(s, step);
      ReaderSleepOk(Look(s), s.procs[k], Owing(s)) ==> ReaderSleepOk(Look(s'), s'.procs[k], Owing(s'))
  {
    hide Stream, WriteOk, ReadOk;
    assert ControlOk(Look(s), s.procs[step.p], step.p, s.lock, Taking(s));
    assert ControlOk(Look(s), s.procs[k], k, s.lock, Taking(s));
  }

  lemma CallData(s: State, step: Step, k: nat)
    requires Enabled(s, step) && Inv(s) && (step.Write? || step.Read? || step.Kill?) && k < |s.procs|
    ensures Shaped(Do(s, step)) && WriteOk(Do(s, step), k) && ReadOk(Do(s, step), k)
  {
    assert WriteOk(s, k) && ReadOk(s, k);
  }

  lemma CallKeepsInv(s: State, step: Step)
    requires Enabled(s, step) && Inv(s) && (step.Write? || step.Read? || step.Kill?)
    ensures Inv(Do(s, step)) && (ReadersOk(s) ==> ReadersOk(Do(s, step)))
  {
    var s' := Do(s, step);
    forall k | 0 <= k < |s'.procs|
      ensures ControlOk(Look(s'), s'.procs[k], k, s'.lock, Taking(s')) && WriteOk(s', k) && ReadOk(s', k)
      ensures ReadersOk(s) ==> ReaderSleepOk(Look(s'), s'.procs[k], Owing(s'))
    {
      if step.Kill? {
        KillControl(s, step, k);
      } else {
        CallControl(s, step, k);
      }
      CallData(s, step, k);
      assert ReadersOk(s) ==> ReaderSleepOk(Look(s), s.procs[k], Owing(s));
    }
  }

  lemma CloseKeepsInv(s: State, step: Step)
    requires Enabled(s, step) && Inv(s) && (step.CloseWrite? || step.CloseRead?)
    ensures Inv(Do(s, step)) && (ReadersOk(s) ==> ReadersOk(Do(s, step)))
  {
    var s' := Do(s, step);
    forall k | 0 <= k < |s'.procs|
      ensures ControlOk(Look(s'), s'.procs[k], k, s'.lock, Taking(s')) && WriteOk(s', k) && ReadOk(s', k)
      ensures ReadersOk(s) ==> ReaderSleepOk(Look(s'), s'.procs[k], Owing(s'))
    {
      assert ControlOk(Look(s), s.procs[k], k, s.lock, Taking(s)) && WriteOk(s, k) && ReadOk(s, k);
      assert ReadersOk(s) ==> ReaderSleepOk(Look(s), s.procs[k], Owing(s));
    }
  }

  lemma StepKeepsInv(s: State, step: Step)
    requires Enabled(s, step) && Inv(s)
    ensures Inv(Do(s, step))
    ensures ReadersOk(s) && !Abandons(s, step) ==> ReadersOk(Do(s, step))
  {
    if step.Go? {
      GoKeepsInv(s, step.p);
      if ReadersOk(s) && !Abandons(s, step) {
        GoKeepsReaders(s, step.p);
      }
    } else if step.CloseWrite? || step.CloseRead? {
      CloseKeepsInv(s, step);
    } else {
      CallKeepsInv(s, step);
    }
  }

  // ---------------------------------------------------------------- whole runs

  predicate ValidRun(s: State, run: seq<Step>)
    decreases |run|
  {
    run == [] || (Enabled(s, run[0]) && ValidRun(Do(s, run[0]), run[1..]))
  }

  function Final(s: State, run: seq<Step>): (s': State)
    requires ValidRun(s, run)
    decreases |run|
  {
    if run == [] then s else Final(Do(s, run[0]), run[1..])
  }

  lemma InitInv(n: nat, page: seq<Byte>)
    requires |page| == PIPESIZE
    ensures Inv(Init(n, page)) && ReadersOk(Init(n, page))
  {
  }

  lemma {:induction false} RunKeepsInv(s: State, run: seq<Step>)
    requires ValidRun(s, run) && Inv(s)
    ensures Inv(Final(s, run))
    decreases |run|
  {
    if run != [] {
      StepKeepsInv(s, run[0]);
      RunKeepsInv(Do(s, run[0]), run[1..]);
    }
  }

  /** After any run: bytes come out in the order they went in, none lost or repeated, and the counters differ by
      what is in the ring; a writer sleeps, once the lock is free, only on a full pipe with a reader's end open. */
  lemma PipeFifo(n: nat, page: seq<Byte>, run: seq<Step>)
    requires |page| == PIPESIZE && ValidRun(Init(n, page), run)
    ensures var s := Final(Init(n, page), run);
      && s.delivered <= s.stored
      && 0 <= |s.stored| - |s.delivered| <= PIPESIZE
      && (s.nwrite - s.nread) % UINT == |s.stored| - |s.delivered|
      && (s.lock == FREE ==>
            forall p :: 0 <= p < |s.procs| && s.procs[p].pc.WAsleep? && s.procs[p].asleep ==>
              |s.stored| == |s.delivered| + PIPESIZE && s.readopen)
  {
    InitInv(n, page);
    RunKeepsInv(Init(n, page), run);
    var s := Final(Init(n, page), run);
    LookExact(s);
    CountersDiffer(|s.stored|, |s.delivered|);
    forall p | 0 <= p < |s.procs| && s.procs[p].pc.WAsleep? && s.procs[p].asleep && s.lock == FREE
      ensures Look(s).full && s.readopen
    {
      assert ControlOk(Look(s), s.procs[p], p, s.lock, Taking(s));
    }
  }

  lemma CountersDiffer(w: int, r: int)
    requires 0 <= w - r <= PIPESIZE
    ensures (w % UINT - r % UINT) % UINT == w - r
  {
  }

  /** A call that returns normally did what it says. A write has put all its bytes in the stream, in order; a read
      returns a stretch of the stream ending where delivery stands, short only when the ring ran dry, and
      empty-handed only at end of file. */
  lemma CallsReturn(n: nat, page: seq<Byte>, run: seq<Step>, p: nat)
    requires |page| == PIPESIZE && ValidRun(Init(n, page), run) && p < n
    ensures |Final(Init(n, page), run).procs| == n && Shaped(Final(Init(n, page), run))
    ensures var s := Final(Init(n, page), run);
      && (s.procs[p].pc.WUnlock? ==> |s.sent[p]| == |s.src[p]| && SentOk(s.stored, s.author, p, s.src[p], s.sent[p]))
      && (s.procs[p].pc.RUnlock? ==>
            var (r, d) := (|s.got[p]|, |s.delivered|);
            && r <= d <= |s.stored| && s.got[p] == s.stored[d - r..d]
            && (r == s.procs[p].n || (r < s.procs[p].n && d == |s.stored|))
            && (r == 0 < s.procs[p].n ==> !s.writeopen))
  {
    InitInv(n, page);
    RunKeepsInv(Init(n, page), run);
    RunKeepsTable(Init(n, page), run);
    var s := Final(Init(n, page), run);
    LookExact(s);
    assert ControlOk(Look(s), s.procs[p], p, s.lock, Taking(s)) && WriteOk(s, p) && ReadOk(s, p);
  }

  lemma {:induction false} RunKeepsTable(s: State, run: seq<Step>)
    requires ValidRun(s, run)
    ensures |Final(s, run).procs| == |s.procs|
    decreases |run|
  {
    if run != [] {
      RunKeepsTable(Do(s, run[0]), run[1..]);
    }
  }

  // ---------------------------------------------------------------- sleeping readers

  /** Every reader asleep has nothing to read and may yet get something. */
  ghost predicate ReadersCalm(s: State) {
    forall p :: 0 <= p < |s.procs| && s.procs[p].pc.RAsleep? && s.procs[p].asleep ==>
      |s.stored| == |s.delivered| && s.writeopen
  }

  /** ... in each state of the run where the lock is free */
  ghost predicate AlwaysCalm(s: State, run: seq<Step>)
    requires ValidRun(s, run)
    decreases |run|
  {
    && (s.lock == FREE ==> ReadersCalm(s))
    && (run == [] || AlwaysCalm(Do(s, run[0]), run[1..]))
  }

  ghost predicate NeverAbandons(s: State, run: seq<Step>)
    requires ValidRun(s, run)
    decreases |run|
  {
    run == [] || (!Abandons(s, run[0]) && NeverAbandons(Do(s, run[0]), run[1..]))
  }

  lemma CalmWhenFree(s: State)
    requires Inv(s) && ReadersOk(s) && s.lock == FREE
    ensures ReadersCalm(s)
  {
    LookExact(s);
    forall p | 0 <= p < |s.procs| && s.procs[p].pc.RAsleep? && s.procs[p].asleep
      ensures |s.stored| == |s.delivered| && s.writeopen
    {
      assert ReaderSleepOk(Look(s), s.procs[p], Owing(s));
    }
  }

  lemma AbandonedReader(s: State, step: Step)
    requires Enabled(s, step) && Inv(s) && Abandons(s, step)
    ensures Do(s, step).lock == FREE && !ReadersCalm(Do(s, step))
  {
    var s' := Do(s, step);
    assert ControlOk(Look(s), s.procs[step.p], step.p, s.lock, Taking(s));
    LookExact(s);
    var k :| 0 <= k < |s.procs| && s.procs[k].asleep && s.procs[k].pc.RAsleep?;
    assert s'.procs[k] == s.procs[k];
  }

  /** No reader is left asleep with bytes to read, or at end of file, in exactly the runs where no writer gives up
      while a reader sleeps. */
  lemma {:induction false} SleepingReadersExact(s: State, run: seq<Step>)
    requires ValidRun(s, run) && Inv(s) && ReadersOk(s)
    ensures AlwaysCalm(s, run) <==> NeverAbandons(s, run)
    decreases |run|
  {
    if s.lock == FREE {
      CalmWhenFree(s);
    }
    if run != [] {
      StepKeepsInv(s, run[0]);
      if Abandons(s, run[0]) {
        AbandonedReader(s, run[0]);
      } else {
        SleepingReadersExact(Do(s, run[0]), run[1..]);
      }
    }
  }

  ghost predicate NoKilledWriter(s: State, run: seq<Step>)
    requires ValidRun(s, run)
    decreases |run|
  {
    && (forall p :: 0 <= p < |s.procs| && IsWriter(s.procs[p].pc) ==> !s.procs[p].killed)
    && (run == [] || NoKilledWriter(Do(s, run[0]), run[1..]))
  }

  lemma UnkilledStep(s: State, step: Step)
    requires Inv(s) && forall p :: 0 <= p < |s.procs| && IsWriter(s.procs[p].pc) ==> !s.procs[p].killed
    ensures !Abandons(s, step)
  {
    forall k | 0 <= k < |s.procs|
      ensures s.procs[k].pc.RAsleep? ==> s.readopen
      ensures s.procs[k].pc.WGiveUp? ==> s.procs[k].killed || !s.readopen
    {
      assert ControlOk(Look(s), s.procs[k], k, s.lock, Taking(s));
    }
  }

  lemma {:induction false} UnkilledNeverAbandon(s: State, run: seq<Step>)
    requires ValidRun(s, run) && Inv(s) && NoKilledWriter(s, run)
    ensures NeverAbandons(s, run)
    decreases |run|
  {
    if run != [] {
      UnkilledStep(s, run[0]);
      StepKeepsInv(s, run[0]);
      UnkilledNeverAbandon(Do(s, run[0]), run[1..]);
    }
  }

  /** When no process is killed in the middle of a write, a reader asleep means empty and still open for writing. */
  lemma SleepingReaderWaits(n: nat, page: seq<Byte>, run: seq<Step>)
    requires |page| == PIPESIZE && ValidRun(Init(n, page), run) && NoKilledWriter(Init(n, page), run)
    ensures AlwaysCalm(Init(n, page), run)
  {
    InitInv(n, page);
    UnkilledNeverAbandon(Init(n, page), run);
    SleepingReadersExact(Init(n, page), run);
  }

  // ---------------------------------------------------------------- a reader left asleep

  lemma {:induction false} RunAppend(s: State, run: seq<Step>, step: Step)
    requires ValidRun(s, run) && Enabled(Final(s, run), step)
    ensures ValidRun(s, run + [step]) && Final(s, run + [step]) == Do(Final(s, run), step)
    decreases |run|
  {
    var more := run + [step];
    if run == [] {
      assert more[1..] == [];
      assert ValidRun(Do(s, more[0]), more[1..]);
    } else {
      assert more[1..] == run[1..] + [step];
      RunAppend(Do(s, run[0]), run[1..], step);
    }
  }

  /** Process 0 sleeps in piperead; process 1, in one call to pipewrite, has stored k of PIPESIZE + 1 bytes. */
  ghost predicate Filling(s: State, k: nat) {
    && Shaped(s) && |s.procs| == 2 && |s.src[1]| == PIPESIZE + 1
    && s.procs[0] == Proc(RAsleep, false, true, 0, 1, false)
    && s.procs[1] == Proc(WLoop, false, false, k, PIPESIZE + 1, k > 0)
    && s.lock == 1 && s.nread == 0 && s.nwrite == k && s.readopen && s.writeopen
    && |s.stored| == k && |s.delivered| == 0
  }

  /** Both idle but for process 0, at the given point of piperead. */
  ghost predicate Dozing(s: State, pc: Pc, lock: int, asleep: bool) {
    && Shaped(s) && |s.procs| == 2 && s.procs[0] == Proc(pc, false, asleep, 0, 1, false)
    && s.procs[1] == Proc(Outside, false, false, 0, 0, false)
    && s.lock == lock && s.nread == 0 && s.nwrite == 0 && s.readopen && s.writeopen && |s.stored| == |s.delivered| == 0
  }

  lemma DozingStep(s: State, pc: Pc, lock: int)
    requires Dozing(s, pc, lock, false)
    requires (pc == RLock && lock == FREE) || (pc == REmpty && lock == 0) || (pc == RSleep && lock == 0)
    ensures Enabled(s, Go(0))
    ensures Dozing(Do(s, Go(0)), if pc == RLock then REmpty else if pc == REmpty then RSleep else RAsleep,
                   if pc == RSleep then FREE else 0, pc == RSleep)
  {
  }

  lemma DozingStarts(page: seq<Byte>) returns (run: seq<Step>)
    requires |page| == PIPESIZE
    ensures ValidRun(Init(2, page), run) && Dozing(Final(Init(2, page), run), RAsleep, FREE, true)
  {
    var s := Init(2, page);
    RunAppend(s, [], Read(0, 1));
    run := [] + [Read(0, 1)];
    DozingStep(Final(s, run), RLock, FREE);
    RunAppend(s, run, Go(0));
    run := run + [Go(0)];
    DozingStep(Final(s, run), REmpty, 0);
    RunAppend(s, run, Go(0));
    run := run + [Go(0)];
    DozingStep(Final(s, run), RSleep, 0);
    RunAppend(s, run, Go(0));
    run := run + [Go(0)];
  }

  lemma WriterEnters(s: State, src: seq<Byte>) returns (s1: State)
    requires Dozing(s, RAsleep, FREE, true) && |src| == PIPESIZE + 1
    ensures Enabled(s, Write(1, src)) && s1 == Do(s, Write(1, src))
    ensures Enabled(s1, Go(1)) && Filling(Do(s1, Go(1)), 0)
  {
    s1 := Do(s, Write(1, src));
    assert s1.procs[1].pc == WLock;
  }

  lemma FillingStarts(page: seq<Byte>) returns (run: seq<Step>)
    requires |page| == PIPESIZE
    ensures ValidRun(Init(2, page), run) && Filling(Final(Init(2, page), run), 0)
  {
    var s, src := Init(2, page), seq(PIPESIZE + 1, _ => 0);
    run := DozingStarts(page);
    var s1 := WriterEnters(Final(s, run), src);
    RunAppend(s, run, Write(1, src));
    RunAppend(s, run + [Write(1, src)], Go(1));
    run := run + [Write(1, src)] + [Go(1)];
  }

  lemma FillingStep(s: State, k: nat) returns (s1: State, s2: State)
    requires Filling(s, k) && k < PIPESIZE
    ensures Enabled(s, Go(1)) && s1 == Do(s, Go(1)) && Enabled(s1, Go(1)) && s2 == Do(s1, Go(1))
    ensures Enabled(s2, Go(1)) && Filling(Do(s2, Go(1)), k + 1)
  {
    s1 := Do(s, Go(1));
    assert s1.procs[1].pc == WFull;
    s2 := Do(s1, Go(1));
    assert s2.procs[1].pc == WStore;
  }

  lemma {:induction false} Fill(page: seq<Byte>, k: nat) returns (run: seq<Step>)
    requires |page| == PIPESIZE && k <= PIPESIZE
    ensures ValidRun(Init(2, page), run) && Filling(Final(Init(2, page), run), k)
  {
    var s := Init(2, page);
    if k == 0 {
      run := FillingStarts(page);
    } else {
      run := Fill(page, k - 1);
      var s1, s2 := FillingStep(Final(s, run), k - 1);
      RunAppend(s, run, Go(1));
      RunAppend(s, run + [Go(1)], Go(1));
      RunAppend(s, run + [Go(1)] + [Go(1)], Go(1));
      run := run + [Go(1)] + [Go(1)] + [Go(1)];
    }
  }

  lemma GivesUp(s: State) returns (s1: State, s2: State, s3: State)
    requires Filling(s, PIPESIZE)
    ensures Enabled(s, Go(1)) && s1 == Do(s, Go(1)) && Enabled(s1, Kill(1)) && s2 == Do(s1, Kill(1))
    ensures Enabled(s2, Go(1)) && s3 == Do(s2, Go(1)) && Enabled(s3, Go(1))
    ensures var s4 := Do(s3, Go(1));
      && s4.lock == FREE && |s4.procs| == 2 && s4.procs[0].pc.RAsleep? && s4.procs[0].asleep
      && |s4.stored| == PIPESIZE && |s4.delivered| == 0
  {
    s1 := Do(s, Go(1));
    assert s1.procs[1].pc == WFull;
    s2 := Do(s1, Kill(1));
    s3 := Do(s2, Go(1));
    assert s3.procs[1].pc == WGiveUp;
  }

  /** A run of two processes that ends with every lock free, a full pipe, and its reader asleep. */
  lemma ReaderLeftAsleep(page: seq<Byte>) returns (run: seq<Step>)
    requires |page| == PIPESIZE
    ensures ValidRun(Init(2, page), run)
    ensures var s := Final(Init(2, page), run);
      && s.lock == FREE && |s.procs| == 2 && s.procs[0].pc.RAsleep? && s.procs[0].asleep
      && |s.stored| == PIPESIZE && |s.delivered| == 0
  {
    var s := Init(2, page);
    run := Fill(page, PIPESIZE);
    var s1, s2, s3 := GivesUp(Final(s, run));
    RunAppend(s, run, Go(1));
    RunAppend(s, run + [Go(1)], Kill(1));
    RunAppend(s, run + [Go(1)] + [Kill(1)], Go(1));
    RunAppend(s, run + [Go(1)] + [Kill(1)] + [Go(1)], Go(1));
    run := run + [Go(1)] + [Kill(1)] + [Go(1)] + [Go(1)];
  }
}
