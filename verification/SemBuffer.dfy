/** One producer and one consumer over a ring of MAX_BUF items, with a mutex, two waiting flags and
    two signalling semaphores (produtor-consumidor/ProdutorConsumidor.c). Every statement is a step;
    a semaphore operation that would go below zero blocks (mysem.c). */
module SemBuffer {

  const MAX_BUF: int := 10

  /** Where the producer is: about to do what the name says. */
  datatype Ppc =
    | PLock | PTest | PSetFlag | PUnlockToWait | PWait | PRelock
    | PCount | PStore | PTestFirst | PClearFlag | PSignal | PAdvance | PUnlock

  datatype Cpc =
    | CLock | CTest | CSetFlag | CUnlockToWait | CWait | CRelock
    | CCount | CTake | CAdvance | CTestFull | CClearFlag | CSignal | CUnlock

  /** mutex, nonEmpty and nonFull are the semaphores 0, 1 and 2. `consumed` is history. */
  datatype State = State(
    p: Ppc, c: Cpc, mutex: nat, nonEmpty: nat, nonFull: nat,
    count: int, head: int, tail: int, item_id: int, buffer: seq<int>, fflag: bool, eflag: bool,
    consumed: seq<int>)

  function Init(): (s: State) {
    State(PLock, CLock, 1, 0, 0, 0, 0, 0, 1, seq(MAX_BUF, _ => 0), false, false, [])
  }

  predicate ProducerBlocked(s: State) {
    (s.p.PLock? && s.mutex == 0) || (s.p.PRelock? && s.mutex == 0) || (s.p.PWait? && s.nonFull == 0)
  }

  predicate ConsumerBlocked(s: State) {
    (s.c.CLock? && s.mutex == 0) || (s.c.CRelock? && s.mutex == 0) || (s.c.CWait? && s.nonEmpty == 0)
  }

  function ProducerStep(s: State): (s': State)
    requires !ProducerBlocked(s) && (s.p.PStore? ==> 0 <= s.head < |s.buffer|)
  {
    match s.p
    case PLock => s.(mutex := s.mutex - 1, p := PTest)
    case PTest => s.(p := if s.count == MAX_BUF then PSetFlag else PCount)
    case PSetFlag => s.(fflag := true, p := PUnlockToWait)
    case PUnlockToWait => s.(mutex := s.mutex + 1, p := PWait)
    case PWait => s.(nonFull := s.nonFull - 1, p := PRelock)
    case PRelock => s.(mutex := s.mutex - 1, p := PCount)
    case PCount => s.(count := s.count + 1, p := PStore)
    case PStore => s.(buffer := s.buffer[s.head := s.item_id], item_id := s.item_id + 1, p := PTestFirst)
    case PTestFirst => s.(p := if s.count == 1 && s.eflag then PClearFlag else PAdvance)
    case PClearFlag => s.(eflag := false, p := PSignal)
    case PSignal => s.(nonEmpty := s.nonEmpty + 1, p := PAdvance)
    case PAdvance => s.(head := (s.head + 1) % MAX_BUF, p := PUnlock)
    case PUnlock => s.(mutex := s.mutex + 1, p := PLock)
  }

  function ConsumerStep(s: State): (s': State)
    requires !ConsumerBlocked(s) && (s.c.CTake? ==> 0 <= s.tail < |s.buffer|)
  {
    match s.c
    case CLock => s.(mutex := s.mutex - 1, c := CTest)
    case CTest => s.(c := if s.count == 0 then CSetFlag else CCount)
    case CSetFlag => s.(eflag := true, c := CUnlockToWait)
    case CUnlockToWait => s.(mutex := s.mutex + 1, c := CWait)
    case CWait => s.(nonEmpty := s.nonEmpty - 1, c := CRelock)
    case CRelock => s.(mutex := s.mutex - 1, c := CCount)
    case CCount => s.(count := s.count - 1, c := CTake)
    case CTake => s.(consumed := s.consumed + [s.buffer[s.tail]], c := CAdvance)
    case CAdvance => s.(tail := (s.tail + 1) % MAX_BUF, c := CTestFull)
    case CTestFull => s.(c := if s.count == MAX_BUF - 1 && s.fflag then CClearFlag else CUnlock)
    case CClearFlag => s.(fflag := false, c := CSignal)
    case CSignal => s.(nonFull := s.nonFull + 1, c := CUnlock)
    case CUnlock => s.(mutex := s.mutex + 1, c := CLock)
  }

  // ---------------------------------------------------------------- invariant

  predicate ProducerInside(s: State) {
    !(s.p.PLock? || s.p.PWait? || s.p.PRelock?)
  }

  predicate ConsumerInside(s: State) {
    !(s.c.CLock? || s.c.CWait? || s.c.CRelock?)
  }

  predicate Exclusion(s: State) {
    && !(ProducerInside(s) && ConsumerInside(s))
    && s.mutex == (if ProducerInside(s) || ConsumerInside(s) then 0 else 1)
  }

  /** The slot of the k-th item. */
  function Slot(k: int): (i: int)
    ensures 0 <= i < MAX_BUF
  {
    k % MAX_BUF
  }

  lemma SlotPlus(a: int, b: int)
    ensures Slot(a + b) == (Slot(a) + b) % MAX_BUF
  {
    var q, q' := a / MAX_BUF, (Slot(a) + b) / MAX_BUF;
    assert a + b == MAX_BUF * (q + q') + (Slot(a) + b) % MAX_BUF;
  }

  lemma SlotNext(a: int)
    ensures Slot(a + 1) == (Slot(a) + 1) % MAX_BUF
  {
    SlotPlus(a, 1);
  }

  lemma SlotsDiffer(a: int, b: int)
    requires a < b < a + MAX_BUF
    ensures Slot(a) != Slot(b)
  {
    SlotPlus(a, b - a);
  }

  predicate Storing(p: Ppc) {
    p.PTestFirst? || p.PClearFlag? || p.PSignal? || p.PAdvance?
  }

  /** Items are numbered from 1; item k lives in slot (k-1) mod MAX_BUF from its store to its take. */
  ghost predicate Stored(buffer: seq<int>, taken: int, made: int) {
    && |buffer| == MAX_BUF
    && forall k {:trigger Slot(k)} :: taken <= k < made ==> buffer[Slot(k)] == k + 1
  }

  ghost predicate Contents(s: State) {
    && Stored(s.buffer, |s.consumed|, s.item_id - 1)
    && forall k :: 0 <= k < |s.consumed| ==> s.consumed[k] == k + 1
  }

  predicate Indices(s: State) {
    var made, taken := s.item_id - 1, |s.consumed|;
    && 0 <= taken <= made <= taken + MAX_BUF
    && s.count == made - taken + (if s.p.PStore? then 1 else 0) - (if s.c.CTake? then 1 else 0)
    && 0 <= s.count <= MAX_BUF
    && s.head == Slot(if Storing(s.p) then made - 1 else made)
    && s.tail == Slot(if s.c.CAdvance? then taken - 1 else taken)
  }

  /** The producer waits only for a consumer that sees a full buffer's first free slot. */
  predicate NonFullSignal(s: State) {
    && (s.p.PCount? || s.p.PRelock? ==> s.count < MAX_BUF)
    && (s.p.PSetFlag? || s.p.PUnlockToWait? ==> s.count == MAX_BUF)
    && (s.fflag ==> s.p.PUnlockToWait? || s.p.PWait?)
    && (s.p.PUnlockToWait? ==> s.fflag)
    && (s.fflag && s.p.PWait? ==>
          s.count == if s.c.CTake? || s.c.CAdvance? || s.c.CTestFull? || s.c.CClearFlag? then MAX_BUF - 1
                     else MAX_BUF)
    && (s.c.CClearFlag? ==> s.fflag)
    && (s.c.CSignal? ==> s.p.PWait? && !s.fflag)
    && (s.p.PWait? && !s.fflag ==> s.count < MAX_BUF)
    && s.nonFull == (if s.p.PWait? && !s.fflag && !s.c.CSignal? then 1 else 0)
  }

  /** The consumer waits only for a producer that stores the first item. */
  predicate NonEmptySignal(s: State) {
    && (s.c.CCount? || s.c.CRelock? ==> s.count > 0)
    && (s.c.CSetFlag? || s.c.CUnlockToWait? ==> s.count == 0)
    && (s.eflag ==> s.c.CUnlockToWait? || s.c.CWait?)
    && (s.c.CUnlockToWait? ==> s.eflag)
    && (s.eflag && s.c.CWait? ==>
          s.count == (if s.p.PStore? || s.p.PTestFirst? || s.p.PClearFlag? then 1 else 0))
    && (s.p.PClearFlag? ==> s.eflag)
    && (s.p.PSignal? ==> s.c.CWait? && !s.eflag)
    && (s.c.CWait? && !s.eflag ==> s.count > 0)
    && s.nonEmpty == (if s.c.CWait? && !s.eflag && !s.p.PSignal? then 1 else 0)
  }

  ghost predicate Inv(s: State) {
    Exclusion(s) && Indices(s) && Contents(s) && NonFullSignal(s) && NonEmptySignal(s)
  }

  lemma ProducerKeepsSignals(s: State)
    requires Inv(s) && !ProducerBlocked(s)
    ensures var s' := ProducerStep(s); Exclusion(s') && NonFullSignal(s') && NonEmptySignal(s')
  {
  }

  lemma ConsumerKeepsSignals(s: State)
    requires Inv(s) && !ConsumerBlocked(s)
    ensures var s' := ConsumerStep(s); Exclusion(s') && NonFullSignal(s') && NonEmptySignal(s')
  {
  }

  lemma StoreNext(buffer: seq<int>, taken: int, made: int)
    requires Stored(buffer, taken, made) && made < taken + MAX_BUF
    ensures Stored(buffer[Slot(made) := made + 1], taken, made + 1)
  {
    var b' := buffer[Slot(made) := made + 1];
    forall k | taken <= k < made + 1
      ensures b'[Slot(k)] == k + 1
    {
      if k < made { SlotsDiffer(k, made); }
    }
  }

  lemma ProducerKeepsIndices(s: State)
    requires Inv(s) && !ProducerBlocked(s)
    ensures Indices(ProducerStep(s))
  {
    hide Contents, Slot;
    if s.p.PAdvance? { SlotNext(s.item_id - 2); }
  }

  lemma ConsumerKeepsIndices(s: State)
    requires Inv(s) && !ConsumerBlocked(s)
    ensures Indices(ConsumerStep(s))
  {
    hide Contents, Slot;
    if s.c.CAdvance? { SlotNext(|s.consumed| - 1); }
  }

  lemma ProducerKeepsContents(s: State)
    requires Inv(s) && !ProducerBlocked(s)
    ensures Contents(ProducerStep(s))
  {
    if s.p.PStore? { StoreNext(s.buffer, |s.consumed|, s.item_id - 1); }
  }

  lemma ConsumerKeepsContents(s: State)
    requires Inv(s) && !ConsumerBlocked(s)
    ensures Contents(ConsumerStep(s))
  {
    if s.c.CTake? { assert s.buffer[Slot(|s.consumed|)] == |s.consumed| + 1; }
  }

  // ---------------------------------------------------------------- runs

  datatype Thread = Producer | Consumer

  predicate Blocked(s: State, t: Thread) {
    match t case Producer => ProducerBlocked(s) case Consumer => ConsumerBlocked(s)
  }

  /** The thread can go on: it is not blocked and does not index outside the buffer. */
  predicate CanStep(s: State, t: Thread) {
    && !Blocked(s, t)
    && (t.Producer? && s.p.PStore? ==> 0 <= s.head < |s.buffer|)
    && (t.Consumer? && s.c.CTake? ==> 0 <= s.tail < |s.buffer|)
  }

  function Step(s: State, t: Thread): (s': State)
    requires CanStep(s, t)
  {
    match t case Producer => ProducerStep(s) case Consumer => ConsumerStep(s)
  }

  /** An interleaving: which thread takes each step. */
  predicate ValidRun(s: State, run: seq<Thread>)
    decreases |run|
  {
    run == [] || (CanStep(s, run[0]) && ValidRun(Step(s, run[0]), run[1..]))
  }

  function Final(s: State, run: seq<Thread>): (s': State)
    requires ValidRun(s, run)
    decreases |run|
  {
    if run == [] then s else Final(Step(s, run[0]), run[1..])
  }

  lemma {:induction false} RunKeepsInv(s: State, run: seq<Thread>)
    requires Inv(s) && ValidRun(s, run)
    ensures Inv(Final(s, run))
    decreases |run|
  {
    if run != [] {
      if run[0].Producer? {
        ProducerKeepsSignals(s);
        ProducerKeepsIndices(s);
        ProducerKeepsContents(s);
      } else {
        ConsumerKeepsSignals(s);
        ConsumerKeepsIndices(s);
        ConsumerKeepsContents(s);
      }
      RunKeepsInv(Step(s, run[0]), run[1..]);
    }
  }

  lemma InitInv()
    ensures Inv(Init())
  {
  }

  lemma InvSafe(s: State)
    requires Inv(s)
    ensures 0 <= s.count <= MAX_BUF && s.nonEmpty <= 1 && s.nonFull <= 1
    ensures s.mutex == 1 ==> s.head == (s.tail + s.count) % MAX_BUF
    ensures CanStep(s, Producer) || CanStep(s, Consumer)
    ensures forall t :: CanStep(s, t) <==> !Blocked(s, t)
  {
    SlotPlus(|s.consumed|, s.count);
  }

  /** In every interleaving: the count stays in range, the ring indices agree with it whenever the mutex
      is free, the k-th item consumed is item k, the signalling semaphores never exceed one, no thread
      indexes outside the buffer, and the two are never blocked together. */
  lemma ProducerConsumerSafe(run: seq<Thread>)
    requires ValidRun(Init(), run)
    ensures var s := Final(Init(), run);
            && 0 <= s.count <= MAX_BUF
            && (s.mutex == 1 ==> s.head == (s.tail + s.count) % MAX_BUF)
            && (forall k :: 0 <= k < |s.consumed| ==> s.consumed[k] == k + 1)
            && s.nonEmpty <= 1 && s.nonFull <= 1
            && (forall t :: CanStep(s, t) <==> !Blocked(s, t))
            && (CanStep(s, Producer) || CanStep(s, Consumer))
  {
    hide Indices, NonFullSignal, NonEmptySignal, Exclusion, CanStep, Blocked;
    InitInv();
    RunKeepsInv(Init(), run);
    InvSafe(Final(Init(), run));
  }
}
