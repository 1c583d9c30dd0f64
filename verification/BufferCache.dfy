/** The buffer cache as a value: buffers, their MRU order, and the disk under them
    (xv6/bio.c, xv6/memide.c, the pin of xv6/log.c). Read through the cache, the blocks
    are a plain array, whatever is cached, dirty or recycled. */
module BufferCache {

  import opened Common

  type Data = Block

  const NODEV: int := -1
  const DISK: int := 1

  datatype Buf = Buf(dev: int, blockno: nat, busy: bool, valid: bool, dirty: bool, data: Data)

  /** `order` lists the buffers, most recently used first. `touched` is history: buffers
      changed by their holder and not yet logged or written. */
  datatype State = State(bufs: seq<Buf>, order: seq<nat>, disk: seq<Data>, touched: set<nat>)

  /** What bget finds: the block's own buffer, free or busy, or one to recycle. */
  datatype Got = Hit(i: nat) | Wait(i: nat) | Recycle(i: nat) | NoBuffers

  predicate Is(b: Buf, dev: int, blockno: nat) {
    b.dev == dev && b.blockno == blockno
  }

  predicate Recyclable(b: Buf) {
    !b.busy && !b.dirty
  }

  ghost predicate Cached(bufs: seq<Buf>, dev: int, blockno: nat) {
    exists i :: 0 <= i < |bufs| && Is(bufs[i], dev, blockno)
  }

  /** The buffer of a cached block. */
  ghost function Slot(bufs: seq<Buf>, dev: int, blockno: nat): (i: nat)
    requires Cached(bufs, dev, blockno)
    ensures i < |bufs| && Is(bufs[i], dev, blockno)
  {
    var i :| 0 <= i < |bufs| && Is(bufs[i], dev, blockno);
    i
  }

  /** Place of buffer b in the order. */
  ghost function Place(order: seq<nat>, b: nat): (k: nat)
    requires b in order
    ensures k < |order| && order[k] == b
  {
    var k :| 0 <= k < |order| && order[k] == b;
    k
  }

  /** Each buffer is in the order, at one place. */
  ghost predicate Permutation(order: seq<nat>, n: nat) {
    && |order| == n
    && (forall b: nat :: b < n ==> b in order)
    && (forall k :: 0 <= k < n ==> order[k] < n && Place(order, order[k]) == k)
  }

  /** The order after the buffer at place k is released. */
  ghost function MoveFront(order: seq<nat>, k: nat): (r: seq<nat>)
    requires k < |order|
  {
    seq(|order|, j requires 0 <= j < |order| => if j == 0 then order[k] else if j <= k then order[j - 1] else order[j])
  }

  lemma MoveFrontPermutes(order: seq<nat>, k: nat)
    requires Permutation(order, |order|) && k < |order|
    ensures Permutation(MoveFront(order, k), |order|)
  {
    var r := MoveFront(order, k);
    forall b: nat | b < |order|
      ensures b in r
    {
      var p := Place(order, b);
      assert r[if p == k then 0 else if p < k then p + 1 else p] == b;
    }
    forall j | 0 <= j < |r|
      ensures Place(r, r[j]) == j
    {
      var q := Place(r, r[j]);
      var from := (x: int) => if x == 0 then k else if x <= k then x - 1 else x;
      assert order[from(q)] == order[from(j)];
      assert Place(order, order[from(q)]) == from(q) && Place(order, order[from(j)]) == from(j);
    }
  }

  /** bget's answer: the one buffer of the block, or the least recently used clean idle one. */
  ghost predicate BgetFinds(s: State, dev: int, blockno: nat, g: Got) {
    match g
    case Hit(i) => i < |s.bufs| && Is(s.bufs[i], dev, blockno) && !s.bufs[i].busy
    case Wait(i) => i < |s.bufs| && Is(s.bufs[i], dev, blockno) && s.bufs[i].busy
    case Recycle(i) =>
      && !Cached(s.bufs, dev, blockno)
      && i < |s.bufs| && Recyclable(s.bufs[i]) && i in s.order
      && forall k :: Place(s.order, i) < k < |s.order| && s.order[k] < |s.bufs| ==> !Recyclable(s.bufs[s.order[k]])
    case NoBuffers =>
      && !Cached(s.bufs, dev, blockno)
      && forall i :: 0 <= i < |s.bufs| ==> !Recyclable(s.bufs[i])
  }

  // ---------------------------------------------------------------- operations

  /** iderw's panics for a read or write of this block. */
  predicate OnDisk(s: State, dev: int, blockno: nat) {
    dev == DISK && blockno < |s.disk|
  }

  function BreadHit(s: State, i: nat): (s': State)
    requires i < |s.bufs|
  {
    s.(bufs := s.bufs[i := s.bufs[i].(busy := true)])
  }

  function BreadMiss(s: State, i: nat, dev: int, blockno: nat): (s': State)
    requires i < |s.bufs| && OnDisk(s, dev, blockno)
  {
    s.(bufs := s.bufs[i := Buf(dev, blockno, true, true, false, s.disk[blockno])])
  }

  /** The holder changes the buffer. */
  function Modify(s: State, i: nat, data: Data): (s': State)
    requires i < |s.bufs|
  {
    s.(bufs := s.bufs[i := s.bufs[i].(data := data)], touched := s.touched + {i})
  }

  function Bwrite(s: State, i: nat): (s': State)
    requires i < |s.bufs| && s.bufs[i].blockno < |s.disk|
  {
    s.(bufs := s.bufs[i := s.bufs[i].(dirty := false, valid := true)],
       disk := s.disk[s.bufs[i].blockno := s.bufs[i].data],
       touched := s.touched - {i})
  }

  /** log_write pins the buffer with B_DIRTY; commit writes it later. */
  function Pin(s: State, i: nat): (s': State)
    requires i < |s.bufs|
  {
    s.(bufs := s.bufs[i := s.bufs[i].(dirty := true)], touched := s.touched - {i})
  }

  ghost function Brelse(s: State, i: nat): (s': State)
    requires i < |s.bufs| && i in s.order
  {
    s.(bufs := s.bufs[i := s.bufs[i].(busy := false)], order := MoveFront(s.order, Place(s.order, i)))
  }

  // ---------------------------------------------------------------- invariant

  ghost predicate BufOk(s: State, i: nat)
    requires i < |s.bufs|
  {
    var b := s.bufs[i];
    if b.dev == NODEV then !b.busy && !b.dirty && !b.valid && i !in s.touched
    else
      && OnDisk(s, b.dev, b.blockno) && b.valid
      && Slot(s.bufs, b.dev, b.blockno) == i      // no other buffer has this block
      && (i in s.touched ==> b.busy)
      && (!b.dirty && i !in s.touched ==> b.data == s.disk[b.blockno])
  }

  ghost predicate Inv(s: State) {
    && Permutation(s.order, |s.bufs|)
    && (forall i :: 0 <= i < |s.bufs| ==> BufOk(s, i))
  }

  /** A block as the rest of the kernel sees it. */
  ghost function View(s: State, b: nat): (v: Data)
    requires b < |s.disk|
  {
    if Cached(s.bufs, DISK, b) then s.bufs[Slot(s.bufs, DISK, b)].data else s.disk[b]
  }

  ghost predicate SameBlocks(a: seq<Buf>, b: seq<Buf>) {
    && |a| == |b|
    && forall i :: 0 <= i < |a| ==> a[i].dev == b[i].dev && a[i].blockno == b[i].blockno
  }

  lemma SameCached(a: seq<Buf>, b: seq<Buf>, dev: int, blockno: nat)
    requires SameBlocks(a, b)
    ensures Cached(a, dev, blockno) <==> Cached(b, dev, blockno)
  {
    if i :| 0 <= i < |a| && Is(a[i], dev, blockno) { assert Is(b[i], dev, blockno); }
    if i :| 0 <= i < |b| && Is(b[i], dev, blockno) { assert Is(a[i], dev, blockno); }
  }

  lemma SameSlot(s: State, b: seq<Buf>, dev: int, blockno: nat)
    requires SameBlocks(s.bufs, b) && dev != NODEV && Cached(s.bufs, dev, blockno)
    requires forall i :: 0 <= i < |s.bufs| ==> BufOk(s, i)
    ensures Cached(b, dev, blockno) && Slot(b, dev, blockno) == Slot(s.bufs, dev, blockno)
  {
    SameCached(s.bufs, b, dev, blockno);
    assert BufOk(s, Slot(b, dev, blockno));
  }

  /** A step on buffer i that keeps every buffer's block. The invariant holds if it holds at i, and the
      view changes only if buffer i's contents do. */
  lemma StepAt(s: State, s': State, i: nat)
    requires Inv(s) && i < |s.bufs| && s.bufs[i].dev != NODEV && SameBlocks(s.bufs, s'.bufs)
    requires s.bufs[i].blockno < |s.disk| && |s'.disk| == |s.disk| && Permutation(s'.order, |s.bufs|)
    requires forall j :: 0 <= j < |s.bufs| && j != i ==>
      s'.bufs[j] == s.bufs[j] && (j in s'.touched <==> j in s.touched)
    requires forall b :: 0 <= b < |s.disk| && b != s.bufs[i].blockno ==> s'.disk[b] == s.disk[b]
    requires s'.bufs[i].valid && (i in s'.touched ==> s'.bufs[i].busy)
    requires !s'.bufs[i].dirty && i !in s'.touched ==> s'.bufs[i].data == s'.disk[s.bufs[i].blockno]
    ensures Inv(s')
    ensures forall b: nat :: b < |s.disk| ==>
              View(s', b) == if b == s.bufs[i].blockno then s'.bufs[i].data else View(s, b)
  {
    assert BufOk(s, i);
    forall j | 0 <= j < |s.bufs|
      ensures BufOk(s', j)
    {
      assert BufOk(s, j);
      if s.bufs[j].dev != NODEV {
        assert Is(s.bufs[j], s.bufs[j].dev, s.bufs[j].blockno);
        SameSlot(s, s'.bufs, s.bufs[j].dev, s.bufs[j].blockno);
        if j != i { assert Slot(s.bufs, s.bufs[i].dev, s.bufs[i].blockno) == i; }
      }
    }
    forall b: nat | b < |s.disk|
      ensures View(s', b) == if b == s.bufs[i].blockno then s'.bufs[i].data else View(s, b)
    {
      SameCached(s.bufs, s'.bufs, DISK, b);
      assert Is(s.bufs[i], DISK, s.bufs[i].blockno);
      if Cached(s.bufs, DISK, b) { SameSlot(s, s'.bufs, DISK, b); }
    }
  }

  lemma RecycledSlot(s: State, i: nat, b: Buf, j: nat)
    requires Inv(s) && i < |s.bufs| && b.dev != NODEV && !Cached(s.bufs, b.dev, b.blockno) && j < |s.bufs|
    ensures var bufs' := s.bufs[i := b];
            j == i || s.bufs[j].dev != NODEV ==>
              && Cached(bufs', bufs'[j].dev, bufs'[j].blockno)
              && Slot(bufs', bufs'[j].dev, bufs'[j].blockno) == j
  {
    var bufs' := s.bufs[i := b];
    assert Is(bufs'[j], bufs'[j].dev, bufs'[j].blockno);
    var q := Slot(bufs', bufs'[j].dev, bufs'[j].blockno);
    assert BufOk(s, q) && BufOk(s, j);
    assert q != i ==> Is(s.bufs[q], bufs'[j].dev, bufs'[j].blockno);
    assert j != i ==> Is(s.bufs[j], bufs'[j].dev, bufs'[j].blockno);
  }

  /** Recycling a clean idle buffer loses nothing: every block reads as before, and the new
      buffer holds the latest contents of its block. */
  lemma RecycleKeepsView(s: State, i: nat, dev: int, blockno: nat)
    requires Inv(s) && BgetFinds(s, dev, blockno, Recycle(i)) && OnDisk(s, dev, blockno)
    ensures var s' := BreadMiss(s, i, dev, blockno);
            && Inv(s') && s'.bufs[i].data == View(s, blockno)
            && forall b: nat :: b < |s.disk| ==> View(s', b) == View(s, b)
  {
    var s' := BreadMiss(s, i, dev, blockno);
    assert BufOk(s, i);
    forall j | 0 <= j < |s.bufs|
      ensures BufOk(s', j)
    {
      assert BufOk(s, j);
      RecycledSlot(s, i, s'.bufs[i], j);
    }
    forall b: nat | b < |s.disk|
      ensures View(s', b) == View(s, b)
    {
      if Cached(s.bufs, DISK, b) {
        var j := Slot(s.bufs, DISK, b);
        assert BufOk(s, j);
        if j != i { assert Is(s'.bufs[j], DISK, b) && BufOk(s', j); }
      }
      if Cached(s'.bufs, DISK, b) {
        var j := Slot(s'.bufs, DISK, b);
        assert BufOk(s', j);
        if j != i { assert Is(s.bufs[j], DISK, b) && BufOk(s, j); }
      }
    }
  }

  // ---------------------------------------------------------------- runs

  datatype Step =
    | Read(dev: int, blockno: nat, got: Got)
    | Change(i: nat, data: Data)
    | Write(i: nat)
    | Log(i: nat)
    | Release(i: nat)

  /** The discipline of bio.c and log.c: use a buffer while it is busy, and log or write a changed
      one before releasing it. A read that would sleep or panic is no step. */
  ghost predicate Enabled(s: State, step: Step) {
    match step
    case Read(dev, blockno, got) =>
      && dev != NODEV && BgetFinds(s, dev, blockno, got)
      && (got.Hit? || (got.Recycle? && OnDisk(s, dev, blockno)))
    case Change(i, data) => i < |s.bufs| && s.bufs[i].busy
    case Write(i) => i < |s.bufs| && s.bufs[i].busy && s.bufs[i].blockno < |s.disk|
    case Log(i) => i < |s.bufs| && s.bufs[i].busy
    case Release(i) => i < |s.bufs| && s.bufs[i].busy && i !in s.touched && i in s.order
  }

  ghost function Do(s: State, step: Step): (s': State)
    requires Enabled(s, step)
  {
    match step
    case Read(dev, blockno, got) => if got.Hit? then BreadHit(s, got.i) else BreadMiss(s, got.i, dev, blockno)
    case Change(i, data) => Modify(s, i, data)
    case Write(i) => Bwrite(s, i)
    case Log(i) => Pin(s, i)
    case Release(i) => Brelse(s, i)
  }

  /** The same step on a plain array of blocks: only a change counts. */
  ghost function DoPlain(plain: seq<Data>, s: State, step: Step): (plain': seq<Data>)
    requires Enabled(s, step)
  {
    if step.Change? && s.bufs[step.i].blockno < |plain| then plain[s.bufs[step.i].blockno := step.data] else plain
  }

  /** The cache shows the plain array. */
  ghost predicate Shows(s: State, plain: seq<Data>) {
    && Inv(s) && |plain| == |s.disk|
    && forall b: nat :: b < |plain| ==> View(s, b) == plain[b]
  }

  /** The plain array that the cache shows. */
  ghost function Plain(s: State): (plain: seq<Data>)
    requires Inv(s)
    ensures Shows(s, plain)
  {
    seq(|s.disk|, b requires 0 <= b < |s.disk| => View(s, b))
  }

  /** Every step keeps the cache showing the plain array, and a read hands out the plain array's block. */
  lemma StepRefines(s: State, plain: seq<Data>, step: Step)
    requires Shows(s, plain) && Enabled(s, step)
    ensures Shows(Do(s, step), DoPlain(plain, s, step))
    ensures step.Read? ==>
              && step.blockno < |plain| && step.got.i < |s.bufs|
              && Do(s, step).bufs[step.got.i].busy && Do(s, step).bufs[step.got.i].data == plain[step.blockno]
  {
    match step
    case Read(dev, blockno, got) =>
      if got.Hit? {
        assert BufOk(s, got.i);
        StepAt(s, Do(s, step), got.i);
        assert Cached(s.bufs, DISK, blockno);
      } else {
        RecycleKeepsView(s, got.i, dev, blockno);
      }
    case Change(i, data) =>
      assert BufOk(s, i);
      StepAt(s, Do(s, step), i);
    case Write(i) =>
      assert BufOk(s, i);
      StepAt(s, Do(s, step), i);
      assert Cached(s.bufs, DISK, s.bufs[i].blockno);
    case Log(i) =>
      assert BufOk(s, i);
      StepAt(s, Do(s, step), i);
      assert Cached(s.bufs, DISK, s.bufs[i].blockno);
    case Release(i) =>
      assert BufOk(s, i);
      MoveFrontPermutes(s.order, Place(s.order, i));
      StepAt(s, Do(s, step), i);
      assert Cached(s.bufs, DISK, s.bufs[i].blockno);
  }

  ghost predicate ValidRun(s: State, steps: seq<Step>)
    decreases |steps|
  {
    steps == [] || (Enabled(s, steps[0]) && ValidRun(Do(s, steps[0]), steps[1..]))
  }

  ghost function Final(s: State, steps: seq<Step>): (s': State)
    requires ValidRun(s, steps)
    decreases |steps|
  {
    if steps == [] then s else Final(Do(s, steps[0]), steps[1..])
  }

  /** The plain array after the changes of a run. */
  ghost function FinalPlain(plain: seq<Data>, s: State, steps: seq<Step>): (plain': seq<Data>)
    requires ValidRun(s, steps)
    decreases |steps|
  {
    if steps == [] then plain else FinalPlain(DoPlain(plain, s, steps[0]), Do(s, steps[0]), steps[1..])
  }

  /** The state binit leaves: no buffer has a block, the last one initialised is in front. */
  function Init(n: nat, disk: seq<Data>): (s: State) {
    State(seq(n, _ => Buf(NODEV, 0, false, false, false, [])), seq(n, k requires 0 <= k < n => n - 1 - k), disk, {})
  }

  lemma InitShows(n: nat, disk: seq<Data>)
    ensures Shows(Init(n, disk), disk)
  {
    var s := Init(n, disk);
    forall b: nat | b < n
      ensures b in s.order
    {
      assert s.order[n - 1 - b] == b;
    }
    forall b: nat | b < |disk|
      ensures View(s, b) == disk[b]
    {
      assert forall i :: 0 <= i < n ==> !Is(s.bufs[i], DISK, b);
    }
  }

  ghost predicate OneBufferPerBlock(s: State) {
    forall i, j :: 0 <= i < |s.bufs| && 0 <= j < |s.bufs| && s.bufs[i].dev != NODEV ==>
      Is(s.bufs[i], s.bufs[j].dev, s.bufs[j].blockno) ==> i == j
  }

  ghost predicate IdleCleanAgrees(s: State) {
    forall i :: 0 <= i < |s.bufs| && s.bufs[i].valid && !s.bufs[i].busy && !s.bufs[i].dirty ==>
      s.bufs[i].blockno < |s.disk| && s.bufs[i].data == s.disk[s.bufs[i].blockno]
  }

  /** The cache refines a plain array of blocks: after any run under the discipline every block reads
      as in the array, at most one buffer has a block, an idle clean buffer agrees with the disk, and the
      next read, cached or not, returns the array's block. */
  lemma CacheRefinesArray(n: nat, disk: seq<Data>, steps: seq<Step>, next: Step)
    requires ValidRun(Init(n, disk), steps)
    ensures var s := Final(Init(n, disk), steps);
            var plain := FinalPlain(disk, Init(n, disk), steps);
            && Shows(s, plain)
            && OneBufferPerBlock(s) && IdleCleanAgrees(s)
            && (Enabled(s, next) && next.Read? ==>
                  && next.blockno < |plain| && next.got.i < |s.bufs|
                  && Do(s, next).bufs[next.got.i].data == plain[next.blockno])
  {
    InitShows(n, disk);
    RunRefines(Init(n, disk), disk, steps);
    var s := Final(Init(n, disk), steps);
    forall i, j | 0 <= i < |s.bufs| && 0 <= j < |s.bufs| && s.bufs[i].dev != NODEV &&
                  Is(s.bufs[i], s.bufs[j].dev, s.bufs[j].blockno)
      ensures i == j
    {
      assert BufOk(s, i) && BufOk(s, j);
    }
    forall i | 0 <= i < |s.bufs| && s.bufs[i].valid && !s.bufs[i].busy && !s.bufs[i].dirty
      ensures s.bufs[i].blockno < |s.disk| && s.bufs[i].data == s.disk[s.bufs[i].blockno]
    {
      assert BufOk(s, i);
    }
    if Enabled(s, next) { StepRefines(s, FinalPlain(disk, Init(n, disk), steps), next); }
  }

  lemma {:induction false} RunRefines(s: State, plain: seq<Data>, steps: seq<Step>)
    requires Shows(s, plain) && ValidRun(s, steps)
    ensures Shows(Final(s, steps), FinalPlain(plain, s, steps))
    decreases |steps|
  {
    if steps != [] {
      StepRefines(s, plain, steps[0]);
      RunRefines(Do(s, steps[0]), DoPlain(plain, s, steps[0]), steps[1..]);
    }
  }
}
