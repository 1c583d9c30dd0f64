/** The log of xv6/log.c over the buffer cache of xv6/bio.c, shared with any number of file system processes: every
    block write of commit and recovery with the breads and brelses around it. log_write pins a buffer with B_DIRTY;
    until the block is installed the buffer stays cached. The protocol of the log is what the two do together. */
module LogCache {

  import opened Common
  import opened Disk
  import opened LogFormat
  import BC = BufferCache
  import LP = LogProtocol

  /** Where the process in commit() or recover_from_log() is, within the next block write: nothing held; the log or
      header block read; its home block read too; the write done, with two buffers or one still to release. */
  datatype Pc = Ready | HaveLog(i: nat) | HaveBoth(i: nat, j: nat) | PutBoth(i: nat, j: nat) | PutOne(i: nat)

  /** The cache, the in-memory log as the protocol's state, and the process in commit() or recover_from_log(). */
  datatype State = State(c: BC.State, p: LP.State, pc: Pc)

  /** File system processes read, change, log and release buffers; Go is the next thing that commit() or
      recover_from_log() does; hb are the bytes of a header block. */
  datatype Step =
    | Begin(id: nat) | End(i: nat)
    | Read(b: nat, got: BC.Got) | Change(j: nat, v: Block) | Log(j: nat, i: nat) | Release(j: nat)
    | Go(got: BC.Got, hb: Block)
    | Crash

  // ---------------------------------------------------------------- the next block write

  /** The block writes of write_log, write_head and install_trans. */
  datatype Kind = Copy(k: nat) | Header | Install(k: nat)

  ghost function NextKind(p: LP.State): Kind
    requires !p.phase.Running?
  {
    match p.phase
    case Commit(_, batch, k) =>
      var n := |batch|;
      if k < n then Copy(k) else if n < k <= 2 * n then Install(k - n - 1) else Header
    case Recover(from, k) => if k < |from.head| then Install(k) else Header
  }

  /** The blocks of log.lh while commit() or recover_from_log() runs. */
  ghost function List(p: LP.State): seq<int>
    requires !p.phase.Running?
  {
    if p.phase.Commit? then p.phase.batch else p.phase.from.head
  }

  ghost function LogBlock(g: Geometry, kind: Kind): nat {
    match kind
    case Copy(k) => g.start + 1 + k
    case Install(k) => g.start + 1 + k
    case Header => g.start
  }

  ghost predicate Writing(g: Geometry, p: LP.State) {
    (LP.Writing(g, p) || LP.Recovering(g, p)) && p.phase.k < |LP.PhaseWrites(g, p)|
  }

  /** The protocol's step for a block write. */
  function WriteStep(p: LP.State): LP.Step {
    if p.phase.Commit? then LP.CommitWrite else LP.RecoveryWrite
  }

  /** The write w is of this kind, for the blocks lh, on a disk with these blocks. */
  ghost predicate IsWrite(g: Geometry, w: Write, kind: Kind, lh: seq<int>, blocks: seq<Block>, view: seq<Block>) {
    match kind
    case Header => w.Head?
    case Copy(k) =>
      && k < |lh| && Home(g, lh[k]) && k + 1 < g.size && |view| == g.nblocks && w == Data(g.start + 1 + k, view[lh[k]])
    case Install(k) =>
      && k < |lh| && Home(g, lh[k]) && k + 1 < g.size && g.start + g.size <= |blocks|
      && w == Data(lh[k], blocks[g.start + 1 + k])
  }

  /** Right after the header write the log holds what the cache showed. */
  lemma LogCopyKept(g: Geometry, from: Image, batch: seq<int>, view: seq<Block>, i: nat)
    requires Loggable(g, batch) && |view| == |from.blocks| == g.nblocks && i < |batch|
    ensures Home(g, batch[i]) && Committed(g, from, batch, view).blocks[g.start + 1 + i] == view[batch[i]]
  {
    assert Home(g, batch[i]);
    AfterLogWrites(g, from, batch, view, |batch|, g.start + 1 + i);
  }

  lemma RecoveryShape(g: Geometry, from: Image, k: nat)
    requires GoodDisk(g, from) && k < |from.head|
    ensures Loggable(g, from.head) && |from.blocks| == g.nblocks
    ensures Home(g, from.head[k]) && g.start + 1 + k < g.start + g.size <= g.nblocks
    ensures var (ws, ins) := (RecoveryWrites(g, from), InstallWrites(g, from.head, from.blocks));
      && ws[k] == Data(from.head[k], from.blocks[g.start + 1 + k]) && |ws| == |ins| + 1
      && forall i :: 0 <= i < k ==> ws[i] == ins[i]
  {
    hide Distinct;
  }

  lemma InstallInRecovery(g: Geometry, from: Image, k: nat)
    requires GoodDisk(g, from) && k < |from.head|
    ensures Home(g, from.head[k]) && g.start + 1 + k < g.start + g.size
    ensures RecoveryWrites(g, from)[k] == Data(from.head[k], from.blocks[g.start + 1 + k])
    ensures Apply(from, RecoveryWrites(g, from), k).blocks[g.start + 1 + k] == from.blocks[g.start + 1 + k]
  {
    hide Apply, RecoveryWrites, InstallWrites, GoodDisk, Loggable;
    RecoveryShape(g, from, k);
    var ws, ins := RecoveryWrites(g, from), InstallWrites(g, from.head, from.blocks);
    ApplyPrefix(from, ws, ins, k);
    AfterInstalls(g, from, from.head, k, g.start + 1 + k);
    LogIsNotLogged(g, from.head, g.start + 1 + k);
  }

  lemma Around(a: seq<Write>, w: Write, b: seq<Write>, k: nat)
    requires k < |a| + 1 + |b|
    ensures (a + [w] + b)[k] == if k < |a| then a[k] else if k == |a| then w else b[k - |a| - 1]
  {
  }

  lemma InstallInCommit(g: Geometry, from: Image, batch: seq<int>, view: seq<Block>, k: nat)
    requires Loggable(g, batch) && |view| == |from.blocks| == g.nblocks && |batch| < k <= 2 * |batch|
    ensures var (i, ws) := (k - |batch| - 1, CommitWrites(g, from, batch, view));
      && Home(g, batch[i]) && g.start + 1 + i < g.start + g.size
      && ws[k] == Data(batch[i], Apply(from, ws, k).blocks[g.start + 1 + i])
      && Apply(from, ws, k).blocks[g.start + 1 + i] == view[batch[i]]
  {
    var i, e := k - |batch| - 1, Committed(g, from, batch, view);
    assert CommitWrites(g, from, batch, view) == LogWrites(g, batch, view) + [Head(batch)] + RecoveryWrites(g, e);
    LogCopyKept(g, from, batch, view, i);
    hide CommitWrites, LogWrites, RecoveryWrites, Committed, Apply, Loggable;
    InstallInRecovery(g, e, i);
    ApplyAround(from, LogWrites(g, batch, view), Head(batch), RecoveryWrites(g, e), i, k);
    Around(LogWrites(g, batch, view), Head(batch), RecoveryWrites(g, e), k);
  }

  /** The log copies, and the two headers. */
  lemma CommitShape(g: Geometry, from: Image, batch: seq<int>, view: seq<Block>, k: nat)
    requires Loggable(g, batch) && |view| == |from.blocks| == g.nblocks && k < |CommitWrites(g, from, batch, view)|
    ensures var (n, ws) := (|batch|, CommitWrites(g, from, batch, view));
      && (k < n ==> Home(g, batch[k]) && ws[k] == Data(g.start + 1 + k, view[batch[k]]))
      && (k == n || k > 2 * n ==> ws[k].Head?)
  {
    hide Apply, Committed, Distinct;
    var n := |batch|;
    var (a, b) := (LogWrites(g, batch, view), RecoveryWrites(g, Committed(g, from, batch, view)));
    assert k < n ==> Home(g, batch[k]) && a[k] == Data(g.start + 1 + k, view[batch[k]]);
    assert b[n].Head?;
    Around(a, Head(batch), b, k);
  }

  lemma RoomForBatch(g: Geometry, batch: seq<int>)
    requires Loggable(g, batch)
    ensures |batch| < g.size && g.start + g.size <= g.nblocks
  {
  }

  lemma RecoveryNext(g: Geometry, from: Image, k: nat, view: seq<Block>)
    requires GoodDisk(g, from) && k < |RecoveryWrites(g, from)|
    ensures var ws := RecoveryWrites(g, from);
      IsWrite(g, ws[k], if k < |from.head| then Install(k) else Header, from.head, Apply(from, ws, k).blocks, view)
  {
    if k < |from.head| {
      InstallInRecovery(g, from, k);
    }
  }

  lemma CommitNext(g: Geometry, from: Image, batch: seq<int>, view: seq<Block>, k: nat)
    requires Loggable(g, batch) && |view| == |from.blocks| == g.nblocks && k < |CommitWrites(g, from, batch, view)|
    ensures var (n, ws) := (|batch|, CommitWrites(g, from, batch, view));
      var kind := if k < n then Copy(k) else if n < k <= 2 * n then Install(k - n - 1) else Header;
      && IsWrite(g, ws[k], kind, batch, Apply(from, ws, k).blocks, view)
      && (kind.Install? ==> Apply(from, ws, k).blocks[g.start + 1 + kind.k] == view[batch[kind.k]])
  {
    hide CommitWrites, Apply, Loggable;
    var n := |batch|;
    CommitShape(g, from, batch, view, k);
    if n < k <= 2 * n {
      InstallInCommit(g, from, batch, view, k);
    }
    RoomForBatch(g, batch);
  }

  /** What the next block write is. */
  lemma NextWrite(g: Geometry, base: Image, p: LP.State)
    requires LP.Inv(g, base, p) && !p.phase.Running? && Writing(g, p)
    ensures Loggable(g, List(p)) && (NextKind(p).Copy? ==> p.phase.Commit?)
    ensures IsWrite(g, LP.PhaseWrites(g, p)[p.phase.k], NextKind(p), List(p), p.disk.blocks, p.view)
    ensures var (kind, lh) := (NextKind(p), List(p));
      kind.Install? && p.phase.Commit? ==> p.disk.blocks[g.start + 1 + kind.k] == p.view[lh[kind.k]]
  {
    hide CommitWrites, RecoveryWrites, Apply, IsWrite;
    match p.phase
    case Commit(from, batch, k) =>
      CommitNext(g, from, batch, p.view, k);
    case Recover(from, k) =>
      RecoveryNext(g, from, k, p.view);
  }

  // ---------------------------------------------------------------- what the cache does

  /** The holder changed this block and has not logged it. */
  ghost predicate Untold(c: BC.State, b: nat) {
    exists i :: i in c.touched && i < |c.bufs| && BC.Is(c.bufs[i], BC.DISK, b)
  }

  ghost predicate PinAt(c: BC.State, pins: seq<int>, i: nat)
    requires i < |c.bufs|
  {
    c.bufs[i].dirty <==> c.bufs[i].dev != BC.NODEV && c.bufs[i].blockno in pins
  }

  /** Exactly the buffers of these blocks are dirty, and each of the blocks has one. */
  ghost predicate PinsOk(c: BC.State, pins: seq<int>) {
    && (forall i :: 0 <= i < |c.bufs| ==> PinAt(c, pins, i))
    && (forall b :: b in pins ==> 0 <= b && BC.Cached(c.bufs, BC.DISK, b))
  }

  /** The step is invisible: same disk, same contents, same changed buffers, and busy buffers are left alone. */
  ghost predicate Hidden(c: BC.State, c': BC.State) {
    && BC.Inv(c') && c'.disk == c.disk && c'.touched == c.touched && |c'.bufs| == |c.bufs|
    && (forall b: nat :: b < |c.disk| ==> BC.View(c', b) == BC.View(c, b))
    && (forall b: nat :: Untold(c', b) <==> Untold(c, b))
  }

  /** bread: nothing shows; the buffer was free and now holds what the cache shows of the block. */
  lemma ReadKeeps(c: BC.State, b: nat, got: BC.Got, pins: seq<int>)
    requires BC.Inv(c) && PinsOk(c, pins) && BC.Enabled(c, BC.Read(BC.DISK, b, got))
    ensures var c' := BC.Do(c, BC.Read(BC.DISK, b, got));
      && Hidden(c, c') && PinsOk(c', pins)
      && got.i < |c.bufs| && !c.bufs[got.i].busy && got.i !in c.touched
      && c'.bufs[got.i].busy && BC.Is(c'.bufs[got.i], BC.DISK, b)
      && b < |c.disk| && c'.bufs[got.i].data == BC.View(c, b)
      && forall i :: 0 <= i < |c.bufs| && i != got.i ==> c'.bufs[i] == c.bufs[i]
  {
    var step := BC.Read(BC.DISK, b, got);
    var c' := BC.Do(c, step);
    var k := got.i;
    BC.StepRefines(c, BC.Plain(c), step);
    assert BC.BufOk(c, k);
    forall x: nat
      ensures Untold(c', x) <==> Untold(c, x)
    {
      SameUntold(c, c', x);
    }
    forall i | 0 <= i < |c.bufs|
      ensures PinAt(c', pins, i)
    {
      assert PinAt(c, pins, i);
      if got.Recycle? && i == k {
        assert b !in pins;
      }
    }
    forall x | x in pins
      ensures BC.Cached(c'.bufs, BC.DISK, x)
    {
      var i := BC.Slot(c.bufs, BC.DISK, x);
      assert PinAt(c, pins, i) && PinAt(c, pins, k);
      assert BC.Is(c'.bufs[i], BC.DISK, x);
    }
  }

  /** Changed buffers are busy; where those are the same, so are the blocks changed. */
  lemma SameUntold(c: BC.State, c': BC.State, b: nat)
    requires c'.touched == c.touched && |c'.bufs| == |c.bufs|
    requires forall i :: i in c.touched && i < |c.bufs| ==>
      c'.bufs[i].dev == c.bufs[i].dev && c'.bufs[i].blockno == c.bufs[i].blockno
    ensures Untold(c', b) <==> Untold(c, b)
  {
    if Untold(c, b) {
      var i :| i in c.touched && i < |c.bufs| && BC.Is(c.bufs[i], BC.DISK, b);
      assert BC.Is(c'.bufs[i], BC.DISK, b);
    }
    if Untold(c', b) {
      var i :| i in c'.touched && i < |c'.bufs| && BC.Is(c'.bufs[i], BC.DISK, b);
      assert BC.Is(c.bufs[i], BC.DISK, b);
    }
  }

  /** A step on buffer k that keeps every buffer's block and dirty bit keeps the pins. */
  lemma SamePins(c: BC.State, c': BC.State, pins: seq<int>)
    requires PinsOk(c, pins) && BC.SameBlocks(c.bufs, c'.bufs)
    requires forall i :: 0 <= i < |c.bufs| ==> c'.bufs[i].dirty == c.bufs[i].dirty
    ensures PinsOk(c', pins)
  {
    forall i | 0 <= i < |c.bufs|
      ensures PinAt(c', pins, i)
    {
      assert PinAt(c, pins, i);
    }
    forall b | b in pins
      ensures BC.Cached(c'.bufs, BC.DISK, b)
    {
      BC.SameCached(c.bufs, c'.bufs, BC.DISK, b);
    }
  }

  /** brelse: nothing shows. */
  lemma ReleaseKeeps(c: BC.State, k: nat, pins: seq<int>)
    requires BC.Inv(c) && PinsOk(c, pins) && BC.Enabled(c, BC.Release(k))
    ensures var c' := BC.Do(c, BC.Release(k));
      && Hidden(c, c') && PinsOk(c', pins)
      && forall i :: 0 <= i < |c.bufs| ==> c'.bufs[i] == if i == k then c.bufs[i].(busy := false) else c.bufs[i]
  {
    var c' := BC.Do(c, BC.Release(k));
    BC.StepRefines(c, BC.Plain(c), BC.Release(k));
    forall x: nat
      ensures Untold(c', x) <==> Untold(c, x)
    {
      SameUntold(c, c', x);
    }
    SamePins(c, c', pins);
  }

  /** A holder's change shows in its block, which is then untold. */
  lemma ChangeKeeps(c: BC.State, k: nat, v: Block, pins: seq<int>)
    requires BC.Inv(c) && PinsOk(c, pins) && BC.Enabled(c, BC.Change(k, v))
    ensures var (c', at) := (BC.Do(c, BC.Change(k, v)), c.bufs[k].blockno);
      && BC.Inv(c') && c'.disk == c.disk && c'.touched == c.touched + {k} && PinsOk(c', pins) && at < |c.disk|
      && (forall b: nat :: b < |c.disk| && b != at ==> BC.View(c', b) == BC.View(c, b))
      && (forall b: nat :: Untold(c', b) <==> b == at || Untold(c, b))
  {
    var c', at := BC.Do(c, BC.Change(k, v)), c.bufs[k].blockno;
    assert BC.BufOk(c, k);
    BC.StepRefines(c, BC.Plain(c), BC.Change(k, v));
    SamePins(c, c', pins);
    forall b: nat
      ensures Untold(c', b) <==> b == at || Untold(c, b)
    {
      if b == at {
        assert k in c'.touched && BC.Is(c'.bufs[k], BC.DISK, b);
      } else {
        OtherUntold(c, c', k, b);
      }
    }
  }

  lemma OtherUntold(c: BC.State, c': BC.State, k: nat, b: nat)
    requires |c'.bufs| == |c.bufs| && k < |c.bufs| && c.bufs[k].blockno != b
    requires forall i :: 0 <= i < |c.bufs| ==>
      c'.bufs[i].dev == c.bufs[i].dev && c'.bufs[i].blockno == c.bufs[i].blockno
    requires forall i :: 0 <= i < |c.bufs| && i != k ==> (i in c'.touched <==> i in c.touched)
    ensures Untold(c', b) <==> Untold(c, b)
  {
    if Untold(c, b) {
      var i :| i in c.touched && i < |c.bufs| && BC.Is(c.bufs[i], BC.DISK, b);
      assert BC.Is(c'.bufs[i], BC.DISK, b);
    }
    if Untold(c', b) {
      var i :| i in c'.touched && i < |c'.bufs| && BC.Is(c'.bufs[i], BC.DISK, b);
      assert BC.Is(c.bufs[i], BC.DISK, b);
    }
  }

  /** log_write's pin: nothing shows, the block is told, and pinned. */
  lemma LogKeeps(c: BC.State, k: nat, pins: seq<int>)
    requires BC.Inv(c) && PinsOk(c, pins) && BC.Enabled(c, BC.Log(k))
    ensures var (c', at) := (BC.Do(c, BC.Log(k)), c.bufs[k].blockno);
      && BC.Inv(c') && c'.disk == c.disk && c'.touched == c.touched - {k} && at < |c.disk|
      && PinsOk(c', if at in pins then pins else pins + [at])
      && BC.View(c', at) == c.bufs[k].data
      && (forall b: nat :: b < |c.disk| ==> BC.View(c', b) == BC.View(c, b))
      && (forall b: nat :: Untold(c', b) <==> b != at && Untold(c, b))
  {
    var c', at := BC.Do(c, BC.Log(k)), c.bufs[k].blockno;
    assert BC.BufOk(c, k);
    BC.StepRefines(c, BC.Plain(c), BC.Log(k));
    assert BC.Is(c'.bufs[k], BC.DISK, at) && BC.BufOk(c', k);
    PinMore(c, c', k, pins);
    forall i | 0 <= i < |c'.bufs| && BC.Is(c'.bufs[i], BC.DISK, at)
      ensures i == k
    {
      assert BC.BufOk(c', i);
    }
    forall b: nat
      ensures Untold(c', b) <==> b != at && Untold(c, b)
    {
      if b != at {
        OtherUntold(c, c', k, b);
      }
    }
  }

  lemma PinMore(c: BC.State, c': BC.State, k: nat, pins: seq<int>)
    requires BC.Inv(c) && PinsOk(c, pins) && BC.Enabled(c, BC.Log(k)) && c' == BC.Do(c, BC.Log(k)) && BC.Inv(c')
    requires c.bufs[k].dev == BC.DISK
    ensures var at := c.bufs[k].blockno; PinsOk(c', if at in pins then pins else pins + [at])
  {
    var at := c.bufs[k].blockno;
    var pins' := if at in pins then pins else pins + [at];
    forall i | 0 <= i < |c'.bufs|
      ensures PinAt(c', pins', i)
    {
      assert PinAt(c, pins, i) && BC.BufOk(c', i) && BC.BufOk(c', k);
    }
    forall b | b in pins'
      ensures BC.Cached(c'.bufs, BC.DISK, b)
    {
      if b in pins {
        BC.SameCached(c.bufs, c'.bufs, BC.DISK, b);
      } else {
        assert BC.Is(c'.bufs[k], BC.DISK, b);
      }
    }
  }

  /** memmove into a held buffer, and bwrite. */
  ghost function Put(c: BC.State, k: nat, v: Block): BC.State
    requires k < |c.bufs| && c.bufs[k].blockno < |c.disk|
  {
    BC.Bwrite(BC.Modify(c, k, v), k)
  }

  lemma PutKeeps(c: BC.State, k: nat, v: Block)
    requires BC.Inv(c) && k < |c.bufs| && c.bufs[k].busy && k !in c.touched && c.bufs[k].dev == BC.DISK
    ensures c.bufs[k].blockno < |c.disk|
    ensures var (c', at) := (Put(c, k, v), c.bufs[k].blockno);
      && BC.Inv(c') && c'.disk == c.disk[at := v] && c'.touched == c.touched && |c'.bufs| == |c.bufs|
      && c'.bufs == c.bufs[k := c.bufs[k].(data := v, dirty := false, valid := true)]
      && (forall b: nat :: b < |c.disk| ==> BC.View(c', b) == if b == at then v else BC.View(c, b))
      && (forall b: nat :: Untold(c', b) <==> Untold(c, b))
  {
    assert BC.BufOk(c, k);
    var mid, c' := BC.Modify(c, k, v), Put(c, k, v);
    BC.StepRefines(c, BC.Plain(c), BC.Change(k, v));
    BC.StepRefines(mid, BC.Plain(mid), BC.Write(k));
    assert BC.BufOk(c', k) && BC.Is(c'.bufs[k], BC.DISK, c.bufs[k].blockno);
    assert c'.touched == c.touched;
    forall b: nat
      ensures Untold(c', b) <==> Untold(c, b)
    {
      SameUntold(c, c', b);
    }
  }

  /** Writing a log block leaves the pins alone; installing the first of the pinned blocks frees its buffer. */
  lemma PutPins(c: BC.State, k: nat, v: Block, pins: seq<int>)
    requires BC.Inv(c) && PinsOk(c, pins) && k < |c.bufs| && c.bufs[k].dev == BC.DISK && c.bufs[k].blockno < |c.disk|
    ensures c.bufs[k].blockno !in pins ==> PinsOk(Put(c, k, v), pins)
    ensures pins != [] && pins[0] == c.bufs[k].blockno && pins[0] !in pins[1..] ==> PinsOk(Put(c, k, v), pins[1..])
  {
    var c', at := Put(c, k, v), c.bufs[k].blockno;
    var rest := if at !in pins then pins else pins[1..];
    if at !in pins || (pins[0] == at && at !in pins[1..]) {
      forall i | 0 <= i < |c'.bufs|
        ensures PinAt(c', rest, i)
      {
        assert PinAt(c, pins, i) && PinAt(c, pins, k) && BC.BufOk(c, i) && BC.BufOk(c, k);
      }
      forall b | b in rest
        ensures BC.Cached(c'.bufs, BC.DISK, b)
      {
        assert b in pins;
        BC.SameCached(c.bufs, c'.bufs, BC.DISK, b);
      }
    }
  }

  // ---------------------------------------------------------------- the machine

  /** The blocks whose buffers log_write has pinned: logged, and not installed yet. */
  ghost function Pinned(p: LP.State): seq<int> {
    match p.phase
    case Running => p.lh
    case Commit(_, batch, k) =>
      if k <= |batch| then batch else if k - |batch| - 1 <= |batch| then batch[k - |batch| - 1..] else []
    case Recover(_, _) => []
  }

  function Held(pc: Pc): set<nat> {
    match pc
    case Ready => {}
    case HaveLog(i) => {i}
    case HaveBoth(i, j) => {i, j}
    case PutBoth(i, j) => {i, j}
    case PutOne(i) => {i}
  }

  /** The home block of the next block write. */
  ghost function HomeBlock(p: LP.State): nat
    requires !p.phase.Running?
  {
    var (kind, lh) := (NextKind(p), List(p));
    if !kind.Header? && kind.k < |lh| && lh[kind.k] >= 0 then lh[kind.k] else 0
  }

  /** What commit() and recover_from_log() do next can be done now: the buffer to read is to be had, the one to write or
      release is held. */
  ghost predicate GoEnabled(g: Geometry, s: State, got: BC.Got) {
    && (LP.Writing(g, s.p) || LP.Recovering(g, s.p))
    && match s.pc
       case Ready =>
         s.p.phase.k >= |LP.PhaseWrites(g, s.p)| || BC.Enabled(s.c, BC.Read(BC.DISK, LogBlock(g, NextKind(s.p)), got))
       case HaveLog(i) =>
         && s.p.phase.k < |LP.PhaseWrites(g, s.p)|
         && if NextKind(s.p).Header? then BC.Enabled(s.c, BC.Write(i))
            else BC.Enabled(s.c, BC.Read(BC.DISK, HomeBlock(s.p), got))
       case HaveBoth(i, j) =>
         && s.p.phase.k < |LP.PhaseWrites(g, s.p)|
         && BC.Enabled(s.c, BC.Write(i)) && BC.Enabled(s.c, BC.Write(j))
       case PutBoth(i, _) => BC.Enabled(s.c, BC.Release(i))
       case PutOne(i) => BC.Enabled(s.c, BC.Release(i))
  }

  ghost function Going(g: Geometry, s: State, got: BC.Got, hb: Block): State
    requires GoEnabled(g, s, got) && (s.p.phase.k <= |LP.PhaseWrites(g, s.p)|)
  {
    var c, p, kind := s.c, s.p, NextKind(s.p);
    match s.pc
    case Ready =>
      if p.phase.k == |LP.PhaseWrites(g, p)| then
        s.(p := LP.Do(g, p, if p.phase.Commit? then LP.CommitDone else LP.Boot))
      else State(BC.Do(c, BC.Read(BC.DISK, LogBlock(g, kind), got)), p, HaveLog(got.i))
    case HaveLog(i) =>
      if kind.Header? then State(Put(c, i, hb), LP.Do(g, p, WriteStep(p)), PutOne(i))
      else State(BC.Do(c, BC.Read(BC.DISK, HomeBlock(p), got)), p, HaveBoth(i, got.i))
    case HaveBoth(i, j) =>
      if kind.Copy? then State(Put(c, i, c.bufs[j].data), LP.Do(g, p, WriteStep(p)), PutBoth(j, i))
      else State(Put(c, j, c.bufs[i].data), LP.Do(g, p, WriteStep(p)), PutBoth(i, j))
    case PutBoth(i, j) => State(BC.Do(c, BC.Release(i)), p, PutOne(j))
    case PutOne(i) => State(BC.Do(c, BC.Release(i)), p, Ready)
  }

  /** A process changes a block only within an operation, and logs what it changed before the last operation ends. */
  ghost predicate Enabled(g: Geometry, s: State, step: Step) {
    match step
    case Begin(id) => LP.Enabled(g, s.p, LP.Begin(id))
    case End(i) => LP.Enabled(g, s.p, LP.End(i)) && (|s.p.ops| == 1 ==> s.c.touched == {})
    case Read(b, got) => Home(g, b) && BC.Enabled(s.c, BC.Read(BC.DISK, b, got))
    case Change(j, v) =>
      && s.p.ops != [] && BC.Enabled(s.c, BC.Change(j, v)) && j !in Held(s.pc) && Home(g, s.c.bufs[j].blockno)
    case Log(j, i) =>
      && BC.Enabled(s.c, BC.Log(j)) && j !in Held(s.pc)
      && LP.Enabled(g, s.p, LP.LogWrite(i, s.c.bufs[j].blockno, s.c.bufs[j].data))
    case Release(j) => BC.Enabled(s.c, BC.Release(j)) && j !in Held(s.pc)
    case Go(got, hb) => GoEnabled(g, s, got) && s.p.phase.k <= |LP.PhaseWrites(g, s.p)|
    case Crash => LP.Enabled(g, s.p, LP.Crash)
  }

  ghost function Do(g: Geometry, s: State, step: Step): State
    requires Enabled(g, s, step)
  {
    hide LP.PhaseWrites;
    match step
    case Begin(id) => s.(p := LP.Do(g, s.p, LP.Begin(id)))
    case End(i) => s.(p := LP.Do(g, s.p, LP.End(i)))
    case Read(b, got) => s.(c := BC.Do(s.c, BC.Read(BC.DISK, b, got)))
    case Change(j, v) => s.(c := BC.Do(s.c, BC.Change(j, v)))
    case Log(j, i) =>
      s.(c := BC.Do(s.c, BC.Log(j)), p := LP.Do(g, s.p, LP.LogWrite(i, s.c.bufs[j].blockno, s.c.bufs[j].data)))
    case Release(j) => s.(c := BC.Do(s.c, BC.Release(j)))
    case Go(got, hb) => Going(g, s, got, hb)
    case Crash => State(BC.Init(|s.c.bufs|, s.c.disk), LP.Do(g, s.p, LP.Crash), Ready)
  }

  // ---------------------------------------------------------------- what holds always

  /** The disk is the protocol's, but for the bytes of the header block. */
  ghost predicate DiskTie(g: Geometry, disk: seq<Block>, blocks: seq<Block>) {
    && |disk| == |blocks| == g.nblocks
    && forall b :: 0 <= b < g.nblocks && b != g.start ==> disk[b] == blocks[b]
  }

  ghost predicate ViewAt(c: BC.State, view: seq<Block>, b: nat)
    requires b < |c.disk| == |view|
  {
    Untold(c, b) || BC.View(c, b) == view[b]
  }

  /** What the cache shows is the protocol's view, but for blocks changed and not logged yet. */
  ghost predicate ViewTie(g: Geometry, c: BC.State, view: seq<Block>) {
    && |c.disk| == |view| == g.nblocks
    && forall b: nat {:trigger Home(g, b)} :: Home(g, b) ==> ViewAt(c, view, b)
  }

  /** Only home blocks are changed without a write, and only within operations. */
  ghost predicate TouchOk(g: Geometry, c: BC.State, ops: seq<LP.Op>) {
    && (forall i :: i in c.touched ==> i < |c.bufs| && c.bufs[i].dev == BC.DISK && Home(g, c.bufs[i].blockno))
    && (ops == [] ==> c.touched == {})
  }

  ghost predicate Holds(c: BC.State, i: nat) {
    i < |c.bufs| && c.bufs[i].busy && c.bufs[i].dev == BC.DISK && i !in c.touched
  }

  ghost predicate HoldsBlock(c: BC.State, i: nat, b: nat) {
    Holds(c, i) && c.bufs[i].blockno == b
  }

  ghost predicate PcOk(g: Geometry, s: State) {
    if s.p.phase.Running? then s.pc == Ready
    else
      match s.pc
      case Ready => true
      case HaveLog(i) => Writing(g, s.p) && HoldsBlock(s.c, i, LogBlock(g, NextKind(s.p)))
      case HaveBoth(i, j) =>
        && Writing(g, s.p) && !NextKind(s.p).Header?
        && HoldsBlock(s.c, i, LogBlock(g, NextKind(s.p))) && HoldsBlock(s.c, j, HomeBlock(s.p))
      case PutBoth(i, j) => Holds(s.c, i) && Holds(s.c, j) && i != j
      case PutOne(i) => Holds(s.c, i)
  }

  ghost predicate Good(g: Geometry, base: Image, s: State) {
    && LP.Inv(g, base, s.p) && BC.Inv(s.c)
    && DiskTie(g, s.c.disk, s.p.disk.blocks)
    && (!s.p.phase.Recover? ==> ViewTie(g, s.c, s.p.view))
    && PinsOk(s.c, Pinned(s.p)) && TouchOk(g, s.c, s.p.ops) && PcOk(g, s)
  }

  // ---------------------------------------------------------------- every step keeps it

  lemma BeginKeeps(g: Geometry, base: Image, s: State, id: nat)
    requires Good(g, base, s) && LP.Enabled(g, s.p, LP.Begin(id))
    ensures Good(g, base, s.(p := LP.Do(g, s.p, LP.Begin(id))))
  {
    LP.StepKeepsInv(g, base, s.p, LP.Begin(id));
    hide LP.Inv, BC.Inv, DiskTie, ViewTie, PinsOk;
  }

  lemma EndKeeps(g: Geometry, base: Image, s: State, i: nat)
    requires Good(g, base, s) && LP.Enabled(g, s.p, LP.End(i)) && (|s.p.ops| == 1 ==> s.c.touched == {})
    ensures Good(g, base, s.(p := LP.Do(g, s.p, LP.End(i))))
  {
    LP.StepKeepsInv(g, base, s.p, LP.End(i));
    OperationsRun(g, base, s.p);
    hide LP.Inv, BC.Inv, DiskTie, ViewTie, PinsOk;
  }

  lemma OperationsRun(g: Geometry, base: Image, p: LP.State)
    requires LP.Inv(g, base, p)
    ensures p.ops != [] ==> p.phase.Running?
    ensures !p.phase.Running? ==> p.ops == []
  {
  }

  lemma HiddenView(g: Geometry, c: BC.State, c': BC.State, view: seq<Block>)
    requires ViewTie(g, c, view) && Hidden(c, c')
    ensures ViewTie(g, c', view)
  {
    hide Untold, BC.View, BC.Inv;
    forall b: nat | Home(g, b)
      ensures ViewAt(c', view, b)
    {
      assert ViewAt(c, view, b);
    }
  }

  lemma HiddenTouch(g: Geometry, c: BC.State, c': BC.State, ops: seq<LP.Op>)
    requires TouchOk(g, c, ops) && c'.touched == c.touched && |c'.bufs| == |c.bufs|
    requires forall i :: i in c.touched && i < |c.bufs| ==>
      c'.bufs[i].dev == c.bufs[i].dev && c'.bufs[i].blockno == c.bufs[i].blockno
    ensures TouchOk(g, c', ops)
  {
  }

  lemma HeldPc(g: Geometry, s: State, c': BC.State)
    requires PcOk(g, s) && c'.touched == s.c.touched && |c'.bufs| == |s.c.bufs|
    requires forall i :: i in Held(s.pc) && i < |s.c.bufs| ==> c'.bufs[i] == s.c.bufs[i]
    ensures PcOk(g, s.(c := c'))
  {
    hide Writing, NextKind, HomeBlock, LogBlock;
  }

  /** A step of the cache that does not show, on no buffer that is held by commit or recovery. */
  lemma HiddenKeeps(g: Geometry, base: Image, s: State, c': BC.State)
    requires Good(g, base, s) && Hidden(s.c, c') && PinsOk(c', Pinned(s.p))
    requires forall i :: i in s.c.touched && i < |s.c.bufs| ==>
      c'.bufs[i].dev == s.c.bufs[i].dev && c'.bufs[i].blockno == s.c.bufs[i].blockno
    requires forall i :: i in Held(s.pc) && i < |s.c.bufs| ==> c'.bufs[i] == s.c.bufs[i]
    ensures Good(g, base, s.(c := c'))
  {
    hide LP.Inv, BC.Inv, PinsOk, DiskTie, ViewTie, TouchOk, PcOk, Pinned, Untold, BC.View;
    if !s.p.phase.Recover? {
      HiddenView(g, s.c, c', s.p.view);
    }
    HiddenTouch(g, s.c, c', s.p.ops);
    HeldPc(g, s, c');
  }

  lemma ReadStepKeeps(g: Geometry, base: Image, s: State, b: nat, got: BC.Got)
    requires Good(g, base, s) && BC.Enabled(s.c, BC.Read(BC.DISK, b, got))
    ensures Good(g, base, s.(c := BC.Do(s.c, BC.Read(BC.DISK, b, got))))
  {
    ReadKeeps(s.c, b, got, Pinned(s.p));
    HeldIsBusy(g, s);
    hide LP.Inv, BC.Inv, PinsOk, Hidden, BC.Enabled, BC.Do;
    HiddenKeeps(g, base, s, BC.Do(s.c, BC.Read(BC.DISK, b, got)));
  }

  lemma HeldIsBusy(g: Geometry, s: State)
    requires PcOk(g, s)
    ensures forall i :: i in Held(s.pc) ==> Holds(s.c, i)
  {
  }

  lemma ReleaseStepKeeps(g: Geometry, base: Image, s: State, j: nat)
    requires Good(g, base, s) && BC.Enabled(s.c, BC.Release(j)) && j !in Held(s.pc)
    ensures Good(g, base, s.(c := BC.Do(s.c, BC.Release(j))))
  {
    ReleaseKeeps(s.c, j, Pinned(s.p));
    hide LP.Inv, BC.Inv, PinsOk, Hidden, BC.Enabled, BC.Do;
    HiddenKeeps(g, base, s, BC.Do(s.c, BC.Release(j)));
  }

  lemma ChangeStepKeeps(g: Geometry, base: Image, s: State, j: nat, v: Block)
    requires Good(g, base, s) && Enabled(g, s, Change(j, v))
    ensures Good(g, base, Do(g, s, Change(j, v)))
  {
    hide LP.Inv, BC.Inv, PinsOk, DiskTie, ViewTie, Untold, BC.View, TouchOk, PcOk;
    var (c', at) := (BC.Do(s.c, BC.Change(j, v)), s.c.bufs[j].blockno);
    ChangeKeeps(s.c, j, v, Pinned(s.p));
    OperationsRun(g, base, s.p);
    ChangeView(g, s.c, c', s.p.view, at);
    ChangeTouch(g, s, j, v);
  }

  lemma ChangeView(g: Geometry, c: BC.State, c': BC.State, view: seq<Block>, at: nat)
    requires ViewTie(g, c, view) && c'.disk == c.disk
    requires forall b: nat :: b < |c.disk| && b != at ==> BC.View(c', b) == BC.View(c, b)
    requires forall b: nat :: Untold(c', b) <==> b == at || Untold(c, b)
    ensures ViewTie(g, c', view)
  {
    hide Untold, BC.View;
    forall b: nat | Home(g, b)
      ensures ViewAt(c', view, b)
    {
      assert ViewAt(c, view, b);
    }
  }

  lemma ChangeTouch(g: Geometry, s: State, j: nat, v: Block)
    requires BC.Inv(s.c) && TouchOk(g, s.c, s.p.ops) && PcOk(g, s) && Enabled(g, s, Change(j, v))
    ensures var c' := BC.Do(s.c, BC.Change(j, v)); TouchOk(g, c', s.p.ops) && PcOk(g, s.(c := c'))
  {
    hide Writing, NextKind, HomeBlock, LogBlock;
    assert BC.BufOk(s.c, j);
  }

  lemma LogView(g: Geometry, c: BC.State, c': BC.State, view: seq<Block>, at: nat, v: Block)
    requires ViewTie(g, c, view) && at < g.nblocks && c'.disk == c.disk && BC.View(c', at) == v
    requires forall b: nat :: b < |c.disk| ==> BC.View(c', b) == BC.View(c, b)
    requires forall b: nat :: Untold(c', b) <==> b != at && Untold(c, b)
    ensures ViewTie(g, c', view[at := v])
  {
    hide Untold, BC.View;
    forall b: nat | Home(g, b)
      ensures ViewAt(c', view[at := v], b)
    {
      assert ViewAt(c, view, b);
    }
  }

  lemma LogStepKeeps(g: Geometry, base: Image, s: State, j: nat, i: nat)
    requires Good(g, base, s) && Enabled(g, s, Log(j, i))
    ensures Good(g, base, Do(g, s, Log(j, i)))
  {
    hide LP.Inv, BC.Inv, PinsOk, DiskTie, ViewTie, Untold, BC.View;
    var at, v := s.c.bufs[j].blockno, s.c.bufs[j].data;
    LogKeeps(s.c, j, Pinned(s.p));
    LP.StepKeepsInv(g, base, s.p, LP.LogWrite(i, at, v));
    OperationsRun(g, base, s.p);
    TiedSizes(g, s.c, s.p.view);
    LogView(g, s.c, BC.Do(s.c, BC.Log(j)), s.p.view, at, v);
  }

  lemma TiedSizes(g: Geometry, c: BC.State, view: seq<Block>)
    requires ViewTie(g, c, view)
    ensures |c.disk| == |view| == g.nblocks
  {
  }

  lemma InitQuiet(n: nat, disk: seq<Block>)
    ensures BC.Inv(BC.Init(n, disk)) && PinsOk(BC.Init(n, disk), [])
    ensures forall b: nat :: b < |disk| ==> BC.View(BC.Init(n, disk), b) == disk[b]
  {
    BC.InitShows(n, disk);
    hide BC.Inv, BC.View;
  }

  lemma CrashStepKeeps(g: Geometry, base: Image, s: State)
    requires Good(g, base, s) && Enabled(g, s, Crash)
    ensures Good(g, base, Do(g, s, Crash))
  {
    hide LP.Inv, BC.Inv, DiskTie, ViewTie, BC.View, Untold, PinsOk;
    LP.StepKeepsInv(g, base, s.p, LP.Crash);
    InitQuiet(|s.c.bufs|, s.c.disk);
  }

  // ---------------------------------------------------------------- commit and recovery

  /** The last write is done: operations may begin again. */
  lemma FinishKeeps(g: Geometry, base: Image, s: State)
    requires Good(g, base, s) && s.pc == Ready && (LP.Writing(g, s.p) || LP.Recovering(g, s.p))
    requires s.p.phase.k == |LP.PhaseWrites(g, s.p)|
    ensures Good(g, base, s.(p := LP.Do(g, s.p, if s.p.phase.Commit? then LP.CommitDone else LP.Boot)))
  {
    var step := if s.p.phase.Commit? then LP.CommitDone else LP.Boot;
    LP.StepKeepsInv(g, base, s.p, step);
    OperationsRun(g, base, s.p);
    FinishedLog(g, base, s.p);
    if s.p.phase.Recover? {
      CleanShowsDisk(g, s.c, s.p.disk.blocks);
    }
    hide LP.Inv, BC.Inv, DiskTie, ViewTie, PinsOk, TouchOk;
  }

  lemma FinishedLog(g: Geometry, base: Image, p: LP.State)
    requires LP.Inv(g, base, p) && (LP.Writing(g, p) || LP.Recovering(g, p)) && p.phase.k == |LP.PhaseWrites(g, p)|
    ensures p.lh == [] && Pinned(p) == []
  {
  }

  /** With no buffer dirty or changed the cache shows the disk. */
  lemma CleanShowsDisk(g: Geometry, c: BC.State, blocks: seq<Block>)
    requires BC.Inv(c) && PinsOk(c, []) && c.touched == {} && DiskTie(g, c.disk, blocks) && ValidGeometry(g)
    ensures ViewTie(g, c, blocks)
  {
    forall b: nat | Home(g, b)
      ensures ViewAt(c, blocks, b)
    {
      if BC.Cached(c.bufs, BC.DISK, b) {
        var i := BC.Slot(c.bufs, BC.DISK, b);
        assert BC.BufOk(c, i) && PinAt(c, [], i);
      }
    }
  }

  /** A held buffer of a block shows that block; one whose block is not pinned agrees with the disk. */
  lemma HeldShows(g: Geometry, c: BC.State, i: nat, b: nat, pins: seq<int>)
    requires BC.Inv(c) && PinsOk(c, pins) && HoldsBlock(c, i, b)
    ensures b < |c.disk| && c.bufs[i].data == BC.View(c, b) && (b !in pins ==> c.bufs[i].data == c.disk[b])
  {
    assert BC.BufOk(c, i) && PinAt(c, pins, i);
    assert BC.Is(c.bufs[i], BC.DISK, b);
  }

  lemma ReadLogKeeps(g: Geometry, base: Image, s: State, got: BC.Got)
    requires Good(g, base, s) && s.pc == Ready && !s.p.phase.Running? && Writing(g, s.p)
    requires BC.Enabled(s.c, BC.Read(BC.DISK, LogBlock(g, NextKind(s.p)), got))
    ensures Good(g, base, State(BC.Do(s.c, BC.Read(BC.DISK, LogBlock(g, NextKind(s.p)), got)), s.p, HaveLog(got.i)))
  {
    var b := LogBlock(g, NextKind(s.p));
    ReadKeeps(s.c, b, got, Pinned(s.p));
    ReadStepKeeps(g, base, s, b, got);
    hide LP.Inv, BC.Inv, DiskTie, ViewTie, PinsOk, TouchOk, BC.Enabled, BC.Do, NextKind, Writing, Hidden;
    HiddenTouched(s.c, BC.Do(s.c, BC.Read(BC.DISK, b, got)));
  }

  lemma HiddenTouched(c: BC.State, c': BC.State)
    requires Hidden(c, c')
    ensures c'.touched == c.touched && |c'.bufs| == |c.bufs|
  {
  }

  lemma ReadHomeKeeps(g: Geometry, base: Image, s: State, got: BC.Got)
    requires Good(g, base, s) && s.pc.HaveLog? && !s.p.phase.Running? && Writing(g, s.p) && !NextKind(s.p).Header?
    requires BC.Enabled(s.c, BC.Read(BC.DISK, HomeBlock(s.p), got))
    ensures Good(g, base, State(BC.Do(s.c, BC.Read(BC.DISK, HomeBlock(s.p), got)), s.p, HaveBoth(s.pc.i, got.i)))
  {
    var b := HomeBlock(s.p);
    ReadKeeps(s.c, b, got, Pinned(s.p));
    ReadStepKeeps(g, base, s, b, got);
    hide LP.Inv, BC.Inv, DiskTie, ViewTie, PinsOk, TouchOk, BC.Enabled, BC.Do, NextKind, Writing, Hidden, HomeBlock;
    HiddenTouched(s.c, BC.Do(s.c, BC.Read(BC.DISK, b, got)));
  }

  lemma FreeOneKeeps(g: Geometry, base: Image, s: State)
    requires Good(g, base, s) && !s.p.phase.Running? && (s.pc.PutBoth? || s.pc.PutOne?)
    requires BC.Enabled(s.c, BC.Release(s.pc.i))
    ensures Good(g, base, State(BC.Do(s.c, BC.Release(s.pc.i)), s.p, if s.pc.PutBoth? then PutOne(s.pc.j) else Ready))
  {
    var c' := BC.Do(s.c, BC.Release(s.pc.i));
    var t := State(s.c, s.p, if s.pc.PutBoth? then PutOne(s.pc.j) else Ready);
    hide LP.Inv, BC.Inv, DiskTie, ViewTie, PinsOk, TouchOk, BC.Enabled, BC.Do;
    assert Good(g, base, t);
    ReleaseStepKeeps(g, base, t, s.pc.i);
  }

  lemma PutDisk(g: Geometry, disk: seq<Block>, d: Image, at: nat, v: Block, w: Write)
    requires DiskTie(g, disk, d.blocks) && at < g.nblocks
    requires w == Data(at, v) || (w.Head? && at == g.start)
    ensures DiskTie(g, disk[at := v], ApplyOne(d, w).blocks)
  {
  }

  lemma PutView(g: Geometry, c: BC.State, c': BC.State, view: seq<Block>, at: nat, v: Block)
    requires ViewTie(g, c, view) && at < g.nblocks && |c'.disk| == |c.disk|
    requires forall b: nat :: b < |c.disk| ==> BC.View(c', b) == if b == at then v else BC.View(c, b)
    requires forall b: nat :: Untold(c', b) <==> Untold(c, b)
    requires Home(g, at) ==> v == view[at]
    ensures ViewTie(g, c', view)
  {
    hide Untold, BC.View;
    forall b: nat | Home(g, b)
      ensures ViewAt(c', view, b)
    {
      assert ViewAt(c, view, b);
    }
  }

  /** Writing v from held buffer k is the next block write, and pins and view follow. */
  ghost predicate Puts(g: Geometry, p: LP.State, at: nat, v: Block)
    requires !p.phase.Running? && Writing(g, p) && LP.Enabled(g, p, WriteStep(p))
  {
    var (w, pins, pins') := (LP.PhaseWrites(g, p)[p.phase.k], Pinned(p), Pinned(LP.Do(g, p, WriteStep(p))));
    && (w == Data(at, v) || (w.Head? && at == g.start))
    && (!p.phase.Recover? && Home(g, at) ==> at < |p.view| && v == p.view[at])
    && (|| (at !in pins && pins' == pins)
        || (pins != [] && pins[0] == at && at !in pins[1..] && pins' == pins[1..]))
  }

  /** What a block write does to all but the place in the code. */
  lemma PutStepKeeps(g: Geometry, base: Image, s: State, k: nat, v: Block, pc: Pc)
    requires Good(g, base, s) && !s.p.phase.Running? && Writing(g, s.p) && LP.Enabled(g, s.p, WriteStep(s.p))
    requires Holds(s.c, k) && s.c.bufs[k].blockno < |s.c.disk| && Puts(g, s.p, s.c.bufs[k].blockno, v)
    requires Held(pc) <= Held(s.pc) && (pc.PutOne? || (pc.PutBoth? && pc.i != pc.j))
    ensures Good(g, base, State(Put(s.c, k, v), LP.Do(g, s.p, WriteStep(s.p)), pc))
  {
    hide LP.Inv, BC.Inv, DiskTie, ViewTie, PinsOk, TouchOk, PcOk, Pinned, Put, Untold, BC.View, LP.PhaseWrites,
         LP.Enabled, LP.Writing, LP.Recovering, LP.Do;
    var at, c' := s.c.bufs[k].blockno, Put(s.c, k, v);
    StillBusy(g, s.p);
    LP.StepKeepsInv(g, base, s.p, WriteStep(s.p));
    PutKeeps(s.c, k, v);
    PutPins(s.c, k, v, Pinned(s.p));
    TiedDisk(g, s.c.disk, s.p.disk.blocks);
    WriteDoes(g, s.p);
    PutDisk(g, s.c.disk, s.p.disk, at, v, LP.PhaseWrites(g, s.p)[s.p.phase.k]);
    if !s.p.phase.Recover? {
      PutView(g, s.c, c', s.p.view, at, v);
    }
    HiddenTouch(g, s.c, c', s.p.ops);
    PutPc(g, s, State(c', LP.Do(g, s.p, WriteStep(s.p)), pc));
  }

  lemma PutPc(g: Geometry, s: State, t: State)
    requires PcOk(g, s) && !t.p.phase.Running? && t.c.touched == s.c.touched && |t.c.bufs| == |s.c.bufs|
    requires forall i :: 0 <= i < |s.c.bufs| ==>
      t.c.bufs[i].busy == s.c.bufs[i].busy && t.c.bufs[i].dev == s.c.bufs[i].dev
    requires Held(t.pc) <= Held(s.pc) && (t.pc.PutOne? || (t.pc.PutBoth? && t.pc.i != t.pc.j))
    ensures PcOk(g, t)
  {
    HeldIsBusy(g, s);
    hide Writing, NextKind, HomeBlock, LogBlock;
    assert forall i :: i in Held(t.pc) ==> Holds(t.c, i);
  }

  lemma WriteDoes(g: Geometry, p: LP.State)
    requires !p.phase.Running? && Writing(g, p) && LP.Enabled(g, p, WriteStep(p))
    ensures var (w, p') := (LP.PhaseWrites(g, p)[p.phase.k], LP.Do(g, p, WriteStep(p)));
      && (w.Data? ==> w.b < |p.disk.blocks|) && p'.disk == ApplyOne(p.disk, w)
      && p'.view == p.view && p'.ops == p.ops && (p'.phase.Recover? <==> p.phase.Recover?)
  {
  }

  lemma TiedDisk(g: Geometry, disk: seq<Block>, blocks: seq<Block>)
    requires DiskTie(g, disk, blocks)
    ensures |disk| == |blocks| == g.nblocks
  {
  }

  /** A copy or a header write unpins nothing; an install unpins its block, and no other. */
  lemma PinnedNext(g: Geometry, base: Image, p: LP.State)
    requires LP.Inv(g, base, p) && !p.phase.Running? && Writing(g, p)
    ensures LP.Enabled(g, p, WriteStep(p))
    ensures var (kind, pins, pins', lh) := (NextKind(p), Pinned(p), Pinned(LP.Do(g, p, WriteStep(p))), List(p));
      && (forall b :: b in pins ==> Home(g, b))
      && (!kind.Install? || p.phase.Recover? ==> pins' == pins)
      && (p.phase.Recover? ==> pins == [])
      && (kind.Install? && p.phase.Commit? ==>
            kind.k < |lh| && pins != [] && pins[0] == lh[kind.k] && pins[0] !in pins[1..] && pins' == pins[1..])
  {
    hide Apply, CommitWrites, RecoveryWrites, ApplyOne, SameHome, Means, LP.Covers, LP.Replay, LP.WholeOps;
    if p.phase.Commit? {
      var n, k, batch := |p.phase.batch|, p.phase.k, p.phase.batch;
      DistinctElements(batch);
      assert batch[0..] == batch;
      if n < k <= 2 * n {
        assert batch[k - n - 1..][1..] == batch[k - n..];
      }
    }
  }

  lemma LogIsNotHome(g: Geometry, kind: Kind, pins: seq<int>)
    requires ValidGeometry(g) && forall b :: b in pins ==> Home(g, b)
    requires kind.Header? || g.start + 1 + kind.k < g.start + g.size
    ensures !Home(g, LogBlock(g, kind)) && LogBlock(g, kind) !in pins
  {
  }

  /** A block write leaves commit or recovery under way. */
  lemma StillBusy(g: Geometry, p: LP.State)
    requires !p.phase.Running? && LP.Enabled(g, p, WriteStep(p))
    ensures !LP.Do(g, p, WriteStep(p)).phase.Running?
  {
  }

  lemma ToldShows(g: Geometry, c: BC.State, view: seq<Block>, b: nat)
    requires ViewTie(g, c, view) && Home(g, b) && c.touched == {}
    ensures b < |c.disk| == |view| && BC.View(c, b) == view[b]
  {
    assert ViewAt(c, view, b);
  }

  lemma TiedAt(g: Geometry, disk: seq<Block>, blocks: seq<Block>, b: nat)
    requires DiskTie(g, disk, blocks) && b < g.nblocks && b != g.start
    ensures b < |disk| && b < |blocks| && disk[b] == blocks[b]
  {
  }

  lemma HeaderPuts(g: Geometry, base: Image, p: LP.State, hb: Block)
    requires LP.Inv(g, base, p) && !p.phase.Running? && Writing(g, p) && NextKind(p).Header?
    ensures LP.Enabled(g, p, WriteStep(p)) && Puts(g, p, g.start, hb)
  {
    hide LP.Inv, Pinned, LP.PhaseWrites, NextKind, LP.Enabled, List;
    NextWrite(g, base, p);
    PinnedNext(g, base, p);
    LogIsNotHome(g, Header, Pinned(p));
  }

  lemma CopyPuts(g: Geometry, base: Image, p: LP.State)
    requires LP.Inv(g, base, p) && !p.phase.Running? && Writing(g, p) && NextKind(p).Copy?
    ensures p.phase.Commit? && Home(g, HomeBlock(p)) && HomeBlock(p) < |p.view| && LP.Enabled(g, p, WriteStep(p))
    ensures Puts(g, p, LogBlock(g, NextKind(p)), p.view[HomeBlock(p)])
  {
    hide LP.Inv, Pinned, LP.PhaseWrites, NextKind, LP.Enabled, List;
    NextWrite(g, base, p);
    PinnedNext(g, base, p);
    LogIsNotHome(g, NextKind(p), Pinned(p));
  }

  lemma InstallPuts(g: Geometry, base: Image, p: LP.State)
    requires LP.Inv(g, base, p) && !p.phase.Running? && Writing(g, p) && NextKind(p).Install?
    ensures LogBlock(g, NextKind(p)) < |p.disk.blocks| && LP.Enabled(g, p, WriteStep(p))
    ensures LogBlock(g, NextKind(p)) != g.start && LogBlock(g, NextKind(p)) !in Pinned(p)
    ensures Puts(g, p, HomeBlock(p), p.disk.blocks[LogBlock(g, NextKind(p))])
  {
    hide LP.Inv, Pinned, LP.PhaseWrites, NextKind, LP.Enabled, List;
    NextWrite(g, base, p);
    PinnedNext(g, base, p);
    LogIsNotHome(g, NextKind(p), Pinned(p));
  }

  lemma HeaderKeeps(g: Geometry, base: Image, s: State, hb: Block)
    requires Good(g, base, s) && s.pc.HaveLog? && !s.p.phase.Running? && Writing(g, s.p) && NextKind(s.p).Header?
    requires s.pc.i < |s.c.bufs| && s.c.bufs[s.pc.i].blockno < |s.c.disk| && LP.Enabled(g, s.p, WriteStep(s.p))
    ensures Good(g, base, State(Put(s.c, s.pc.i, hb), LP.Do(g, s.p, WriteStep(s.p)), PutOne(s.pc.i)))
  {
    hide LP.Inv, BC.Inv, DiskTie, ViewTie, PinsOk, TouchOk, Pinned, NextKind, Put, Puts, LP.Enabled, Writing;
    HeaderPuts(g, base, s.p, hb);
    PutStepKeeps(g, base, s, s.pc.i, hb, PutOne(s.pc.i));
  }

  lemma CopyKeeps(g: Geometry, base: Image, s: State)
    requires Good(g, base, s) && s.pc.HaveBoth? && !s.p.phase.Running? && Writing(g, s.p) && NextKind(s.p).Copy?
    requires s.pc.i < |s.c.bufs| && s.pc.j < |s.c.bufs| && s.c.bufs[s.pc.i].blockno < |s.c.disk|
    requires LP.Enabled(g, s.p, WriteStep(s.p))
    ensures Good(g, base, State(Put(s.c, s.pc.i, s.c.bufs[s.pc.j].data), LP.Do(g, s.p, WriteStep(s.p)),
                                PutBoth(s.pc.j, s.pc.i)))
  {
    hide LP.Inv, BC.Inv, DiskTie, ViewTie, PinsOk, Pinned, NextKind, Put, Puts, LP.Enabled, Writing, BC.View, HomeBlock,
         LogBlock, LP.Do, Untold;
    BothDiffer(g, base, s);
    OperationsRun(g, base, s.p);
    CopyPuts(g, base, s.p);
    HeldShows(g, s.c, s.pc.j, HomeBlock(s.p), Pinned(s.p));
    QuietTouch(g, s.c, s.p.ops);
    ToldShows(g, s.c, s.p.view, HomeBlock(s.p));
    PutStepKeeps(g, base, s, s.pc.i, s.c.bufs[s.pc.j].data, PutBoth(s.pc.j, s.pc.i));
  }

  lemma QuietTouch(g: Geometry, c: BC.State, ops: seq<LP.Op>)
    requires TouchOk(g, c, ops) && ops == []
    ensures c.touched == {}
  {
  }

  /** The log block's buffer and the home block's are two. */
  lemma BothDiffer(g: Geometry, base: Image, s: State)
    requires Good(g, base, s) && s.pc.HaveBoth? && !s.p.phase.Running?
    ensures s.pc.i != s.pc.j
  {
    NextWrite(g, base, s.p);
  }

  lemma InstallKeeps(g: Geometry, base: Image, s: State)
    requires Good(g, base, s) && s.pc.HaveBoth? && !s.p.phase.Running? && Writing(g, s.p) && NextKind(s.p).Install?
    requires s.pc.i < |s.c.bufs| && s.pc.j < |s.c.bufs| && s.c.bufs[s.pc.j].blockno < |s.c.disk|
    requires LP.Enabled(g, s.p, WriteStep(s.p))
    ensures Good(g, base, State(Put(s.c, s.pc.j, s.c.bufs[s.pc.i].data), LP.Do(g, s.p, WriteStep(s.p)),
                                PutBoth(s.pc.i, s.pc.j)))
  {
    hide LP.Inv, BC.Inv, DiskTie, ViewTie, PinsOk, TouchOk, Pinned, NextKind, Put, Puts, LP.Enabled, Writing, BC.View,
         HomeBlock, LogBlock, LP.Do;
    BothDiffer(g, base, s);
    InstallPuts(g, base, s.p);
    HeldShows(g, s.c, s.pc.i, LogBlock(g, NextKind(s.p)), Pinned(s.p));
    TiedDisk(g, s.c.disk, s.p.disk.blocks);
    TiedAt(g, s.c.disk, s.p.disk.blocks, LogBlock(g, NextKind(s.p)));
    PutStepKeeps(g, base, s, s.pc.j, s.c.bufs[s.pc.i].data, PutBoth(s.pc.i, s.pc.j));
  }

  lemma GoKeeps(g: Geometry, base: Image, s: State, got: BC.Got, hb: Block)
    requires Good(g, base, s) && Enabled(g, s, Go(got, hb))
    ensures Good(g, base, Do(g, s, Go(got, hb)))
  {
    hide Good, LP.PhaseWrites, BC.Do, NextKind, HomeBlock, LogBlock, Put, BC.Enabled, LP.Writing, LP.Recovering;
    GoodPc(g, base, s);
    HeldCanWrite(g, s);
    match s.pc
    case Ready =>
      if s.p.phase.k == |LP.PhaseWrites(g, s.p)| {
        FinishKeeps(g, base, s);
      } else {
        ReadLogKeeps(g, base, s, got);
      }
    case HaveLog(i) =>
      if NextKind(s.p).Header? {
        HeaderKeeps(g, base, s, hb);
      } else {
        ReadHomeKeeps(g, base, s, got);
      }
    case HaveBoth(i, j) =>
      if NextKind(s.p).Copy? {
        CopyKeeps(g, base, s);
      } else {
        InstallKeeps(g, base, s);
      }
    case PutBoth(i, j) => FreeOneKeeps(g, base, s);
    case PutOne(i) => FreeOneKeeps(g, base, s);
  }

  lemma HeldCanWrite(g: Geometry, s: State)
    requires !s.p.phase.Running?
    ensures Writing(g, s.p) ==> LP.Enabled(g, s.p, WriteStep(s.p))
    ensures forall i: nat :: BC.Enabled(s.c, BC.Write(i)) ==> i < |s.c.bufs| && s.c.bufs[i].blockno < |s.c.disk|
  {
  }

  lemma GoodPc(g: Geometry, base: Image, s: State)
    requires Good(g, base, s) && (LP.Writing(g, s.p) || LP.Recovering(g, s.p))
    ensures !s.p.phase.Running? && (s.pc.HaveBoth? ==> Writing(g, s.p) && !NextKind(s.p).Header?)
  {
  }

  lemma StepKeepsGood(g: Geometry, base: Image, s: State, step: Step)
    requires Good(g, base, s) && Enabled(g, s, step)
    ensures Good(g, base, Do(g, s, step))
  {
    hide Good, LP.Enabled, BC.Enabled, LP.Do, BC.Do, GoEnabled, Going, LP.PhaseWrites;
    match step
    case Begin(id) => BeginKeeps(g, base, s, id);
    case End(i) => EndKeeps(g, base, s, i);
    case Read(b, got) => ReadStepKeeps(g, base, s, b, got);
    case Change(j, v) => ChangeStepKeeps(g, base, s, j, v);
    case Log(j, i) => LogStepKeeps(g, base, s, j, i);
    case Release(j) => ReleaseStepKeeps(g, base, s, j);
    case Go(got, hb) => GoKeeps(g, base, s, got, hb);
    case Crash => CrashStepKeeps(g, base, s);
  }

  // ---------------------------------------------------------------- runs

  /** The steps of the protocol that a step of the code takes: one or none. */
  ghost function Projected(g: Geometry, s: State, step: Step): (r: seq<LP.Step>)
    requires Enabled(g, s, step)
  {
    match step
    case Begin(id) => [LP.Begin(id)]
    case End(i) => [LP.End(i)]
    case Log(j, i) => [LP.LogWrite(i, s.c.bufs[j].blockno, s.c.bufs[j].data)]
    case Go(_, _) =>
      if s.pc.Ready? && s.p.phase.k == |LP.PhaseWrites(g, s.p)| then
        [if s.p.phase.Commit? then LP.CommitDone else LP.Boot]
      else if s.pc.HaveBoth? || (s.pc.HaveLog? && NextKind(s.p).Header?) then [WriteStep(s.p)]
      else []
    case Crash => [LP.Crash]
    case _ => []
  }

  /** Each step of the code is its steps of the protocol. */
  lemma StepProjects(g: Geometry, s: State, step: Step)
    requires Enabled(g, s, step)
    ensures var ps := Projected(g, s, step);
      && |ps| <= 1
      && (ps == [] ==> Do(g, s, step).p == s.p)
      && (ps != [] ==> LP.Enabled(g, s.p, ps[0]) && Do(g, s, step).p == LP.Do(g, s.p, ps[0]))
  {
    hide LP.PhaseWrites, BC.Enabled, BC.Do, LP.Do, Put, LogBlock, HomeBlock, NextKind;
  }

  ghost predicate ValidRun(g: Geometry, s: State, steps: seq<Step>)
    decreases |steps|
  {
    steps == [] || (Enabled(g, s, steps[0]) && ValidRun(g, Do(g, s, steps[0]), steps[1..]))
  }

  ghost function Final(g: Geometry, s: State, steps: seq<Step>): State
    requires ValidRun(g, s, steps)
    decreases |steps|
  {
    if steps == [] then s else Final(g, Do(g, s, steps[0]), steps[1..])
  }

  /** A cold cache of n buffers over a new disk. */
  ghost function Init(n: nat, base: Image): State {
    State(BC.Init(n, base.blocks), LP.Init(base), Ready)
  }

  lemma InitGood(g: Geometry, n: nat, base: Image)
    requires LP.FreshDisk(g, base)
    ensures Good(g, base, Init(n, base))
  {
    LP.InitInv(g, base);
    InitQuiet(n, base.blocks);
    hide LP.Inv, BC.Inv, PinsOk;
  }

  /** Every run of the code keeps cache and protocol together, and is a run of the protocol. */
  lemma {:induction false} RunKeepsGood(g: Geometry, base: Image, before: seq<LP.Step>, s: State, steps: seq<Step>)
      returns (run: seq<LP.Step>)
    requires LP.ValidRun(g, LP.Init(base), before) && LP.Final(g, LP.Init(base), before) == s.p
    requires Good(g, base, s) && ValidRun(g, s, steps)
    ensures Good(g, base, Final(g, s, steps))
    ensures LP.ValidRun(g, LP.Init(base), run) && LP.Final(g, LP.Init(base), run) == Final(g, s, steps).p
    decreases |steps|
  {
    if steps == [] {
      run := before;
    } else {
      hide Good, Enabled, Do, LP.Enabled, LP.Do, Projected;
      var ps := Projected(g, s, steps[0]);
      StepKeepsGood(g, base, s, steps[0]);
      StepProjects(g, s, steps[0]);
      if ps == [] {
        run := RunKeepsGood(g, base, before, Do(g, s, steps[0]), steps[1..]);
      } else {
        LP.RunAppend(g, LP.Init(base), before, ps[0]);
        run := RunKeepsGood(g, base, before + [ps[0]], Do(g, s, steps[0]), steps[1..]);
      }
    }
  }

  /** Buffer i of block b is pinned: dirty, and so never recycled; while no one is changing it, it holds what was last
      logged. */
  ghost predicate PinnedAt(s: State, b: nat, i: nat) {
    && i < |s.c.bufs| && BC.Is(s.c.bufs[i], BC.DISK, b) && s.c.bufs[i].dirty && !BC.Recyclable(s.c.bufs[i])
    && b < |s.p.view| && (i !in s.c.touched ==> s.c.bufs[i].data == s.p.view[b])
  }

  /** The pin of log_write. In every run, by any number of processes, with crashes and recoveries: from its log_write to
      its install a block is cached in a dirty buffer, with its last logged contents unless an operation has changed it
      since, so that write_log's bread of it never goes to disk; and no other buffer is dirty. */
  lemma PinnedUntilInstalled(g: Geometry, n: nat, base: Image, steps: seq<Step>, b: int, got: BC.Got)
    requires LP.FreshDisk(g, base) && ValidRun(g, Init(n, base), steps)
    ensures var s := Final(g, Init(n, base), steps);
      && (forall i :: 0 <= i < |s.c.bufs| && s.c.bufs[i].dirty ==> s.c.bufs[i].blockno in Pinned(s.p))
      && (b in Pinned(s.p) ==>
            && 0 <= b && (exists i :: PinnedAt(s, b, i))
            && (BC.BgetFinds(s.c, BC.DISK, b, got) ==> got.Hit? || got.Wait?))
  {
    InitGood(g, n, base);
    var run := RunKeepsGood(g, base, [], Init(n, base), steps);
    var s := Final(g, Init(n, base), steps);
    forall i | 0 <= i < |s.c.bufs| && s.c.bufs[i].dirty
      ensures s.c.bufs[i].blockno in Pinned(s.p)
    {
      assert PinAt(s.c, Pinned(s.p), i);
    }
    if b in Pinned(s.p) {
      PinnedHas(g, base, s, b);
    }
  }

  lemma PinnedHas(g: Geometry, base: Image, s: State, b: int)
    requires Good(g, base, s) && b in Pinned(s.p)
    ensures 0 <= b && BC.Cached(s.c.bufs, BC.DISK, b) && PinnedAt(s, b, BC.Slot(s.c.bufs, BC.DISK, b))
  {
    var i := BC.Slot(s.c.bufs, BC.DISK, b);
    PinnedIsHome(g, base, s.p, b);
    assert PinAt(s.c, Pinned(s.p), i) && BC.BufOk(s.c, i) && ViewAt(s.c, s.p.view, b);
    forall j | 0 <= j < |s.c.bufs| && BC.Is(s.c.bufs[j], BC.DISK, b)
      ensures j == i
    {
      assert BC.BufOk(s.c, j);
    }
  }

  lemma PinnedIsHome(g: Geometry, base: Image, p: LP.State, b: int)
    requires LP.Inv(g, base, p) && b in Pinned(p)
    ensures Home(g, b) && !p.phase.Recover?
  {
  }

  /** The log and the cache together are the protocol: every run is one of its runs, with the same disk but for the
      bytes of the header block, and the same contents but for blocks changed and not logged yet. So group commit
      holds of it. */
  lemma CachedLogRefines(g: Geometry, n: nat, base: Image, steps: seq<Step>, crashes: seq<nat>)
      returns (run: seq<LP.Step>)
    requires LP.FreshDisk(g, base) && ValidRun(g, Init(n, base), steps)
    ensures LP.ValidRun(g, LP.Init(base), run)
    ensures var s := Final(g, Init(n, base), steps);
      && LP.Final(g, LP.Init(base), run) == s.p && DiskTie(g, s.c.disk, s.p.disk.blocks)
      && (!s.p.phase.Recover? ==> ViewTie(g, s.c, s.p.view))
      && (LP.Quiet(s.p) ==> forall b: nat {:trigger Home(g, b)} :: Home(g, b) ==> BC.View(s.c, b) == s.p.view[b])
      && LP.Typed(g, base, s.p) && LP.WholeOps(s.p) && GoodDisk(g, s.p.disk)
      && var d := CrashingRecoveries(g, s.p.disk, crashes);
         Settled(g, ApplyAll(d, RecoveryWrites(g, d)), LP.Replay(g, base.blocks, s.p.trace[..s.p.committed]))
  {
    InitGood(g, n, base);
    run := RunKeepsGood(g, base, [], Init(n, base), steps);
    LP.GroupCommit(g, base, run, crashes);
    var s := Final(g, Init(n, base), steps);
    hide LP.Inv, BC.Inv, PinsOk, PcOk, LP.ValidRun, LP.Final, ValidRun, Final, BC.View;
    if LP.Quiet(s.p) {
      QuietTouch(g, s.c, s.p.ops);
      forall b: nat | Home(g, b)
        ensures BC.View(s.c, b) == s.p.view[b]
      {
        ToldShows(g, s.c, s.p.view, b);
      }
    }
  }

  /** commit() and recover_from_log() wait for nothing but a buffer: once they hold what a write needs they go on. */
  lemma HoldersGoOn(g: Geometry, base: Image, s: State, got: BC.Got, hb: Block)
    requires Good(g, base, s) && !s.p.phase.Running?
    requires match s.pc
      case Ready => s.p.phase.Commit? && s.p.phase.batch == []
      case HaveLog(_) => NextKind(s.p).Header?
      case _ => true
    ensures Enabled(g, s, Go(got, hb))
  {
    hide LP.Inv, LP.PhaseWrites, LP.Writing, LP.Recovering, BC.Inv, BC.Enabled, NextKind, PinsOk, DiskTie, ViewTie;
    HeldIsBusy(g, s);
    PhaseRuns(g, base, s.p);
    forall i | i in Held(s.pc)
      ensures BC.Enabled(s.c, BC.Write(i)) && BC.Enabled(s.c, BC.Release(i))
    {
      HolderMayWrite(s.c, i);
    }
  }

  lemma HolderMayWrite(c: BC.State, i: nat)
    requires BC.Inv(c) && Holds(c, i)
    ensures BC.Enabled(c, BC.Write(i)) && BC.Enabled(c, BC.Release(i))
  {
    assert BC.BufOk(c, i);
  }

  lemma PhaseRuns(g: Geometry, base: Image, p: LP.State)
    requires LP.Inv(g, base, p) && !p.phase.Running?
    ensures (LP.Writing(g, p) || LP.Recovering(g, p)) && p.phase.k <= |LP.PhaseWrites(g, p)|
    ensures p.phase.Commit? && p.phase.batch == [] ==> |LP.PhaseWrites(g, p)| == 0
  {
  }
}
