/** xv6/log.c itself: the in-memory log and the loops that move blocks between the
    buffer cache, the log and the home blocks. The block writes each routine makes
    are exactly those that LogFormat proves crash-safe, and each routine is a step, or
    a row of steps, of the protocol of LogProtocol: an object of this class is always
    in a state that some run of the protocol reaches. */
module LogDevice {
  import opened Common
  import opened Disk
  import opened LogFormat
  import LP = LogProtocol

  datatype Outcome = Done | Sleep | TooBigTransaction | OutsideTransaction | Committing

  // ---------------------------------------------------------------- rows of protocol steps

  function Times(step: LP.Step, k: nat): (r: seq<LP.Step>)
    ensures |r| == k
  {
    seq(k, _ => step)
  }

  /** The run, its last state, and a disk that was fresh when it began. */
  ghost predicate Reaches(g: Geometry, origin: Image, run: seq<LP.Step>, s: LP.State) {
    LP.FreshDisk(g, origin) && LP.ValidRun(g, LP.Init(origin), run) && LP.Final(g, LP.Init(origin), run) == s
  }

  lemma ReachesInv(g: Geometry, origin: Image, run: seq<LP.Step>, s: LP.State)
    requires Reaches(g, origin, run, s)
    ensures GoodDisk(g, s.disk) && LP.Enabled(g, s, LP.Crash) && Loggable(g, s.lh) && |s.view| == g.nblocks
    ensures s.ops != [] ==> s.phase.Running?
    ensures s.phase.Recover? ==> LP.Recovering(g, s) && s.lh == []
    ensures s.phase.Commit? ==> LP.Writing(g, s) && (s.phase.k == |LP.PhaseWrites(g, s)| ==> s.lh == [])
  {
    LP.InitInv(g, origin);
    LP.RunKeepsInv(g, origin, LP.Init(origin), run);
    LP.GroupCommit(g, origin, run, []);
  }

  lemma ReachesNext(g: Geometry, origin: Image, run: seq<LP.Step>, s: LP.State, step: LP.Step)
    requires Reaches(g, origin, run, s) && LP.Enabled(g, s, step)
    ensures Reaches(g, origin, run + [step], LP.Do(g, s, step))
  {
    LP.RunAppend(g, LP.Init(origin), run, step);
  }

  /** The state after j block writes of commit(). */
  ghost function AfterWrites(g: Geometry, s: LP.State, j: nat): (r: LP.State)
    requires LP.Writing(g, s) && s.phase.k == 0 && j <= |LP.PhaseWrites(g, s)|
  {
    var ws := LP.PhaseWrites(g, s);
    s.(disk := Apply(s.phase.from, ws, j),
       phase := LP.Commit(s.phase.from, s.phase.batch, j),
       lh := if j == |ws| && j > 0 then [] else s.lh,
       committed := if j > |s.phase.batch| then |s.trace| else s.committed)
  }

  lemma OneWrite(g: Geometry, s: LP.State, j: nat)
    requires LP.Writing(g, s) && s.phase.k == 0 && 0 < j <= |LP.PhaseWrites(g, s)|
    ensures var t := AfterWrites(g, s, j - 1);
      LP.Enabled(g, t, LP.CommitWrite) && LP.Do(g, t, LP.CommitWrite) == AfterWrites(g, s, j)
  {
    hide CommitWrites, RecoveryWrites, Loggable, GoodDisk, Apply, ApplyOne;
    var t := AfterWrites(g, s, j - 1);
    assert LP.PhaseWrites(g, t) == LP.PhaseWrites(g, s);
    ApplyNext(s.phase.from, LP.PhaseWrites(g, s), j);
    BatchWrites(g, s);
  }

  lemma NoWrites(g: Geometry, s: LP.State)
    requires LP.Writing(g, s) && s.phase.k == 0 && s.phase.from == s.disk
    ensures AfterWrites(g, s, 0) == s
  {
  }

  lemma BatchWrites(g: Geometry, s: LP.State)
    requires LP.Writing(g, s)
    ensures |LP.PhaseWrites(g, s)| == if s.phase.batch == [] then 0 else 2 * |s.phase.batch| + 2
  {
  }

  lemma ApplyNext(d: Image, ws: seq<Write>, j: nat)
    requires InRange(|d.blocks|, ws) && 0 < j <= |ws|
    ensures Apply(d, ws, j) == ApplyOne(Apply(d, ws, j - 1), ws[j - 1]) && |Apply(d, ws, j).blocks| == |d.blocks|
    ensures |Apply(d, ws, j - 1).blocks| == |d.blocks|
  {
  }

  lemma {:induction false} CommitRun(g: Geometry, origin: Image, run: seq<LP.Step>, s: LP.State, j: nat)
    requires Reaches(g, origin, run, s) && LP.Writing(g, s) && s.phase.k == 0 && s.phase.from == s.disk
    requires j <= |LP.PhaseWrites(g, s)|
    ensures Reaches(g, origin, run + Times(LP.CommitWrite, j), AfterWrites(g, s, j))
  {
    hide LP.Do, LP.Enabled, AfterWrites, Reaches, LP.PhaseWrites, CommitWrites, Loggable;
    if j == 0 {
      assert run + Times(LP.CommitWrite, 0) == run;
      NoWrites(g, s);
    } else {
      CommitRun(g, origin, run, s, j - 1);
      var t := AfterWrites(g, s, j - 1);
      OneWrite(g, s, j);
      ReachesNext(g, origin, run + Times(LP.CommitWrite, j - 1), t, LP.CommitWrite);
      assert run + Times(LP.CommitWrite, j - 1) + [LP.CommitWrite] == run + Times(LP.CommitWrite, j);
    }
  }

  /** The state after j block writes of recover_from_log(). */
  ghost function AfterRecovering(g: Geometry, s: LP.State, j: nat): (r: LP.State)
    requires LP.Recovering(g, s) && j <= |LP.PhaseWrites(g, s)|
  {
    s.(disk := Apply(s.phase.from, LP.PhaseWrites(g, s), j), phase := LP.Recover(s.phase.from, j))
  }

  lemma {:induction false} RecoveryRun(g: Geometry, origin: Image, run: seq<LP.Step>, s: LP.State, j: nat)
    requires Reaches(g, origin, run, s) && LP.Recovering(g, s) && s.phase.k == 0 && s.phase.from == s.disk
    requires j <= |LP.PhaseWrites(g, s)|
    ensures Reaches(g, origin, run + Times(LP.RecoveryWrite, j), AfterRecovering(g, s, j))
  {
    if j == 0 {
      assert run + Times(LP.RecoveryWrite, 0) == run;
    } else {
      RecoveryRun(g, origin, run, s, j - 1);
      var t := AfterRecovering(g, s, j - 1);
      assert LP.PhaseWrites(g, t) == LP.PhaseWrites(g, s);
      ReachesNext(g, origin, run + Times(LP.RecoveryWrite, j - 1), t, LP.RecoveryWrite);
      assert run + Times(LP.RecoveryWrite, j - 1) + [LP.RecoveryWrite] == run + Times(LP.RecoveryWrite, j);
    }
  }

  /** Only the home blocks of the view are logged. */
  lemma SameLogWrites(g: Geometry, lh: seq<int>, view: seq<Block>, cache: seq<Block>)
    requires Loggable(g, lh) && |view| == |cache| == g.nblocks && SameHome(g, cache, view)
    ensures LogWrites(g, lh, view) == LogWrites(g, lh, cache)
  {
    forall i | 0 <= i < |lh|
      ensures view[lh[i]] == cache[lh[i]]
    {
      assert Home(g, lh[i]);
    }
  }

  lemma SameCommitWrites(g: Geometry, d: Image, lh: seq<int>, view: seq<Block>, cache: seq<Block>)
    requires Loggable(g, lh) && |view| == |cache| == |d.blocks| == g.nblocks && SameHome(g, cache, view)
    ensures CommitWrites(g, d, lh, view) == CommitWrites(g, d, lh, cache)
  {
    SameLogWrites(g, lh, view, cache);
  }

  lemma LogWriteAt(g: Geometry, lh: seq<int>, view: seq<Block>, i: nat)
    requires Loggable(g, lh) && |view| == g.nblocks && i < |lh|
    ensures Home(g, lh[i]) && LogWrites(g, lh, view)[i] == Data(g.start + i + 1, view[lh[i]])
  {
    assert Home(g, lh[i]);
  }

  lemma InstallWriteAt(g: Geometry, lh: seq<int>, d: seq<Block>, i: nat)
    requires Loggable(g, lh) && |d| == g.nblocks && i < |lh|
    ensures lh[i] >= 0 && InstallWrites(g, lh, d)[i] == Data(lh[i], d[g.start + i + 1])
  {
    assert Home(g, lh[i]);
  }

  /** The cache after the first k installs: an installed home block is the disk's, the others are as before; a cache
      that showed the disk still does. */
  ghost predicate Installed(g: Geometry, lh: seq<int>, k: nat, before: seq<Block>, cache: seq<Block>,
                            blocks: seq<Block>) {
    && |before| == |cache| == |blocks| == g.nblocks && k <= |lh|
    && forall b {:trigger Home(g, b)} :: Home(g, b) ==> cache[b] == if b in lh[..k] then blocks[b] else before[b]
  }

  lemma SameHomeAt(g: Geometry, c: seq<Block>, d: seq<Block>, b: int)
    requires SameHome(g, c, d) && Home(g, b)
    ensures 0 <= b < |c| && b < |d| && c[b] == d[b]
  {
  }

  lemma SameHomeTwice(g: Geometry, c: seq<Block>, d: seq<Block>, e: seq<Block>)
    requires SameHome(g, c, d) && SameHome(g, d, e)
    ensures SameHome(g, c, e)
  {
  }

  /** Two block arrays agree on the log. */
  ghost predicate SameLog(g: Geometry, c: seq<Block>, d: seq<Block>) {
    && |c| == |d| && g.start + g.size <= |c|
    && forall b {:trigger c[b]} :: g.start <= b < g.start + g.size ==> c[b] == d[b]
  }

  lemma SameLogAt(g: Geometry, c: seq<Block>, d: seq<Block>, b: int)
    requires SameLog(g, c, d) && g.start <= b < g.start + g.size
    ensures c[b] == d[b]
  {
  }

  lemma SameLogTwice(g: Geometry, c: seq<Block>, d: seq<Block>, e: seq<Block>)
    requires SameLog(g, c, d) && SameLog(g, d, e)
    ensures SameLog(g, c, e)
  {
  }

  lemma TakeOneMore(before: seq<Write>, ws: seq<Write>, k: nat)
    requires k < |ws|
    ensures before + ws[..k] + [ws[k]] == before + ws[..k + 1]
  {
  }

  lemma CommitWritesIs(g: Geometry, d: Image, lh: seq<int>, view: seq<Block>, e: Image, before: seq<Write>)
    requires Loggable(g, lh) && |view| == |d.blocks| == g.nblocks && lh != [] && e == Committed(g, d, lh, view)
    ensures before + (LogWrites(g, lh, view) + [Head(lh)]) + RecoveryWrites(g, e)
      == before + CommitWrites(g, d, lh, view)
  {
    hide LogWrites, RecoveryWrites, Committed;
  }

  lemma InstalledShows(g: Geometry, lh: seq<int>, first: seq<Block>, before: seq<Block>, cache: seq<Block>,
                       blocks: seq<Block>)
    requires SameHome(g, before, first) && Installed(g, lh, |lh|, before, cache, blocks)
    ensures forall b {:trigger Home(g, b)} :: Home(g, b) ==> cache[b] == if b in lh then blocks[b] else first[b]
  {
    assert lh[..|lh|] == lh;
  }

  lemma InstalledNone(g: Geometry, lh: seq<int>, cache: seq<Block>, blocks: seq<Block>)
    requires |cache| == |blocks| == g.nblocks
    ensures Installed(g, lh, 0, cache, cache, blocks)
  {
  }

  lemma InstalledNext(g: Geometry, lh: seq<int>, k: nat, before: seq<Block>, cache: seq<Block>, blocks: seq<Block>,
                      b: nat, v: Block)
    requires Installed(g, lh, k, before, cache, blocks) && k < |lh| && b == lh[k] && b < g.nblocks
    ensures Installed(g, lh, k + 1, before, cache[b := v], blocks[b := v])
  {
    assert lh[..k + 1] == lh[..k] + [lh[k]];
  }

  // ---------------------------------------------------------------- the log

  class Log {
    const g: Geometry
    var n: nat               // log.lh.n
    var block: seq<int>      // log.lh.block
    var outstanding: int
    var committing: bool
    var disk: Image
    var cache: seq<Block>    // what bread returns for each block
    ghost var base: Image         // the disk at boot
    ghost var writes: seq<Write>  // every bwrite since
    ghost var origin: Image       // the disk as it was made
    ghost var run: seq<LP.Step>   // everything that happened to it since, over all boots
    ghost var st: LP.State        // where that leads

    ghost function Lh(): (lh: seq<int>)
      reads this
      requires n <= |block|
    {
      block[..n]
    }

    /** Buffers of log blocks are written through, so cache and disk agree on the log. */
    ghost predicate DeviceOk()
      reads this
    {
      && ValidGeometry(g) && |disk.blocks| == |cache| == |base.blocks| == g.nblocks
      && |block| == LOGSIZE && n <= LOGSIZE && Loggable(g, Lh())
      && SameLog(g, cache, disk.blocks)
      && InRange(g.nblocks, writes) && disk == ApplyAll(base, writes)
    }

    /** The fields are those of the protocol's state. */
    ghost predicate Valid()
      reads this
    {
      && DeviceOk() && Reaches(g, origin, run, st)
      && disk == st.disk && Lh() == st.lh && outstanding == |st.ops| && (committing <==> st.phase.Commit?)
      && |st.view| == g.nblocks
      && match st.phase
         case Running => SameHome(g, cache, st.view)
         case Commit(from, batch, k) =>
           && LP.Writing(g, st) && SameHome(g, cache, st.view)
           && (k == 0 ==> from == disk && batch == st.lh)
           && (k == 0 || k == |LP.PhaseWrites(g, st)|)
         case Recover(from, k) => k == 0 && from == disk && cache == disk.blocks
    }

    /** initlog up to recovery, on the disk that any run has left: a crash, and a cold cache that shows the disk. */
    constructor (g: Geometry, disk: Image, ghost origin: Image, ghost before: seq<LP.Step>, ghost s: LP.State)
      requires Reaches(g, origin, before, s) && disk == s.disk
      ensures Valid() && Lh() == [] && outstanding == 0 && !committing
      ensures this.g == g && this.disk == disk && this.origin == origin && run == before + [LP.Crash]
      ensures LP.Enabled(g, s, LP.Crash) && st == LP.Do(g, s, LP.Crash)
    {
      ReachesInv(g, origin, before, s);
      ReachesNext(g, origin, before, s, LP.Crash);
      this.g, n, outstanding, committing := g, 0, 0, false;
      block := seq(LOGSIZE, _ => 0);
      this.disk, cache, base, writes := disk, disk.blocks, disk, [];
      this.origin, run, st := origin, before + [LP.Crash], LP.Do(g, s, LP.Crash);
    }

    /** bwrite of a buffer: the header of the log, or block b. */
    method Bwrite(w: Write)
      requires DeviceOk() && (w.Data? ==> w.b < g.nblocks)
      modifies this`disk, this`cache, this`writes
      ensures DeviceOk()
      ensures disk == ApplyOne(old(disk), w) && writes == old(writes) + [w]
      ensures cache == if w.Data? then old(cache)[w.b := w.v] else old(cache)
    {
      ApplyConcat(base, writes, [w], 1, |writes + [w]|);
      disk, writes := ApplyOne(disk, w), writes + [w];
      if w.Data? { cache := cache[w.b := w.v]; }
    }

    /** One pass of write_log's loop. */
    method LogBlock(tail: nat)
      requires DeviceOk() && tail < n
      modifies this`disk, this`cache, this`writes
      ensures DeviceOk() && SameHome(g, cache, old(cache)) && 0 <= block[tail] < g.nblocks
      ensures writes == old(writes) + [Data(g.start + tail + 1, old(cache)[block[tail]])]
    {
      assert Home(g, Lh()[tail]);
      Bwrite(Data(g.start + tail + 1, cache[block[tail]]));
    }

    method WriteLog()
      requires DeviceOk()
      modifies this`disk, this`cache, this`writes
      ensures DeviceOk() && SameHome(g, cache, old(cache))
      ensures writes == old(writes) + LogWrites(g, Lh(), old(cache))
    {
      ghost var ws := LogWrites(g, Lh(), cache);
      assert SameHome(g, cache, old(cache));
      hide LogWrites, SameHome, SameLog, Loggable, InRange, ApplyAll;
      var tail := 0;
      while tail < n
        invariant DeviceOk() && tail <= n
        invariant writes == old(writes) + ws[..tail]
        invariant SameHome(g, cache, old(cache))
      {
        LogWriteAt(g, Lh(), old(cache), tail);
        SameHomeAt(g, cache, old(cache), block[tail]);
        ghost var mid := cache;
        LogBlock(tail);
        SameHomeTwice(g, cache, mid, old(cache));
        assert ws[..tail + 1] == ws[..tail] + [ws[tail]];
        tail := tail + 1;
      }
      assert ws[..n] == ws;
    }

    method WriteHead()
      requires DeviceOk()
      modifies this`disk, this`cache, this`writes
      ensures DeviceOk() && disk == old(disk).(head := Lh()) && cache == old(cache)
      ensures writes == old(writes) + [Head(Lh())]
    {
      var hb := [];
      var i := 0;
      while i < n
        invariant i <= n && hb == block[..i]
      {
        hb := hb + [block[i]];
        i := i + 1;
      }
      Bwrite(Head(hb));
    }

    /** Entries of the header on disk into memory. */
    method ReadHead()
      requires DeviceOk() && GoodDisk(g, disk)
      modifies this`n, this`block
      ensures DeviceOk() && Lh() == disk.head
    {
      var lh := disk.head;
      var i := 0;
      n := 0;
      while i < |lh|
        invariant 0 <= i <= |lh| && |block| == LOGSIZE
        invariant forall j :: 0 <= j < i ==> block[j] == lh[j]
      {
        block := block[i := lh[i]];
        i := i + 1;
      }
      n := i;
      assert block[..n] == lh;
    }

    /** One pass of install_trans's loop. */
    method InstallBlock(tail: nat)
      requires DeviceOk() && tail < n
      modifies this`disk, this`cache, this`writes
      ensures DeviceOk() && 0 <= block[tail] < g.nblocks && SameLog(g, cache, old(cache))
      ensures var b, v := block[tail], old(cache)[g.start + tail + 1];
        writes == old(writes) + [Data(b, v)] && cache == old(cache)[b := v] && disk.blocks == old(disk).blocks[b := v]
    {
      assert Home(g, Lh()[tail]);
      Bwrite(Data(block[tail], cache[g.start + tail + 1]));
    }

    /** Where install_trans stands after tail passes, from a cache and a disk as given. */
    ghost predicate Installing(tail: nat, before: seq<Write>, was: seq<Block>, logged: seq<Block>)
      reads this
      requires DeviceOk() && |logged| == g.nblocks
    {
      && tail <= n && writes == before + InstallWrites(g, Lh(), logged)[..tail]
      && SameLog(g, cache, logged) && Installed(g, Lh(), tail, was, cache, disk.blocks)
    }

    method InstallNext(tail: nat, ghost before: seq<Write>, ghost was: seq<Block>, ghost logged: seq<Block>)
      requires DeviceOk() && |logged| == g.nblocks && tail < n && Installing(tail, before, was, logged)
      modifies this`disk, this`cache, this`writes
      ensures DeviceOk() && Installing(tail + 1, before, was, logged)
    {
      assert tail + 1 < g.size;
      hide Installed, SameLog, Loggable, InRange, ApplyAll, InstallWrites;
      ghost var ws, c, d := InstallWrites(g, Lh(), logged), cache, disk.blocks;
      InstallWriteAt(g, Lh(), logged, tail);
      SameLogAt(g, cache, logged, g.start + tail + 1);
      InstallBlock(tail);
      SameLogTwice(g, cache, c, logged);
      InstalledNext(g, Lh(), tail, was, c, d, block[tail], c[g.start + tail + 1]);
      TakeOneMore(before, ws, tail);
    }

    method InstallTrans()
      requires DeviceOk()
      modifies this`disk, this`cache, this`writes
      ensures DeviceOk()
      ensures writes == old(writes) + InstallWrites(g, Lh(), old(disk).blocks)
      ensures Installed(g, Lh(), n, old(cache), cache, disk.blocks)
    {
      ghost var before, was, logged := writes, cache, disk.blocks;
      InstalledNone(g, Lh(), cache, disk.blocks);
      assert Installing(0, before, was, logged);
      var tail := 0;
      while tail < n
        invariant DeviceOk() && tail <= n && Installing(tail, before, was, logged)
      {
        InstallNext(tail, before, was, logged);
        tail := tail + 1;
      }
      assert InstallWrites(g, Lh(), logged)[..n] == InstallWrites(g, Lh(), logged);
    }

    /** The disk after more writes. */
    lemma DiskAfter(before: seq<Write>, ws: seq<Write>)
      requires DeviceOk() && writes == before + ws
      ensures InRange(g.nblocks, before) && InRange(g.nblocks, ws)
      ensures disk == ApplyAll(ApplyAll(base, before), ws)
    {
      assert forall i :: 0 <= i < |before| ==> before[i] == writes[i];
      assert forall i :: 0 <= i < |ws| ==> ws[i] == writes[|before| + i];
      ApplyConcat(base, before, ws, |ws|, |writes|);
    }

    /** The common end of commit() and recover_from_log(). */
    method InstallAndClear()
      requires DeviceOk() && GoodDisk(g, disk) && Lh() == disk.head
      modifies this`n, this`disk, this`cache, this`writes
      ensures DeviceOk() && Lh() == []
      ensures writes == old(writes) + RecoveryWrites(g, old(disk))
      ensures Installed(g, old(disk).head, |old(disk).head|, old(cache), cache, disk.blocks)
    {
      InstallTrans();
      n := 0;
      WriteHead();
    }

    /** commit() up to its commit point. */
    method WriteLogAndHead()
      requires DeviceOk() && n > 0
      modifies this`disk, this`cache, this`writes
      ensures DeviceOk() && SameHome(g, cache, old(cache)) && disk == Committed(g, old(disk), Lh(), old(cache))
      ensures writes == old(writes) + (LogWrites(g, Lh(), old(cache)) + [Head(Lh())])
    {
      WriteLog();
      DiskAfter(old(writes), LogWrites(g, Lh(), old(cache)));
      WriteHead();
    }

    /** The writes of commit(), without the bookkeeping. */
    method CommitBlocks()
      requires DeviceOk()
      modifies this`n, this`disk, this`cache, this`writes
      ensures DeviceOk() && Lh() == []
      ensures writes == old(writes) + CommitWrites(g, old(disk), old(Lh()), old(cache))
      ensures forall b {:trigger Home(g, b)} :: Home(g, b) ==>
        cache[b] == if b in old(Lh()) then disk.blocks[b] else old(cache)[b]
    {
      if n > 0 {
        hide LogWrites, Loggable, Installed, SameHome, InRange, ApplyAll, SameLog;
        WriteLogAndHead();
        ghost var mid, e := cache, disk;
        InstallAndClear();
        CommitWritesIs(g, old(disk), old(Lh()), old(cache), e, old(writes));
        InstalledShows(g, old(Lh()), old(cache), mid, cache, disk.blocks);
      }
    }

    /** commit(): its block writes are those of CommitWrites, in that order, each a step of the protocol. */
    method Commit()
      requires Valid() && st.phase.Commit? && st.phase.k == 0
      modifies this`n, this`disk, this`cache, this`writes, this`run, this`st
      ensures Valid() && Lh() == []
      ensures writes == old(writes) + CommitWrites(g, old(disk), old(Lh()), old(cache))
      ensures run == old(run) + Times(LP.CommitWrite, |CommitWrites(g, old(disk), old(Lh()), old(cache))|)
      ensures st.phase.Commit? && LP.Writing(g, st) && st.phase.k == |LP.PhaseWrites(g, st)|
    {
      ghost var s, d, lh, before := st, disk, Lh(), writes;
      ghost var ws := CommitWrites(g, d, lh, cache);
      ReachesInv(g, origin, run, s);
      SameCommitWrites(g, d, lh, s.view, cache);
      CommitRun(g, origin, run, s, |ws|);
      CommitBlocks();
      DiskAfter(before, ws);
      CommitShows(g, d, lh, s.view, old(cache), cache, disk);
      run, st := run + Times(LP.CommitWrite, |ws|), AfterWrites(g, s, |ws|);
    }

    /** end_op after commit(): others may begin. */
    method CommitDone()
      requires Valid() && st.phase.Commit? && LP.Writing(g, st) && st.phase.k == |LP.PhaseWrites(g, st)|
      modifies this`committing, this`run, this`st
      ensures Valid() && LP.Enabled(g, old(st), LP.CommitDone) && st == LP.Do(g, old(st), LP.CommitDone)
      ensures run == old(run) + [LP.CommitDone]
    {
      ReachesInv(g, origin, run, st);
      ReachesNext(g, origin, run, st, LP.CommitDone);
      committing := false;
      run, st := run + [LP.CommitDone], LP.Do(g, st, LP.CommitDone);
    }

    /** recover_from_log(): its block writes are those of RecoveryWrites; then the file system is up. */
    method RecoverFromLog()
      requires Valid() && st.phase.Recover?
      modifies this`n, this`disk, this`cache, this`writes, this`block, this`run, this`st
      ensures Valid() && Lh() == [] && st.phase.Running? && GoodDisk(g, old(disk))
      ensures writes == old(writes) + RecoveryWrites(g, old(disk))
      ensures run == old(run) + Times(LP.RecoveryWrite, |RecoveryWrites(g, old(disk))|) + [LP.Boot]
    {
      hide Loggable, InRange, SameLog, Installed, Reaches;
      ghost var s, d, before := st, disk, writes;
      ReachesInv(g, origin, run, s);
      ghost var ws := RecoveryWrites(g, d);
      RecoveryRun(g, origin, run, s, |ws|);
      ReadHead();
      InstallAndClear();
      DiskAfter(before, ws);
      RecoveryShows(g, d, cache, disk);
      ghost var t := AfterRecovering(g, s, |ws|);
      ReachesNext(g, origin, run + Times(LP.RecoveryWrite, |ws|), t, LP.Boot);
      run, st := run + Times(LP.RecoveryWrite, |ws|) + [LP.Boot], LP.Do(g, t, LP.Boot);
    }

    /** One pass of begin_op's loop: the protocol's Begin step, taken exactly when the reservation lets one more in. */
    method BeginOp(ghost id: nat) returns (r: Outcome)
      requires Valid() && !st.phase.Recover? && LP.FreshOp(st, id)
      modifies this`outstanding, this`run, this`st
      ensures Valid() && (r == Done || r == Sleep) && (r == Done <==> LP.MayBegin(old(st)))
      ensures r == Done ==> LP.Enabled(g, old(st), LP.Begin(id)) && st == LP.Do(g, old(st), LP.Begin(id))
      ensures r == Done ==> run == old(run) + [LP.Begin(id)]
      ensures r == Sleep ==> unchanged(this)
    {
      ReachesInv(g, origin, run, st);
      if committing {
        r := Sleep;
      } else if n + (outstanding + 1) * MAXOPBLOCKS > LOGSIZE {
        r := Sleep;
      } else {
        ReachesNext(g, origin, run, st, LP.Begin(id));
        outstanding := outstanding + 1;
        run, st := run + [LP.Begin(id)], LP.Do(g, st, LP.Begin(id));
        r := Done;
      }
    }

    /** end_op up to the release of the lock, by operation i: the protocol's End step. The last one out goes on to
        commit; the panic never fires. */
    method EndOp(ghost i: nat) returns (r: Outcome, last: bool)
      requires Valid() && i < |st.ops|
      modifies this`outstanding, this`committing, this`run, this`st
      ensures Valid() && r == Done && (last <==> st.phase.Commit?)
      ensures LP.Enabled(g, old(st), LP.End(i)) && st == LP.Do(g, old(st), LP.End(i)) && run == old(run) + [LP.End(i)]
      ensures last ==> st.phase.k == 0
    {
      ReachesInv(g, origin, run, st);
      outstanding := outstanding - 1;
      if committing {
        return Committing, false;
      }
      ReachesNext(g, origin, run, st, LP.End(i));
      last := outstanding == 0;
      if last { committing := true; }
      run, st := run + [LP.End(i)], LP.Do(g, st, LP.End(i));
      r := Done;
    }

    /** log_write's scan: the block is recorded once. */
    method Record(b: nat)
      requires DeviceOk() && Home(g, b) && n < LOGSIZE && n < g.size - 1
      modifies this`n, this`block
      ensures DeviceOk() && Lh() == if b in old(Lh()) then old(Lh()) else old(Lh()) + [b]
    {
      ghost var lh := Lh();
      var k := 0;
      while k < n
        invariant k <= n && b !in block[..k]
      {
        if block[k] == b { break; }
        k := k + 1;
      }
      block := block[k := b];
      if k == n {
        DistinctAppend(lh, b);
        n := n + 1;
        assert Lh() == lh + [b];
      } else {
        assert b == lh[k];
        assert Lh() == lh;
      }
    }

    /** A change of a home block in its buffer. */
    method SetBuffer(b: nat, v: Block)
      requires DeviceOk() && Home(g, b)
      modifies this`cache
      ensures DeviceOk() && cache == old(cache)[b := v]
    {
      cache := cache[b := v];
    }

    /** A caller's change of home block b to v and its log_write, by operation i: the protocol's LogWrite step,
        unless the log is full or no operation is under way. */
    method LogWrite(ghost i: nat, b: nat, v: Block) returns (r: Outcome)
      requires Valid() && Home(g, b) && (st.ops != [] ==> i < |st.ops|)
      modifies this`n, this`block, this`cache, this`run, this`st
      ensures r == if LP.TooBig(g, old(st)) then TooBigTransaction
                   else if old(st).ops == [] then OutsideTransaction else Done
      ensures r == Done ==>
        && Valid() && cache == old(cache)[b := v] && LP.Enabled(g, old(st), LP.LogWrite(i, b, v))
        && st == LP.Do(g, old(st), LP.LogWrite(i, b, v)) && run == old(run) + [LP.LogWrite(i, b, v)]
    {
      hide Reaches, Loggable, InRange, ApplyAll, SameLog;
      ReachesInv(g, origin, run, st);
      SetBuffer(b, v);
      if n >= LOGSIZE || n >= g.size - 1 { return TooBigTransaction; }
      if outstanding < 1 { return OutsideTransaction; }
      Record(b);
      ReachesNext(g, origin, run, st, LP.LogWrite(i, b, v));
      run, st := run + [LP.LogWrite(i, b, v)], LP.Do(g, st, LP.LogWrite(i, b, v));
      r := Done;
    }

    /** Whatever this object has done so far: crash, let recoveries crash too, then recover. The disk shows the
        loggings of whole operations that ended, all of them when none is under way. */
    lemma Recovers(crashes: seq<nat>)
      requires Valid()
      ensures LP.WholeOps(st) && GoodDisk(g, disk) && LP.Typed(g, origin, st)
      ensures st.phase.Running? && outstanding == 0 ==> st.committed == |st.trace|
      ensures var d := CrashingRecoveries(g, disk, crashes);
        Settled(g, ApplyAll(d, RecoveryWrites(g, d)), LP.Replay(g, origin.blocks, st.trace[..st.committed]))
    {
      LP.GroupCommit(g, origin, run, crashes);
    }
  }

  /** After commit the cache shows what it showed. */
  lemma CommitShows(g: Geometry, d: Image, lh: seq<int>, view: seq<Block>, before: seq<Block>, cache: seq<Block>,
                    e: Image)
    requires Loggable(g, lh) && |view| == |d.blocks| == |before| == |cache| == |e.blocks| == g.nblocks
    requires SameHome(g, before, view) && e == ApplyAll(d, CommitWrites(g, d, lh, view))
    requires forall b {:trigger Home(g, b)} :: Home(g, b) ==> cache[b] == if b in lh then e.blocks[b] else before[b]
    ensures SameHome(g, cache, view)
  {
    if lh != [] {
      CommitFromHeader(g, d, lh, view, |CommitWrites(g, d, lh, view)|);
    }
  }

  /** After recovery a cache that was cold shows the disk. */
  lemma RecoveryShows(g: Geometry, d: Image, cache: seq<Block>, e: Image)
    requires GoodDisk(g, d) && |cache| == |e.blocks| == g.nblocks && e == ApplyAll(d, RecoveryWrites(g, d))
    requires Installed(g, d.head, |d.head|, d.blocks, cache, e.blocks)
    ensures SameHome(g, cache, e.blocks)
  {
    var ins := InstallWrites(g, d.head, d.blocks);
    assert d.head[..|d.head|] == d.head;
    ApplyPrefix(d, RecoveryWrites(g, d), ins, |ins|);
    forall b: nat | Home(g, b) && b !in d.head
      ensures e.blocks[b] == d.blocks[b]
    {
      AfterInstalls(g, d, d.head, |ins|, b);
    }
  }
}
