/** The redo log on disk: a header block naming home blocks, followed by one
    log block per entry (xv6/log.c). Crash atomicity of commit and recovery. */
module LogFormat {
  import opened Common
  import opened Disk

  /** Where the log lives: `size` blocks from `start`, on a disk of `nblocks`. */
  datatype Geometry = Geometry(start: nat, size: nat, nblocks: nat)

  predicate ValidGeometry(g: Geometry) {
    g.size >= 1 && g.start + g.size <= g.nblocks
  }

  predicate Home(g: Geometry, b: int) {
    0 <= b < g.nblocks && !(g.start <= b < g.start + g.size)
  }

  /** Two block arrays agree outside the log. */
  ghost predicate SameHome(g: Geometry, d: seq<Block>, e: seq<Block>) {
    && |d| == |e| == g.nblocks
    && forall b {:trigger Home(g, b)} :: Home(g, b) ==> d[b] == e[b]
  }

  /** Position of `b` in `s`. */
  ghost function Find(s: seq<int>, b: int): (i: nat)
    requires b in s
    ensures i < |s| && s[i] == b
  {
    var i :| 0 <= i < |s| && s[i] == b;
    i
  }

  /** Every element is found at its own position: none occurs twice. */
  ghost predicate Distinct(s: seq<int>) {
    forall i :: 0 <= i < |s| ==> Find(s, s[i]) == i
  }

  lemma DistinctElements(s: seq<int>)
    ensures Distinct(s) <==> forall i, j :: 0 <= i < j < |s| ==> s[i] != s[j]
  {
    if Distinct(s) {
      forall i, j | 0 <= i < j < |s|
        ensures s[i] != s[j]
      {
        assert Find(s, s[i]) == i && Find(s, s[j]) == j;
      }
    }
  }

  lemma DistinctAppend(s: seq<int>, b: int)
    requires Distinct(s) && b !in s
    ensures Distinct(s + [b])
  {
    DistinctElements(s);
    DistinctElements(s + [b]);
  }

  /** A list of block numbers that the log can hold. */
  ghost predicate Loggable(g: Geometry, lh: seq<int>) {
    && ValidGeometry(g)
    && |lh| <= LOGSIZE && |lh| <= g.size - 1
    && Distinct(lh)
    && forall i :: 0 <= i < |lh| ==> Home(g, lh[i])
  }

  ghost predicate GoodDisk(g: Geometry, d: Image) {
    |d.blocks| == g.nblocks && Loggable(g, d.head)
  }

  /** Block b as the log sees it: its log copy if `lh` names it, else itself. */
  ghost function Version(g: Geometry, d: seq<Block>, lh: seq<int>, b: nat): (v: Block)
    requires Loggable(g, lh) && |d| == g.nblocks && b < |d|
  {
    if b in lh then d[g.start + 1 + Find(lh, b)] else d[b]
  }

  /** What recovery would make of disk `d` outside the log is `home`. */
  ghost predicate Means(g: Geometry, d: Image, home: seq<Block>) {
    && GoodDisk(g, d) && |home| == g.nblocks
    && forall b {:trigger Home(g, b)} :: Home(g, b) ==> Version(g, d.blocks, d.head, b) == home[b]
  }

  /** The log is empty and the home blocks are `home`. */
  ghost predicate Settled(g: Geometry, d: Image, home: seq<Block>) {
    ValidGeometry(g) && d.head == [] && SameHome(g, d.blocks, home)
  }

  lemma SettledMeans(g: Geometry, d: Image, home: seq<Block>)
    requires Settled(g, d, home)
    ensures Means(g, d, home)
  {
  }

  /** The blocks with those of `lh` replaced by their version in `view`. */
  ghost function Overlay(d: seq<Block>, lh: seq<int>, view: seq<Block>): (r: seq<Block>)
    requires |view| == |d|
    ensures |r| == |d|
  {
    seq(|d|, b requires 0 <= b < |d| => if b in lh then view[b] else d[b])
  }

  // ---------------------------------------------------------------- disk writes

  /** write_log: cache blocks to log blocks. */
  ghost function LogWrites(g: Geometry, lh: seq<int>, view: seq<Block>): (ws: seq<Write>)
    requires Loggable(g, lh) && |view| == g.nblocks
    ensures |ws| == |lh| && InRange(g.nblocks, ws)
  {
    seq(|lh|, i requires 0 <= i < |lh| => Data(g.start + 1 + i, view[lh[i]]))
  }

  /** install_trans: log blocks to home blocks. */
  ghost function InstallWrites(g: Geometry, lh: seq<int>, d: seq<Block>): (ws: seq<Write>)
    requires Loggable(g, lh) && |d| == g.nblocks
    ensures |ws| == |lh| && InRange(g.nblocks, ws)
  {
    seq(|lh|, i requires 0 <= i < |lh| => Data(lh[i], d[g.start + 1 + i]))
  }

  /** Every block write of recover_from_log(), in order. */
  ghost function RecoveryWrites(g: Geometry, d: Image): (ws: seq<Write>)
    requires GoodDisk(g, d)
    ensures InRange(g.nblocks, ws)
    ensures |ws| == |d.head| + 1
  {
    InstallWrites(g, d.head, d.blocks) + [Head([])]
  }

  // ---------------------------------------------------------------- single phases

  /** The header and block b after k log writes. */
  lemma {:induction false} AfterLogWrites(g: Geometry, d: Image, lh: seq<int>, view: seq<Block>, k: nat, b: nat)
    requires Loggable(g, lh) && |view| == |d.blocks| == g.nblocks && k <= |lh| && b < g.nblocks
    ensures var e := Apply(d, LogWrites(g, lh, view), k);
            && e.head == d.head
            && e.blocks[b] == if g.start < b <= g.start + k then view[lh[b - g.start - 1]] else d.blocks[b]
  {
    if k > 0 { AfterLogWrites(g, d, lh, view, k - 1, b); }
  }

  /** The header and block b after k installs. */
  lemma {:induction false} AfterInstalls(g: Geometry, d: Image, lh: seq<int>, k: nat, b: nat)
    requires Loggable(g, lh) && |d.blocks| == g.nblocks && k <= |lh| && b < g.nblocks
    ensures var e := Apply(d, InstallWrites(g, lh, d.blocks), k);
            && e.head == d.head
            && e.blocks[b] == if b in lh && Find(lh, b) < k then d.blocks[g.start + 1 + Find(lh, b)] else d.blocks[b]
  {
    if k > 0 { AfterInstalls(g, d, lh, k - 1, b); }
  }

  lemma LogIsNotLogged(g: Geometry, lh: seq<int>, b: nat)
    requires Loggable(g, lh) && !Home(g, b)
    ensures b !in lh
  {
  }

  lemma InstallsKeepVersion(g: Geometry, d: Image, k: nat, e: Image, b: nat)
    requires GoodDisk(g, d) && k <= |d.head| && b < g.nblocks
    requires e == Apply(d, InstallWrites(g, d.head, d.blocks), k)
    ensures e.head == d.head
    ensures Version(g, e.blocks, d.head, b) == Version(g, d.blocks, d.head, b)
    ensures k == |d.head| ==> e.blocks[b] == Version(g, d.blocks, d.head, b)
  {
    AfterInstalls(g, d, d.head, k, b);
    if b in d.head {
      var copy := g.start + 1 + Find(d.head, b);
      AfterInstalls(g, d, d.head, k, copy);
      LogIsNotLogged(g, d.head, copy);
    }
  }

  /** A partly installed log means the same as before, and once every entry is
      installed the home blocks are what the log says. */
  lemma InstallsKeepMeaning(g: Geometry, d: Image, home: seq<Block>, k: nat, e: Image)
    requires Means(g, d, home) && k <= |d.head|
    requires e == Apply(d, InstallWrites(g, d.head, d.blocks), k)
    ensures Means(g, e, home)
    ensures k == |d.head| ==> SameHome(g, e.blocks, home)
  {
    InstallsKeepVersion(g, d, k, e, g.start);
    forall b: nat | Home(g, b)
      ensures Version(g, e.blocks, d.head, b) == home[b]
      ensures k == |d.head| ==> e.blocks[b] == home[b]
    {
      InstallsKeepVersion(g, d, k, e, b);
    }
  }

  // ---------------------------------------------------------------- whole commit and recovery

  /** A crash after any k writes of recovery leaves a disk with the same meaning;
      when recovery ends the header is empty and the home blocks are that meaning. */
  lemma RecoveryPrefix(g: Geometry, d: Image, home: seq<Block>, k: nat)
    requires Means(g, d, home) && k <= |RecoveryWrites(g, d)|
    ensures Means(g, Apply(d, RecoveryWrites(g, d), k), home)
    ensures k == |RecoveryWrites(g, d)| ==> Settled(g, Apply(d, RecoveryWrites(g, d), k), home)
  {
    var ws, ins := RecoveryWrites(g, d), InstallWrites(g, d.head, d.blocks);
    var j := if k < |ws| then k else k - 1;
    ApplyPrefix(d, ws, ins, j);
    InstallsKeepMeaning(g, d, home, j, Apply(d, ins, j));
    if k == |ws| {
      SettledMeans(g, Apply(d, ws, k), home);
    }
  }

  /** The disk right after commit's header write. */
  ghost function Committed(g: Geometry, d: Image, lh: seq<int>, view: seq<Block>): (e: Image)
    requires Loggable(g, lh) && |view| == |d.blocks| == g.nblocks
    ensures e.head == lh && GoodDisk(g, e)
  {
    ApplyOne(ApplyAll(d, LogWrites(g, lh, view)), Head(lh))
  }

  /** Its meaning is the new data. */
  lemma HeaderWriteCommits(g: Geometry, d: Image, lh: seq<int>, view: seq<Block>)
    requires Loggable(g, lh) && |view| == |d.blocks| == g.nblocks
    ensures Means(g, Committed(g, d, lh, view), Overlay(d.blocks, lh, view))
  {
    var e := Committed(g, d, lh, view);
    forall b: nat | Home(g, b)
      ensures Version(g, e.blocks, lh, b) == Overlay(d.blocks, lh, view)[b]
    {
      AfterLogWrites(g, d, lh, view, |lh|, b);
      if b in lh {
        AfterLogWrites(g, d, lh, view, |lh|, g.start + 1 + Find(lh, b));
      }
    }
  }

  /** Every block write of commit(), in order. From the header write on they are those
      that recovery would make of the disk at that point. */
  ghost function CommitWrites(g: Geometry, d: Image, lh: seq<int>, view: seq<Block>): (ws: seq<Write>)
    requires Loggable(g, lh) && |view| == |d.blocks| == g.nblocks
    ensures InRange(g.nblocks, ws)
    ensures |ws| == if lh == [] then 0 else 2 * |lh| + 2
  {
    if lh == [] then []
    else LogWrites(g, lh, view) + [Head(lh)] + RecoveryWrites(g, Committed(g, d, lh, view))
  }

  /** Any writes `log`, then a write `w` that gives the disk a meaning, then recovery's
      writes: the meaning holds from `w` on. */
  lemma MeaningAfter(g: Geometry, d: Image, log: seq<Write>, w: Write, e: Image, home: seq<Block>, k: nat)
    requires |d.blocks| == g.nblocks && InRange(g.nblocks, log) && (w.Data? ==> w.b < g.nblocks)
    requires e == ApplyOne(ApplyAll(d, log), w) && Means(g, e, home)
    requires |log| < k <= |log| + 1 + |RecoveryWrites(g, e)|
    ensures var ws := log + [w] + RecoveryWrites(g, e);
            && InRange(g.nblocks, ws)
            && Means(g, Apply(d, ws, k), home)
            && (k == |ws| ==> Settled(g, Apply(d, ws, k), home))
  {
    var j := k - |log| - 1;
    ApplyAround(d, log, w, RecoveryWrites(g, e), j, k);
    RecoveryPrefix(g, e, home, j);
  }

  /** A crash before commit's header write: the home blocks have not changed. */
  lemma CommitBeforeHeader(g: Geometry, d: Image, lh: seq<int>, view: seq<Block>, k: nat)
    requires Loggable(g, lh) && |view| == |d.blocks| == g.nblocks && k <= |lh|
    requires d.head == []
    ensures Settled(g, Apply(d, CommitWrites(g, d, lh, view), k), d.blocks)
  {
    var ws := LogWrites(g, lh, view);
    var e := Apply(d, ws, k);
    ApplyPrefix(d, CommitWrites(g, d, lh, view), ws, k);
    AfterLogWrites(g, d, lh, view, k, 0);
    forall b: nat | Home(g, b)
      ensures e.blocks[b] == d.blocks[b]
    {
      AfterLogWrites(g, d, lh, view, k, b);
    }
  }

  /** A crash after commit's header write: the disk means the new data; when commit
      ends the home blocks are the new data and the header is empty again. */
  lemma CommitFromHeader(g: Geometry, d: Image, lh: seq<int>, view: seq<Block>, k: nat)
    requires Loggable(g, lh) && |view| == |d.blocks| == g.nblocks
    requires |lh| < k <= |CommitWrites(g, d, lh, view)|
    ensures Means(g, Apply(d, CommitWrites(g, d, lh, view), k), Overlay(d.blocks, lh, view))
    ensures k == |CommitWrites(g, d, lh, view)| ==>
              Settled(g, Apply(d, CommitWrites(g, d, lh, view), k), Overlay(d.blocks, lh, view))
  {
    HeaderWriteCommits(g, d, lh, view);
    MeaningAfter(g, d, LogWrites(g, lh, view), Head(lh), Committed(g, d, lh, view), Overlay(d.blocks, lh, view), k);
  }

  /** The home blocks that a good disk stands for. */
  ghost function Durable(g: Geometry, d: Image): (home: seq<Block>)
    requires GoodDisk(g, d)
    ensures Means(g, d, home)
  {
    seq(g.nblocks, b requires 0 <= b < g.nblocks => Version(g, d.blocks, d.head, b))
  }

  /** Recovery attempts cut short after crashes[0], crashes[1], ... writes. */
  ghost function CrashingRecoveries(g: Geometry, d: Image, crashes: seq<nat>): (r: Image)
    requires GoodDisk(g, d)
    ensures GoodDisk(g, r)
    decreases |crashes|
  {
    if crashes == [] then d
    else
      var ws := RecoveryWrites(g, d);
      var k := if crashes[0] <= |ws| then crashes[0] else |ws|;
      RecoveryPrefix(g, d, Durable(g, d), k);
      CrashingRecoveries(g, Apply(d, ws, k), crashes[1..])
  }

  /** Any number of crashing recoveries, then one that completes. */
  lemma {:induction false} RecoveryCompletes(g: Geometry, d: Image, home: seq<Block>, crashes: seq<nat>)
    requires Means(g, d, home)
    ensures var r := CrashingRecoveries(g, d, crashes);
            Settled(g, ApplyAll(r, RecoveryWrites(g, r)), home)
    decreases |crashes|
  {
    var ws := RecoveryWrites(g, d);
    if crashes == [] {
      RecoveryPrefix(g, d, home, |ws|);
    } else {
      var k := if crashes[0] <= |ws| then crashes[0] else |ws|;
      RecoveryPrefix(g, d, home, k);
      RecoveryCompletes(g, Apply(d, ws, k), home, crashes[1..]);
    }
  }

  /** Crash atomicity of commit: a crash after any prefix of its block writes, any
      number of recoveries that crash themselves, then one that completes. The
      home blocks are all old or all new, and all new exactly when the non-empty
      header write (write number |lh|) reached the disk. */
  lemma CrashAtomicity(g: Geometry, d: Image, lh: seq<int>, view: seq<Block>, k: nat, crashes: seq<nat>)
    requires Loggable(g, lh) && |view| == |d.blocks| == g.nblocks && d.head == []
    requires k <= |CommitWrites(g, d, lh, view)|
    ensures var crashed := Apply(d, CommitWrites(g, d, lh, view), k);
            && GoodDisk(g, crashed)
            && var r := CrashingRecoveries(g, crashed, crashes);
            Settled(g, ApplyAll(r, RecoveryWrites(g, r)), if k <= |lh| then d.blocks else Overlay(d.blocks, lh, view))
  {
    var crashed := Apply(d, CommitWrites(g, d, lh, view), k);
    if k <= |lh| {
      CommitBeforeHeader(g, d, lh, view, k);
      SettledMeans(g, crashed, d.blocks);
      RecoveryCompletes(g, crashed, d.blocks, crashes);
    } else {
      CommitFromHeader(g, d, lh, view, k);
      RecoveryCompletes(g, crashed, Overlay(d.blocks, lh, view), crashes);
    }
  }
}
