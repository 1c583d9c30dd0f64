/** Which operations fit the log of xv6/log.c together, by the different blocks they log, and three chunks of filewrite
    (xv6/file.c) that do not. */
module LogRoom {

  import opened Common
  import opened Disk
  import opened LogFormat
  import opened FileBlocks
  import opened FileTree
  import opened FileContent
  import opened CrashSafety
  import FL = FileLayer
  import LP = LogProtocol

  /** Every block that some chapter logged. */
  ghost function AllLogged(cs: seq<Chapter>): set<Logged> {
    set k, x | 0 <= k < |cs| && x in cs[k].logged :: x
  }

  /** Where they are on disk. */
  ghost function Places(l: Layout, xs: set<Logged>): set<int> {
    set x | x in xs :: Where(l, x) as int
  }

  lemma {:induction false} PlacesCount(l: Layout, xs: set<Logged>)
    requires LayoutOk(l) && forall x :: x in xs ==> Placed(l, x)
    ensures |Places(l, xs)| == |xs|
  {
    if xs != {} {
      var y :| y in xs;
      var rest := xs - {y};
      PlacesCount(l, rest);
      forall x | x in rest
        ensures Where(l, x) != Where(l, y)
      {
        PlacedApart(l, x, y);
      }
      assert Places(l, xs) == Places(l, rest) + {Where(l, y) as int};
    }
  }

  lemma {:induction false} AllPlaced(l: Layout, fs: FL.Fs, cs: seq<Chapter>, x: Logged)
    requires StoryOk(l, fs, cs) && x in AllLogged(cs)
    ensures Placed(l, x)
  {
    var k :| 0 <= k < |cs| && x in cs[k].logged;
    assert ChapterOk(l, After(fs, cs[..k]), cs[k]);
    LoggedIsPlaced(l, cs[k].after, x);
  }

  lemma AllPlacedCount(l: Layout, fs: FL.Fs, cs: seq<Chapter>)
    requires LayoutOk(l) && StoryOk(l, fs, cs)
    ensures |Places(l, AllLogged(cs))| == |AllLogged(cs)|
  {
    forall x | x in AllLogged(cs)
      ensures Placed(l, x)
    {
      AllPlaced(l, fs, cs, x);
    }
    PlacesCount(l, AllLogged(cs));
  }

  lemma EmptyIsDistinct()
    ensures Distinct([]) && LP.Entries([]) == {}
  {
  }

  /** Operations under way on an empty log, and their log_writes in any order: exactly the blocks that the chapters
      logged, each at least once. One of the calls panics if the chapters logged more different blocks than there is
      room for, and none does if they logged fewer; with just as many it is the last call that decides. */
  lemma ChaptersFit(l: Layout, fs: FL.Fs, cs: seq<Chapter>, s: LP.State, ws: seq<LP.Step>)
    requires LayoutOk(l) && StoryOk(l, fs, cs) && s.lh == [] && LP.Loggings(l.g, s, ws) && ws != []
    requires LP.Named(ws) == Places(l, AllLogged(cs))
    ensures var (n, room, last) := (|AllLogged(cs)|, LP.Room(l.g), |ws| - 1);
      LP.ValidRun(l.g, s, ws) <==> n < room || (n == room && ws[last].b !in LP.Named(ws[..last]))
  {
    hide StoryOk, AllLogged, Places, LP.Named, LP.ValidRun, Where;
    var last := |ws| - 1;
    AllPlacedCount(l, fs, cs);
    EmptyIsDistinct();
    LP.LoggingsExact(l.g, s, ws);
    LastNamed(ws);
    assert LP.Entries(s.lh) + LP.Named(ws[..last]) == LP.Named(ws[..last]);
  }

  lemma LastNamed(ws: seq<LP.Step>)
    requires ws != [] && ws[|ws| - 1].LogWrite?
    ensures var last := |ws| - 1;
      && LP.Named(ws) == LP.Named(ws[..last]) + {ws[last].b as int}
      && |LP.Named(ws)| == |LP.Named(ws[..last])| + if ws[last].b in LP.Named(ws[..last]) then 0 else 1
  {
    var last := |ws| - 1;
    var a, b := LP.Named(ws), LP.Named(ws[..last]);
    forall x | x in a
      ensures x in b + {ws[last].b as int}
    {
      var k :| 0 <= k < |ws| && ws[k].LogWrite? && ws[k].b == x;
      if k < last {
        assert ws[..last][k] == ws[k];
      }
    }
    forall x | x in b
      ensures x in a
    {
      var k :| 0 <= k < last && ws[..last][k].LogWrite? && ws[..last][k].b == x;
      assert ws[k] == ws[..last][k];
    }
    assert a == b + {ws[last].b as int};
    if ws[last].b in b {
      assert a == b;
    }
  }

  lemma ThreeBegin(g: Geometry, base: Image) returns (steps: seq<LP.Step>)
    requires LP.FreshDisk(g, base)
    ensures LP.ValidRun(g, LP.Init(base), steps)
    ensures var s := LP.Final(g, LP.Init(base), steps);
      && s.phase.Running? && s.lh == [] && s.view == base.blocks && |s.ops| == 3
      && forall i :: 0 <= i < 3 ==> s.ops[i].id == i
  {
    var s := LP.Init(base);
    LP.RunAppend(g, s, [], LP.Begin(0));
    LP.RunAppend(g, s, [] + [LP.Begin(0)], LP.Begin(1));
    LP.RunAppend(g, s, [] + [LP.Begin(0)] + [LP.Begin(1)], LP.Begin(2));
    steps := [] + [LP.Begin(0)] + [LP.Begin(1)] + [LP.Begin(2)];
  }

  /** begin_op lets three operations in. If together they log more than LOGSIZE different blocks, one of their
      log_writes panics, in whatever order they come and however large the log is; n of them come before it. */
  lemma ChunksPanic(l: Layout, fs: FL.Fs, cs: seq<Chapter>, base: Image, ws: seq<LP.Step>)
      returns (steps: seq<LP.Step>, n: nat)
    requires LayoutOk(l) && LP.FreshDisk(l.g, base) && StoryOk(l, fs, cs) && LOGSIZE < |AllLogged(cs)|
    requires forall k :: 0 <= k < |ws| ==> ws[k].LogWrite? && ws[k].i < 3
    requires LP.Named(ws) == Places(l, AllLogged(cs))
    ensures LP.ValidRun(l.g, LP.Init(base), steps)
    ensures var s := LP.Final(l.g, LP.Init(base), steps);
      && |s.ops| == 3 && !LP.ValidRun(l.g, s, ws)
      && n < |ws| && LP.ValidRun(l.g, s, ws[..n]) && LP.TooBig(l.g, LP.Final(l.g, s, ws[..n]))
  {
    steps := ThreeBegin(l.g, base);
    var s := LP.Final(l.g, LP.Init(base), steps);
    hide LP.ValidRun, LP.Final, StoryOk, AllLogged;
    AllPlacedCount(l, fs, cs);
    forall k | 0 <= k < |ws|
      ensures Home(l.g, ws[k].b) && ws[k].b < |s.view|
    {
      NamedIsPlaced(l, fs, cs, ws[k].b);
    }
    assert LP.Named([]) == {};
    ChaptersFit(l, fs, cs, s, ws);
    n := LP.FirstPanic(l.g, s, ws);
  }

  lemma NamedIsPlaced(l: Layout, fs: FL.Fs, cs: seq<Chapter>, b: int)
    requires LayoutOk(l) && StoryOk(l, fs, cs) && b in Places(l, AllLogged(cs))
    ensures Home(l.g, b) && 0 <= b < l.g.nblocks
  {
    var x :| x in AllLogged(cs) && Where(l, x) == b;
    AllPlaced(l, fs, cs, x);
    PlacedApart(l, x, x);
  }

  // ---------------------------------------------------------------- three chunks on three inodes

  /** The blocks of inode j's direct addresses. */
  ghost function Direct(fs: FL.FileSystem, j: nat): set<Logged>
    reads fs
    requires fs.BlocksOk() && j < |fs.addrs|
  {
    FL.FileBlockSet(fs.addrs[j], fs.data, 0, NDIRECT)
  }

  lemma DirectSame(a: seq<nat>, d: seq<Block>, d': seq<Block>)
    requires |a| == NDIRECT + 1
    ensures FL.FileBlockSet(a, d, 0, NDIRECT) == FL.FileBlockSet(a, d', 0, NDIRECT)
    ensures FL.FileBlockSet(a, d, 0, NDIRECT) <= FL.FileBlockSet(a, d, 0, NDIRECT + 1)
  {
    forall k | 0 <= k < NDIRECT
      ensures Ref(a, d, Slot(k)) == Ref(a, d', Slot(k))
    {
    }
    hide Ref, Slot;
  }

  /** Files of at least twelve blocks have twelve direct ones, each its own. */
  lemma DirectCount(fs: FL.FileSystem, j: nat, j': nat)
    requires fs.Valid() && j < |fs.addrs| && j' < |fs.addrs| && j != j'
    requires fs.sizes[j] >= MAXCHUNK && fs.sizes[j'] >= MAXCHUNK
    ensures |Direct(fs, j)| == NDIRECT && Direct(fs, j) !! Direct(fs, j')
  {
    assert FL.FileOk(fs.addrs[j], fs.data, fs.sizes[j]) && FL.FileOk(fs.addrs[j'], fs.data, fs.sizes[j']);
    FL.FileBlockCount(fs.addrs, fs.data, fs.owner, fs.meta, j, 0, NDIRECT);
    forall x | x in Direct(fs, j)
      ensures x !in Direct(fs, j')
    {
      var k :| 0 <= k < NDIRECT && x == DataBlock(Ref(fs.addrs[j], fs.data, Slot(k)));
      forall k' | 0 <= k' < NDIRECT
        ensures Ref(fs.addrs[j'], fs.data, Slot(k')) != x.b
      {
        assert RefOk(fs.addrs[j], fs.data, fs.owner, j, Slot(k));
        assert RefOk(fs.addrs[j'], fs.data, fs.owner, j', Slot(k'));
      }
    }
  }

  lemma ThreeSets(a: set<Logged>, b: set<Logged>, c: set<Logged>, all: set<Logged>)
    requires a !! b && b !! c && a !! c && a <= all && b <= all && c <= all
    ensures |a| + |b| + |c| <= |all|
  {
    assert |a + b + c| == |a| + |b| + |c|;
    FL.SubsetCount(a + b + c, all);
  }

  /** The chunk j of three, written to inode j: what the three logged has its direct blocks. */
  method ChunkOp(fs: FL.FileSystem, ghost l: Layout, j: nat, src: seq<Byte>) returns (ok: bool, ghost ch: Chapter)
    requires fs.Valid() && LaidOut(l, fs) && j < |fs.addrs| && |src| == MAXCHUNK
    requires fs.size - fs.meta > NSLOTS * |fs.addrs|
    modifies fs
    ensures ok && fs.Valid() && LaidOut(l, fs) && ch.id == j && ch.after == fs.OnDisk()
    ensures GoodFs(l, old(fs.OnDisk())) && ChapterOk(l, old(fs.OnDisk()), ch)
    ensures fs.sizes[j] >= MAXCHUNK && Direct(fs, j) <= ch.logged
    ensures forall i :: 0 <= i < l.ninodes && i != j ==>
      fs.addrs[i] == old(fs.addrs)[i] && fs.sizes[i] == old(fs.sizes)[i] && Direct(fs, i) == old(Direct(fs, i))
  {
    hide ChapterOk, GoodFs, FL.Cost, Tree, FL.BitsOk, FL.FileOk, FL.FileBlockSet, FL.Covers, Content, Written;
    SizeFits(fs, j);
    FL.RefusalsExact(fs.sizes[j], 0, |src|);
    ghost var d := fs.data;
    var r;
    ok, r, ch := WriteOp(fs, l, j, j, src, 0);
    if !ok {
      FL.RoomLeft(fs.bits, fs.size, fs.addrs, fs.data, fs.owner, fs.meta);
    }
    assert FL.Touched(0, |src|) == NDIRECT + 1;
    RowSized(fs, j);
    DirectSame(fs.addrs[j], fs.data, fs.data);
    forall i | 0 <= i < l.ninodes && i != j
      ensures Direct(fs, i) == old(Direct(fs, i))
    {
      RowSized(fs, i);
      DirectSame(fs.addrs[i], fs.data, d);
    }
  }

  lemma RowSized(fs: FL.FileSystem, i: nat)
    requires fs.Valid() && i < |fs.addrs|
    ensures |fs.addrs[i]| == NDIRECT + 1
  {
  }

  /** Three full chunks of filewrite on three inodes, on every new disk with room: three operations, one after the other
      in the file system, that log at least 36 different blocks. */
  method ThreeChunks(ghost l: Layout, size: nat, meta: nat, bits: seq<seq<bv8>>, data: seq<Block>, attrs: seq<FL.Attrs>,
                     src: seq<seq<Byte>>)
      returns (fs: FL.FileSystem, ghost start: FL.Fs, ghost cs: seq<Chapter>)
    requires Shaped(bits, size) && 0 < meta <= size == |data| <= UINT && NSLOTS * |attrs| < size - meta && |attrs| >= 3
    requires forall b :: 0 <= b < |data| ==> |data[b]| == BSIZE
    requires forall b :: 0 <= b < size ==> (InUse(bits, size, b) <==> b < meta)
    requires LayoutOk(l) && l.meta == meta && l.g.nblocks == size && l.nbitmap == |bits| && l.ninodes == |attrs|
    requires |src| == 3 && forall j :: 0 <= j < 3 ==> |src[j]| == MAXCHUNK
    ensures fs.Valid() && GoodFs(l, start) && StoryOk(l, start, cs) && After(start, cs) == fs.OnDisk()
    ensures |cs| == 3 && (forall j :: 0 <= j < 3 ==> cs[j].id == j) && 36 <= |AllLogged(cs)|
  {
    hide InUse, ChapterOk, GoodFs, Tree, FL.BitsOk, FL.FileOk, FL.FileBlockSet, FL.Covers, StoryOk, Flat;
    fs := new FL.FileSystem(size, meta, bits, data, attrs);
    start, cs := fs.OnDisk(), [];
    ValidIsGood(l, fs);
    StoryStarts(l, start);
    var j := 0;
    while j < 3
      invariant j <= 3 && fs.Valid() && LaidOut(l, fs) && fs.size == size && fs.meta == meta && |fs.addrs| == |attrs|
      invariant |cs| == j && StoryOk(l, start, cs) && After(start, cs) == fs.OnDisk()
      invariant forall i :: 0 <= i < j ==> cs[i].id == i && fs.sizes[i] >= MAXCHUNK && Direct(fs, i) <= cs[i].logged
      modifies fs
    {
      ghost var ch;
      var ok;
      ok, ch := ChunkOp(fs, l, j, src[j]);
      StoryMore(l, start, cs, ch);
      cs := cs + [ch];
      j := j + 1;
    }
    DirectCount(fs, 0, 1);
    DirectCount(fs, 1, 2);
    DirectCount(fs, 2, 0);
    InAllLogged(cs, 0);
    InAllLogged(cs, 1);
    InAllLogged(cs, 2);
    ThreeSets(Direct(fs, 0), Direct(fs, 1), Direct(fs, 2), AllLogged(cs));
  }

  lemma StoryStarts(l: Layout, fs: FL.Fs)
    ensures StoryOk(l, fs, [])
  {
  }

  lemma InAllLogged(cs: seq<Chapter>, k: nat)
    requires k < |cs|
    ensures cs[k].logged <= AllLogged(cs)
  {
  }
}
