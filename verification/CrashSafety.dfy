/** The file layer of xv6/fs.c over the log of xv6/log.c: what the disk holds after a crash and recovery is the file
    system after a whole number of operations. Operations follow one another; each logs every block it changes. */
module CrashSafety {

  import opened Common
  import opened Disk
  import opened LogFormat
  import opened FileBlocks
  import opened FileTree
  import opened FileContent
  import FL = FileLayer
  import LD = LogDevice
  import LP = LogProtocol

  // ---------------------------------------------------------------- layout of the disk

  /** Where mkfs puts things: boot block, super block, log, inode blocks, bitmap, data. */
  datatype Layout = Layout(g: Geometry, inodestart: nat, bmapstart: nat, meta: nat, ninodes: nat, nbitmap: nat)

  predicate LayoutOk(l: Layout) {
    && ValidGeometry(l.g) && l.g.start + l.g.size <= l.inodestart && 0 < l.meta
    && l.inodestart + l.ninodes / IPB + 1 <= l.bmapstart && l.bmapstart + l.nbitmap <= l.meta <= l.g.nblocks <= UINT
  }

  /** The block number of what an operation logs. */
  function Where(l: Layout, x: Logged): nat {
    match x
    case MapBlock(n) => l.bmapstart + n
    case DataBlock(b) => b
    case InodeBlock(n) => l.inodestart + n
  }

  predicate Placed(l: Layout, x: Logged) {
    match x
    case MapBlock(n) => n < l.nbitmap
    case DataBlock(b) => l.meta <= b < l.g.nblocks
    case InodeBlock(n) => n <= l.ninodes / IPB
  }

  /** None of these blocks is in the log, and no two are the same. */
  lemma PlacedApart(l: Layout, x: Logged, y: Logged)
    requires LayoutOk(l) && Placed(l, x) && Placed(l, y)
    ensures Home(l.g, Where(l, x)) && (Where(l, x) == Where(l, y) <==> x == y)
  {
  }

  // ---------------------------------------------------------------- bytes of a block

  /** Two shorts in a word. */
  function Pair(a: FL.Short, b: FL.Short): (w: nat)
    ensures w < UINT
  {
    var lo, hi := a % 0x1_0000, b % 0x1_0000;
    lo + 0x1_0000 * hi
  }

  lemma PairExact(a: FL.Short, b: FL.Short, a': FL.Short, b': FL.Short)
    requires Pair(a, b) == Pair(a', b')
    ensures a == a' && b == b'
  {
  }

  /** Word f of inode i: sixteen words make a struct dinode. */
  function Field(fs: FL.Fs, i: nat, f: nat): nat {
    if i >= |fs.addrs| || i >= |fs.sizes| || i >= |fs.attrs| || |fs.addrs[i]| != NDIRECT + 1 || f >= 16 then 0
    else if f == 0 then Pair(fs.attrs[i].kind, fs.attrs[i].major)
    else if f == 1 then Pair(fs.attrs[i].minor, fs.attrs[i].nlink)
    else if f == 2 then fs.sizes[i]
    else fs.addrs[i][f - 3]
  }

  function Unit(k: nat): nat {
    if k == 0 then 1 else if k == 1 then 0x100 else if k == 2 then 0x1_0000 else 0x100_0000
  }

  /** Inode block n. */
  function Inodes(fs: FL.Fs, n: nat): (r: Block)
    ensures |r| == BSIZE
  {
    seq(BSIZE, p requires 0 <= p < BSIZE => Digit(Field(fs, n * IPB + p / 64, p / 4 % 16), Unit(p % 4)))
  }

  lemma BytePlace(j: nat, f: nat, k: nat)
    requires f < 16 && k < 4
    ensures var p := 4 * (16 * j + f) + k; p / 64 == j && p / 4 % 16 == f && p % 4 == k
  {
    var p := 4 * (16 * j + f) + k;
    assert p / 4 == 16 * j + f;
  }

  lemma InodeByte(fs: FL.Fs, i: nat, f: nat, k: nat)
    requires f < 16 && k < 4
    ensures Inodes(fs, i / IPB)[4 * (16 * (i % IPB) + f) + k] == Digit(Field(fs, i, f), Unit(k))
  {
    hide Digit, Field;
    BytePlace(i % IPB, f, k);
    assert i / IPB * IPB + i % IPB == i;
  }

  /** Inode i's words can be read from its block. */
  lemma InodesExact(fs: FL.Fs, i: nat, f: nat)
    requires f < 16 && Field(fs, i, f) < UINT
    ensures Word(Inodes(fs, i / IPB), 16 * (i % IPB) + f) == Field(fs, i, f)
  {
    hide Digit, Field, Inodes;
    InodeByte(fs, i, f, 0);
    InodeByte(fs, i, f, 1);
    InodeByte(fs, i, f, 2);
    InodeByte(fs, i, f, 3);
    Digits(Field(fs, i, f));
  }

  /** struct dinode: type, major, minor and nlink in the first two words, then the size, then the addresses. */
  lemma DinodeFields(fs: FL.Fs, i: nat, k: nat)
    requires i < |fs.addrs| && i < |fs.sizes| && i < |fs.attrs| && |fs.addrs[i]| == NDIRECT + 1 && k <= NDIRECT
    requires fs.sizes[i] < UINT && fs.addrs[i][k] < UINT
    ensures var (b, w, a) := (Inodes(fs, i / IPB), 16 * (i % IPB), fs.attrs[i]);
      && Word(b, w) % 0x1_0000 == a.kind % 0x1_0000 && Word(b, w) / 0x1_0000 == a.major % 0x1_0000
      && Word(b, w + 1) % 0x1_0000 == a.minor % 0x1_0000 && Word(b, w + 1) / 0x1_0000 == a.nlink % 0x1_0000
      && Word(b, w + 2) == fs.sizes[i] && Word(b, w + 3 + k) == fs.addrs[i][k]
  {
    hide Inodes, Word;
    InodesExact(fs, i, 0);
    InodesExact(fs, i, 1);
    InodesExact(fs, i, 2);
    InodesExact(fs, i, 3 + k);
  }

  /** What a block of the file system holds. */
  function Contents(fs: FL.Fs, x: Logged): (r: Block)
    requires x.MapBlock? ==> x.n < |fs.bits|
    requires x.DataBlock? ==> x.b < |fs.data|
  {
    match x
    case MapBlock(n) => seq(|fs.bits[n]|, k requires 0 <= k < |fs.bits[n]| => fs.bits[n][k] as int)
    case DataBlock(b) => fs.data[b]
    case InodeBlock(n) => Inodes(fs, n)
  }

  ghost predicate Fits(l: Layout, fs: FL.Fs) {
    && |fs.bits| == l.nbitmap && |fs.data| == l.g.nblocks
    && |fs.addrs| == |fs.sizes| == |fs.attrs| == l.ninodes
  }

  ghost predicate ShowsAt(l: Layout, fs: FL.Fs, blocks: seq<Block>, x: Logged)
    requires LayoutOk(l) && Fits(l, fs) && |blocks| == l.g.nblocks && Placed(l, x)
  {
    blocks[Where(l, x)] == Contents(fs, x)
  }

  /** The blocks of the disk hold this file system. */
  ghost predicate Shows(l: Layout, fs: FL.Fs, blocks: seq<Block>)
    requires LayoutOk(l)
  {
    Fits(l, fs) && |blocks| == l.g.nblocks && forall x :: Placed(l, x) ==> ShowsAt(l, fs, blocks, x)
  }

  // ---------------------------------------------------------------- a good file system

  ghost predicate Owned(l: Layout, fs: FL.Fs, owner: seq<Owner>)
    requires Shaped(fs.bits, l.g.nblocks)
  {
    Tree(fs.addrs, fs.data, owner, l.meta) && FL.BitsOk(fs.bits, l.g.nblocks, owner, l.meta)
  }

  /** No block is reachable twice, the bitmap marks exactly the blocks in use, and no file has a hole. */
  ghost predicate GoodFs(l: Layout, fs: FL.Fs) {
    && Fits(l, fs) && Shaped(fs.bits, l.g.nblocks) && Sized(fs.addrs, fs.data)
    && (exists owner :: Owned(l, fs, owner))
    && (forall i :: 0 <= i < |fs.addrs| ==> FL.FileOk(fs.addrs[i], fs.data, fs.sizes[i]))
  }

  /** The bytes of file i. */
  ghost function File(l: Layout, fs: FL.Fs, i: nat): seq<Byte>
    requires GoodFs(l, fs) && i < l.ninodes
  {
    assert FL.FileOk(fs.addrs[i], fs.data, fs.sizes[i]);
    Content(fs.addrs[i], fs.data, fs.sizes[i])
  }

  lemma FieldShown(l: Layout, fs: FL.Fs, fs': FL.Fs, blocks: seq<Block>, i: nat, f: nat)
    requires LayoutOk(l) && GoodFs(l, fs) && GoodFs(l, fs') && Shows(l, fs, blocks) && Shows(l, fs', blocks)
    requires i < l.ninodes && f < 16
    ensures Field(fs, i, f) == Field(fs', i, f)
  {
    hide GoodFs, Field, Inodes;
    var x := InodeBlock(i / IPB);
    assert ShowsAt(l, fs, blocks, x) && ShowsAt(l, fs', blocks, x);
    FieldSmall(l, fs, i, f);
    FieldSmall(l, fs', i, f);
    InodesExact(fs, i, f);
    InodesExact(fs', i, f);
  }

  lemma SameFields(fs: FL.Fs, fs': FL.Fs, i: nat)
    requires i < |fs.addrs| == |fs.sizes| == |fs.attrs| == |fs'.addrs| == |fs'.sizes| == |fs'.attrs|
    requires |fs.addrs[i]| == |fs'.addrs[i]| == NDIRECT + 1
    requires forall f :: 0 <= f < 16 ==> Field(fs, i, f) == Field(fs', i, f)
    ensures FL.SameInode(fs, fs', i)
  {
    hide Pair;
    var a, a' := fs.attrs[i], fs'.attrs[i];
    assert Field(fs, i, 0) == Field(fs', i, 0) && Field(fs, i, 1) == Field(fs', i, 1);
    PairExact(a.kind, a.major, a'.kind, a'.major);
    PairExact(a.minor, a.nlink, a'.minor, a'.nlink);
    assert Field(fs, i, 2) == Field(fs', i, 2);
    forall k | 0 <= k <= NDIRECT
      ensures fs.addrs[i][k] == fs'.addrs[i][k]
    {
      assert Field(fs, i, k + 3) == Field(fs', i, k + 3);
    }
    assert fs.addrs[i] == fs'.addrs[i];
  }

  /** Inode i as the disk shows it. */
  lemma InodeShown(l: Layout, fs: FL.Fs, fs': FL.Fs, blocks: seq<Block>, i: nat)
    requires LayoutOk(l) && GoodFs(l, fs) && GoodFs(l, fs') && Shows(l, fs, blocks) && Shows(l, fs', blocks)
    requires i < l.ninodes
    ensures FL.SameInode(fs, fs', i)
  {
    forall f | 0 <= f < 16
      ensures Field(fs, i, f) == Field(fs', i, f)
    {
      FieldShown(l, fs, fs', blocks, i, f);
    }
    SameFields(fs, fs', i);
  }

  /** Every word of a good inode fits in 32 bits. */
  lemma FieldSmall(l: Layout, fs: FL.Fs, i: nat, f: nat)
    requires LayoutOk(l) && GoodFs(l, fs)
    ensures Field(fs, i, f) < UINT
  {
    if i < |fs.addrs| {
      assert FL.FileOk(fs.addrs[i], fs.data, fs.sizes[i]);
      if 3 <= f < 16 {
        var owner :| Owned(l, fs, owner);
        assert RefOk(fs.addrs[i], fs.data, owner, i, f - 3);
      }
    }
  }

  lemma BitsShown(l: Layout, fs: FL.Fs, fs': FL.Fs, blocks: seq<Block>, n: nat)
    requires LayoutOk(l) && Shows(l, fs, blocks) && Shows(l, fs', blocks) && n < l.nbitmap
    ensures fs.bits[n] == fs'.bits[n]
  {
    assert ShowsAt(l, fs, blocks, MapBlock(n)) && ShowsAt(l, fs', blocks, MapBlock(n));
    var a, b := Contents(fs, MapBlock(n)), Contents(fs', MapBlock(n));
    assert |fs.bits[n]| == |a| == |b| == |fs'.bits[n]|;
    forall k | 0 <= k < |fs.bits[n]|
      ensures fs.bits[n][k] == fs'.bits[n][k]
    {
      assert a[k] == b[k];
    }
  }

  /** The slots of a good file refer to the same blocks whatever the blocks before the data hold. */
  lemma FileSame(l: Layout, fs: FL.Fs, fs': FL.Fs, i: nat)
    requires LayoutOk(l) && GoodFs(l, fs) && GoodFs(l, fs') && i < l.ninodes && FL.SameInode(fs, fs', i)
    requires forall b :: l.meta <= b < l.g.nblocks ==> fs.data[b] == fs'.data[b]
    ensures File(l, fs, i) == File(l, fs', i)
  {
    var owner :| Owned(l, fs, owner);
    assert FL.FileOk(fs.addrs[i], fs.data, fs.sizes[i]);
    forall k: nat | k < NSLOTS
      ensures Ref(fs.addrs[i], fs.data, k) == Ref(fs'.addrs[i], fs'.data, k)
    {
      if fs.addrs[i][NDIRECT] != 0 {
        FL.RefIsData(fs.addrs, fs.data, owner, l.meta, i, NDIRECT);
      }
    }
    forall p | 0 <= p < fs.sizes[i]
      ensures ByteAt(fs.addrs[i], fs.data, p) == ByteAt(fs'.addrs[i], fs'.data, p)
    {
      FL.InsideIsMapped(fs.addrs[i], fs.data, fs.sizes[i], p);
      FL.RefIsData(fs.addrs, fs.data, owner, l.meta, i, Slot(p / BSIZE));
    }
  }

  /** The disk blocks determine the bitmap, the data, the inodes and every file. */
  lemma ShownOnce(l: Layout, fs: FL.Fs, fs': FL.Fs, blocks: seq<Block>)
    requires LayoutOk(l) && GoodFs(l, fs) && GoodFs(l, fs') && Shows(l, fs, blocks) && Shows(l, fs', blocks)
    ensures fs.bits == fs'.bits && fs.addrs == fs'.addrs && fs.sizes == fs'.sizes && fs.attrs == fs'.attrs
    ensures forall b :: l.meta <= b < l.g.nblocks ==> fs.data[b] == fs'.data[b]
    ensures forall i :: 0 <= i < l.ninodes ==> File(l, fs, i) == File(l, fs', i)
  {
    forall n | 0 <= n < l.nbitmap
      ensures fs.bits[n] == fs'.bits[n]
    {
      BitsShown(l, fs, fs', blocks, n);
    }
    forall b | l.meta <= b < l.g.nblocks
      ensures fs.data[b] == fs'.data[b]
    {
      assert ShowsAt(l, fs, blocks, DataBlock(b)) && ShowsAt(l, fs', blocks, DataBlock(b));
    }
    forall i | 0 <= i < l.ninodes
      ensures fs.addrs[i] == fs'.addrs[i] && fs.sizes[i] == fs'.sizes[i] && fs.attrs[i] == fs'.attrs[i]
      ensures File(l, fs, i) == File(l, fs', i)
    {
      InodeShown(l, fs, fs', blocks, i);
      FileSame(l, fs, fs', i);
    }
  }

  // ---------------------------------------------------------------- one operation in the log

  /** An operation's part of the history: the blocks it logged, its loggings in order, and the file system it left. */
  datatype Chapter = Chapter(id: nat, logged: set<Logged>, es: seq<LP.Logging>, after: FL.Fs)

  /** v is what the last logging of block b put there. */
  ghost predicate LastIs(es: seq<LP.Logging>, b: nat, v: Block) {
    exists t :: 0 <= t < |es| && es[t].b == b && es[t].v == v && forall u :: t < u < |es| ==> es[u].b != b
  }

  ghost predicate IsOneOf(l: Layout, logged: set<Logged>, b: nat) {
    exists x :: x in logged && Where(l, x) == b
  }

  /** From fs: a good file system, every changed block logged, last with what it then holds, and nothing else logged. */
  ghost predicate ChapterOk(l: Layout, fs: FL.Fs, ch: Chapter) {
    && LayoutOk(l) && Fits(l, fs) && GoodFs(l, ch.after) && FL.Covers(fs, ch.after, ch.logged, l.meta)
    && (forall t :: 0 <= t < |ch.es| ==>
          ch.es[t].op == ch.id && IsOneOf(l, ch.logged, ch.es[t].b))
    && (forall x :: x in ch.logged ==>
          FL.FileBlock(x, ch.after, l.meta) && LastIs(ch.es, Where(l, x), Contents(ch.after, x)))
  }

  lemma LoggedIsPlaced(l: Layout, fs: FL.Fs, x: Logged)
    requires LayoutOk(l) && Fits(l, fs) && FL.FileBlock(x, fs, l.meta)
    ensures Placed(l, x)
  {
  }

  lemma ChapterHome(l: Layout, fs: FL.Fs, ch: Chapter)
    requires ChapterOk(l, fs, ch)
    ensures LP.AllHome(l.g, ch.es)
  {
    forall t | 0 <= t < |ch.es|
      ensures Home(l.g, ch.es[t].b)
    {
      assert IsOneOf(l, ch.logged, ch.es[t].b);
      var x :| x in ch.logged && Where(l, x) == ch.es[t].b;
      LoggedIsPlaced(l, ch.after, x);
      PlacedApart(l, x, x);
    }
  }

  lemma {:induction false} ReplayKeeps(g: Geometry, base: seq<Block>, es: seq<LP.Logging>, b: nat)
    requires |base| == g.nblocks && LP.AllHome(g, es) && b < |base| && forall t :: 0 <= t < |es| ==> es[t].b != b
    ensures LP.Replay(g, base, es)[b] == base[b]
  {
    if es != [] {
      ReplayKeeps(g, base, es[..|es| - 1], b);
    }
  }

  lemma {:induction false} ReplayLast(g: Geometry, base: seq<Block>, es: seq<LP.Logging>, b: nat, v: Block)
    requires |base| == g.nblocks && LP.AllHome(g, es) && b < |base| && LastIs(es, b, v)
    ensures LP.Replay(g, base, es)[b] == v
  {
    var t :| 0 <= t < |es| && es[t].b == b && es[t].v == v && forall u :: t < u < |es| ==> es[u].b != b;
    var n := |es| - 1;
    if t < n {
      assert es[..n][t] == es[t];
      ReplayLast(g, base, es[..n], b, v);
    }
  }

  /** What was not logged holds what it did. */
  lemma UnloggedSame(l: Layout, fs: FL.Fs, ch: Chapter, x: Logged)
    requires ChapterOk(l, fs, ch) && Placed(l, x) && x !in ch.logged
    ensures Contents(ch.after, x) == Contents(fs, x)
  {
    match x
    case MapBlock(n) =>
      assert ch.after.bits[n] == fs.bits[n];
    case DataBlock(b) =>
      assert ch.after.data[b] == fs.data[b];
    case InodeBlock(n) =>
      InodesSame(fs, ch.after, n, ch.logged, l.meta);
  }

  lemma InodesSame(fs: FL.Fs, fs': FL.Fs, n: nat, logged: set<Logged>, meta: nat)
    requires FL.Covers(fs, fs', logged, meta) && InodeBlock(n) !in logged
    ensures Inodes(fs', n) == Inodes(fs, n)
  {
    hide Digit;
    var a, b := Inodes(fs, n), Inodes(fs', n);
    forall p | 0 <= p < BSIZE
      ensures a[p] == b[p]
    {
      var i := n * IPB + p / 64;
      assert i / IPB == n;
      if i < |fs.addrs| {
        assert FL.SameInode(fs, fs', i);
      }
    }
  }

  /** Replaying an operation's loggings takes the blocks from the file system before it to the one after. */
  lemma ChapterShows(l: Layout, fs: FL.Fs, ch: Chapter, blocks: seq<Block>)
    requires ChapterOk(l, fs, ch) && Shows(l, fs, blocks)
    ensures LP.AllHome(l.g, ch.es) && Shows(l, ch.after, LP.Replay(l.g, blocks, ch.es))
  {
    ChapterHome(l, fs, ch);
    var after := LP.Replay(l.g, blocks, ch.es);
    forall x | Placed(l, x)
      ensures ShowsAt(l, ch.after, after, x)
    {
      PlacedApart(l, x, x);
      if x in ch.logged {
        ReplayLast(l.g, blocks, ch.es, Where(l, x), Contents(ch.after, x));
      } else {
        NotLogged(l, fs, ch, x);
        ReplayKeeps(l.g, blocks, ch.es, Where(l, x));
        UnloggedSame(l, fs, ch, x);
        assert ShowsAt(l, fs, blocks, x);
      }
    }
  }

  lemma NotLogged(l: Layout, fs: FL.Fs, ch: Chapter, x: Logged)
    requires ChapterOk(l, fs, ch) && Placed(l, x) && x !in ch.logged
    ensures forall t :: 0 <= t < |ch.es| ==> ch.es[t].b != Where(l, x)
  {
    forall t | 0 <= t < |ch.es|
      ensures ch.es[t].b != Where(l, x)
    {
      assert IsOneOf(l, ch.logged, ch.es[t].b);
      var y :| y in ch.logged && Where(l, y) == ch.es[t].b;
      LoggedIsPlaced(l, ch.after, y);
      PlacedApart(l, x, y);
    }
  }

  // ---------------------------------------------------------------- whole runs

  ghost function After(fs: FL.Fs, story: seq<Chapter>): FL.Fs {
    if story == [] then fs else story[|story| - 1].after
  }

  ghost function Flat(story: seq<Chapter>): seq<LP.Logging> {
    if story == [] then [] else Flat(story[..|story| - 1]) + story[|story| - 1].es
  }

  /** Each operation starts from the file system that the one before it left. */
  ghost predicate StoryOk(l: Layout, fs: FL.Fs, story: seq<Chapter>) {
    forall k :: 0 <= k < |story| ==> ChapterOk(l, After(fs, story[..k]), story[k])
  }

  /** The history of s is the story, and after it the loggings of operations still under way. */
  ghost predicate Told(l: Layout, fs: FL.Fs, s: LP.State, story: seq<Chapter>, tail: seq<LP.Logging>) {
    && StoryOk(l, fs, story) && s.trace == Flat(story) + tail
    && forall t :: 0 <= t < |tail| ==> Outstanding(s, tail[t].op)
  }

  ghost predicate Outstanding(s: LP.State, id: nat) {
    exists j :: 0 <= j < |s.ops| && s.ops[j].id == id
  }

  lemma StoryPrefix(l: Layout, fs: FL.Fs, story: seq<Chapter>, k: nat)
    requires StoryOk(l, fs, story) && k <= |story|
    ensures StoryOk(l, fs, story[..k])
  {
    forall j | 0 <= j < k
      ensures ChapterOk(l, After(fs, story[..k][..j]), story[..k][j])
    {
      assert story[..k][..j] == story[..j];
    }
  }

  lemma {:induction false} ReplayConcat(g: Geometry, base: seq<Block>, a: seq<LP.Logging>, b: seq<LP.Logging>)
    requires |base| == g.nblocks && LP.AllHome(g, a) && LP.AllHome(g, b)
    ensures LP.AllHome(g, a + b) && LP.Replay(g, base, a + b) == LP.Replay(g, LP.Replay(g, base, a), b)
  {
    if b == [] {
      assert a + b == a;
    } else {
      var n := |b| - 1;
      ReplayConcat(g, base, a, b[..n]);
      assert (a + b)[..|a + b| - 1] == a + b[..n];
    }
  }

  /** The blocks after a story hold the file system it ends with. */
  lemma {:induction false} StoryShows(l: Layout, fs: FL.Fs, story: seq<Chapter>, blocks: seq<Block>)
    requires LayoutOk(l) && GoodFs(l, fs) && Shows(l, fs, blocks) && StoryOk(l, fs, story)
    ensures GoodFs(l, After(fs, story)) && LP.AllHome(l.g, Flat(story))
    ensures Shows(l, After(fs, story), LP.Replay(l.g, blocks, Flat(story)))
  {
    if story != [] {
      hide GoodFs, Shows, ChapterOk;
      var n := |story| - 1;
      StoryPrefix(l, fs, story, n);
      StoryShows(l, fs, story[..n], blocks);
      assert ChapterOk(l, After(fs, story[..n]), story[n]);
      ChapterGood(l, After(fs, story[..n]), story[n]);
      ChapterShows(l, After(fs, story[..n]), story[n], LP.Replay(l.g, blocks, Flat(story[..n])));
      ReplayConcat(l.g, blocks, Flat(story[..n]), story[n].es);
    }
  }

  lemma ChapterGood(l: Layout, fs: FL.Fs, ch: Chapter)
    requires ChapterOk(l, fs, ch)
    ensures GoodFs(l, ch.after) && forall t :: 0 <= t < |ch.es| ==> ch.es[t].op == ch.id
  {
  }

  lemma LastChapter(l: Layout, fs: FL.Fs, story: seq<Chapter>)
    requires StoryOk(l, fs, story) && story != []
    ensures var n := |story| - 1;
      && StoryOk(l, fs, story[..n]) && Flat(story) == Flat(story[..n]) + story[n].es
      && forall t :: 0 <= t < |story[n].es| ==> story[n].es[t].op == story[n].id
  {
    var n := |story| - 1;
    StoryPrefix(l, fs, story, n);
    hide ChapterOk;
    ChapterGood(l, After(fs, story[..n]), story[n]);
  }

  /** No operation has loggings before and after place c. */
  ghost predicate Whole(es: seq<LP.Logging>, c: nat) {
    forall i, j :: 0 <= i < c <= j < |es| ==> es[i].op != es[j].op
  }

  lemma NotInside(early: seq<LP.Logging>, es: seq<LP.Logging>, id: nat, c: nat)
    requires Whole(early + es, c) && c < |early| + |es| && forall t :: 0 <= t < |es| ==> es[t].op == id
    ensures c <= |early| && Whole(early, c) && (early + es)[..c] == early[..c]
  {
    var all := early + es;
    assert forall t :: |early| <= t < |all| ==> all[t].op == id;
    assert 0 < c ==> all[c - 1].op != all[c].op;
    forall i, j | 0 <= i < c <= j < |early|
      ensures early[i].op != early[j].op
    {
      assert all[i] == early[i] && all[j] == early[j];
    }
  }

  /** A place in the history that splits no operation is the end of a chapter. */
  lemma {:induction false} Boundary(l: Layout, fs: FL.Fs, story: seq<Chapter>, c: nat) returns (k: nat)
    requires StoryOk(l, fs, story) && c <= |Flat(story)| && Whole(Flat(story), c)
    ensures k <= |story| && Flat(story[..k]) == Flat(story)[..c] && (c == |Flat(story)| ==> k == |story|)
    decreases |story|
  {
    hide StoryOk, Whole;
    if c == |Flat(story)| {
      k := |story|;
      assert story[..k] == story && Flat(story)[..c] == Flat(story);
    } else {
      LastChapter(l, fs, story);
      hide Flat;
      var n := |story| - 1;
      NotInside(Flat(story[..n]), story[n].es, story[n].id, c);
      k := Boundary(l, fs, story[..n], c);
      assert story[..n][..k] == story[..k];
    }
  }

  /** Crash safety of the files. Run any operations, each contiguous in the log and each logging what it changes; stop
      anywhere, crash, let any number of recoveries crash too, then recover: the disk holds the good file system that
      the first k of the operations left, all of them when none is under way. */
  lemma CrashSafe(l: Layout, fs: FL.Fs, base: Image, steps: seq<LP.Step>, story: seq<Chapter>, tail: seq<LP.Logging>,
                  crashes: seq<nat>)
      returns (k: nat)
    requires LayoutOk(l) && LP.FreshDisk(l.g, base) && GoodFs(l, fs) && Shows(l, fs, base.blocks)
    requires LP.ValidRun(l.g, LP.Init(base), steps)
    requires Told(l, fs, LP.Final(l.g, LP.Init(base), steps), story, tail)
    ensures k <= |story| && GoodFs(l, After(fs, story[..k]))
    ensures var s := LP.Final(l.g, LP.Init(base), steps);
      && GoodDisk(l.g, s.disk)
      && (s.phase.Running? && s.ops == [] ==> k == |story|)
      && var d := CrashingRecoveries(l.g, s.disk, crashes);
         var r := ApplyAll(d, RecoveryWrites(l.g, d));
         r.head == [] && Shows(l, After(fs, story[..k]), r.blocks)
  {
    hide GoodFs, ChapterOk;
    var s := LP.Final(l.g, LP.Init(base), steps);
    LP.GroupCommit(l.g, base, steps, crashes);
    var c := s.committed;
    CommittedIsTold(l, fs, s, story, tail);
    k := Boundary(l, fs, story, c);
    StoryPrefix(l, fs, story, k);
    StoryShows(l, fs, story[..k], base.blocks);
    var d := CrashingRecoveries(l.g, s.disk, crashes);
    var r := ApplyAll(d, RecoveryWrites(l.g, d));
    HomeShows(l, After(fs, story[..k]), LP.Replay(l.g, base.blocks, s.trace[..c]), r.blocks);
  }

  /** The same of the running code of log.c, whatever its methods have done so far. */
  lemma DeviceCrashSafe(l: Layout, fs: FL.Fs, log: LD.Log, story: seq<Chapter>, tail: seq<LP.Logging>,
                        crashes: seq<nat>)
      returns (k: nat)
    requires LayoutOk(l) && log.Valid() && log.g == l.g && GoodFs(l, fs) && Shows(l, fs, log.origin.blocks)
    requires Told(l, fs, log.st, story, tail)
    ensures k <= |story| && GoodFs(l, After(fs, story[..k])) && GoodDisk(l.g, log.disk)
    ensures log.st.phase.Running? && log.outstanding == 0 ==> k == |story|
    ensures var d := CrashingRecoveries(l.g, log.disk, crashes);
      Shows(l, After(fs, story[..k]), ApplyAll(d, RecoveryWrites(l.g, d)).blocks)
  {
    hide GoodFs, Shows, Told;
    log.Recovers(crashes);
    k := CrashSafe(l, fs, log.origin, log.run, story, tail, crashes);
  }

  /** After n steps, if no operation is under way, the cache shows a good file system. */
  ghost predicate GoodWhenQuiet(l: Layout, base: Image, steps: seq<LP.Step>, n: nat)
    requires LayoutOk(l) && n <= |steps|
  {
    LP.ValidRun(l.g, LP.Init(base), steps[..n]) && LP.Quiet(LP.Final(l.g, LP.Init(base), steps[..n])) ==>
      exists fs :: GoodFs(l, fs) && Shows(l, fs, LP.Final(l.g, LP.Init(base), steps[..n]).view)
  }

  /** The same for operations that interleave in the log in any way, as long as together they leave a good file
      system whenever none is under way: the recovered disk holds the good file system that the cache showed after n
      steps, at a time when none was under way; and the one it shows now, if none is under way now. */
  lemma CrashSafeInterleaved(l: Layout, base: Image, steps: seq<LP.Step>, crashes: seq<nat>)
      returns (n: nat, fs: FL.Fs)
    requires LayoutOk(l) && LP.FreshDisk(l.g, base) && LP.ValidRun(l.g, LP.Init(base), steps)
    requires forall k :: 0 <= k <= |steps| ==> GoodWhenQuiet(l, base, steps, k)
    ensures n <= |steps| && LP.ValidRun(l.g, LP.Init(base), steps[..n]) && GoodFs(l, fs)
    ensures var q := LP.Final(l.g, LP.Init(base), steps[..n]); LP.Quiet(q) && Shows(l, fs, q.view)
    ensures var s := LP.Final(l.g, LP.Init(base), steps);
      && GoodDisk(l.g, s.disk)
      && (s.phase.Running? && s.ops == [] ==> Shows(l, fs, s.view))
      && var d := CrashingRecoveries(l.g, s.disk, crashes);
         Shows(l, fs, ApplyAll(d, RecoveryWrites(l.g, d)).blocks)
  {
    hide GoodFs, Shows;
    n := LP.QuietRecovery(l.g, base, steps, crashes);
    assert GoodWhenQuiet(l, base, steps, n);
    var view := LP.Final(l.g, LP.Init(base), steps[..n]).view;
    var good :| GoodFs(l, good) && Shows(l, good, view);
    fs := good;
    var s := LP.Final(l.g, LP.Init(base), steps);
    var d := CrashingRecoveries(l.g, s.disk, crashes);
    var r := ApplyAll(d, RecoveryWrites(l.g, d)).blocks;
    HomeShows(l, fs, view, r);
    if s.phase.Running? && s.ops == [] {
      SameHomeBack(l.g, r, s.view);
      HomeShows(l, fs, r, s.view);
    }
  }

  lemma SameHomeBack(g: Geometry, a: seq<Block>, b: seq<Block>)
    requires SameHome(g, a, b)
    ensures SameHome(g, b, a)
  {
  }

  /** What is durable is part of the story. */
  lemma CommittedIsTold(l: Layout, fs: FL.Fs, s: LP.State, story: seq<Chapter>, tail: seq<LP.Logging>)
    requires Told(l, fs, s, story, tail) && LP.WholeOps(s)
    ensures s.committed <= |Flat(story)| && Whole(Flat(story), s.committed)
    ensures s.trace[..s.committed] == Flat(story)[..s.committed] && (s.ops == [] ==> tail == [])
  {
    var c, n := s.committed, |Flat(story)|;
    if tail != [] {
      assert Outstanding(s, tail[0].op);
    }
    assert forall t :: 0 <= t < c ==> !Outstanding(s, s.trace[t].op);
    if n < |s.trace| {
      assert s.trace[n] == tail[0];
    }
    forall i, j | 0 <= i < c <= j < n
      ensures Flat(story)[i].op != Flat(story)[j].op
    {
      assert s.trace[i] == Flat(story)[i] && s.trace[j] == Flat(story)[j];
    }
  }

  lemma HomeShows(l: Layout, fs: FL.Fs, a: seq<Block>, b: seq<Block>)
    requires LayoutOk(l) && Shows(l, fs, a) && SameHome(l.g, b, a)
    ensures Shows(l, fs, b)
  {
    forall x | Placed(l, x)
      ensures ShowsAt(l, fs, b, x)
    {
      PlacedApart(l, x, x);
      assert ShowsAt(l, fs, a, x);
    }
  }

  // ---------------------------------------------------------------- every story can run

  /** One operation has begun and logs: after all of es the log has recorded them in order. */
  lemma {:induction false} LogAll(g: Geometry, origin: Image, run: seq<LP.Step>, s: LP.State, id: nat,
                                  es: seq<LP.Logging>)
      returns (run': seq<LP.Step>, s': LP.State)
    requires LD.Reaches(g, origin, run, s) && s.phase.Running? && |s.ops| == 1 && s.ops[0].id == id && s.lh == []
    requires LP.AllHome(g, es) && |es| <= LOGSIZE && |es| <= g.size - 1
    requires forall t :: 0 <= t < |es| ==> es[t].op == id
    ensures LD.Reaches(g, origin, run', s') && run <= run' && s'.phase.Running? && |s'.ops| == 1 && s'.ops[0].id == id
    ensures |s'.lh| <= |es| && s'.trace == s.trace + es
  {
    if es == [] {
      run', s' := run, s;
      assert s.trace + es == s.trace;
    } else {
      var n := |es| - 1;
      var mid, t := LogAll(g, origin, run, s, id, es[..n]);
      var step := LP.LogWrite(0, es[n].b, es[n].v);
      LD.ReachesInv(g, origin, mid, t);
      LD.ReachesNext(g, origin, mid, t, step);
      run', s' := mid + [step], LP.Do(g, t, step);
      assert es[..n] + [es[n]] == es;
    }
  }

  /** From a state with no operation under way: begin_op, the loggings, end_op and its commit. */
  lemma OperationRuns(g: Geometry, origin: Image, run: seq<LP.Step>, s: LP.State, id: nat, es: seq<LP.Logging>)
      returns (run': seq<LP.Step>, s': LP.State)
    requires LD.Reaches(g, origin, run, s) && s.phase.Running? && s.ops == [] && LP.FreshOp(s, id)
    requires LP.AllHome(g, es) && |es| <= LOGSIZE && |es| <= g.size - 1
    requires forall t :: 0 <= t < |es| ==> es[t].op == id
    ensures LD.Reaches(g, origin, run', s') && run <= run' && s'.phase.Running? && s'.ops == []
    ensures s'.trace == s.trace + es
  {
    hide LD.Reaches;
    QuietIsEmpty(g, origin, run, s);
    LD.ReachesNext(g, origin, run, s, LP.Begin(id));
    var begun, s1 := run + [LP.Begin(id)], LP.Do(g, s, LP.Begin(id));
    var logged, s2 := LogAll(g, origin, begun, s1, id, es);
    LD.ReachesInv(g, origin, logged, s2);
    LD.ReachesNext(g, origin, logged, s2, LP.End(0));
    var ended, s3 := logged + [LP.End(0)], LP.Do(g, s2, LP.End(0));
    run', s' := CommitRuns(g, origin, ended, s3);
  }

  lemma QuietIsEmpty(g: Geometry, origin: Image, run: seq<LP.Step>, s: LP.State)
    requires LD.Reaches(g, origin, run, s) && s.phase.Running? && s.ops == []
    ensures s.lh == []
  {
    LP.InitInv(g, origin);
    LP.RunKeepsInv(g, origin, LP.Init(origin), run);
  }

  lemma CommitRuns(g: Geometry, origin: Image, run: seq<LP.Step>, s: LP.State)
      returns (run': seq<LP.Step>, s': LP.State)
    requires LD.Reaches(g, origin, run, s) && s.phase.Commit? && s.phase.k == 0 && s.phase.from == s.disk
    ensures LD.Reaches(g, origin, run', s') && run <= run' && s'.phase.Running?
    ensures s'.ops == s.ops && s'.trace == s.trace
  {
    LD.ReachesInv(g, origin, run, s);
    var n := |LP.PhaseWrites(g, s)|;
    LD.CommitRun(g, origin, run, s, n);
    var mid, t := run + LD.Times(LP.CommitWrite, n), LD.AfterWrites(g, s, n);
    LD.ReachesInv(g, origin, mid, t);
    assert LP.PhaseWrites(g, t) == LP.PhaseWrites(g, s);
    LD.ReachesNext(g, origin, mid, t, LP.CommitDone);
    run', s' := mid + [LP.CommitDone], LP.Do(g, t, LP.CommitDone);
  }

  /** A story told so far and one more operation, of an id not used before and no more loggings than the log has room:
      there is a run that tells it. */
  lemma StoryGoesOn(l: Layout, fs: FL.Fs, origin: Image, run: seq<LP.Step>, s: LP.State, story: seq<Chapter>,
                    ch: Chapter)
      returns (run': seq<LP.Step>, s': LP.State)
    requires LD.Reaches(l.g, origin, run, s) && s.phase.Running? && s.ops == [] && LP.FreshOp(s, ch.id)
    requires Told(l, fs, s, story, []) && ChapterOk(l, After(fs, story), ch)
    requires |ch.es| <= LOGSIZE && |ch.es| <= l.g.size - 1
    ensures LD.Reaches(l.g, origin, run', s') && run <= run' && s'.phase.Running? && s'.ops == []
    ensures Told(l, fs, s', story + [ch], [])
  {
    ChapterHome(l, After(fs, story), ch);
    ChapterGood(l, After(fs, story), ch);
    hide ChapterOk, LD.Reaches, StoryOk, Flat, After;
    run', s' := OperationRuns(l.g, origin, run, s, ch.id, ch.es);
    StoryMore(l, fs, story, ch);
    assert Flat(story) + [] == Flat(story) && Flat(story + [ch]) + [] == Flat(story + [ch]);
  }

  lemma StoryMore(l: Layout, fs: FL.Fs, story: seq<Chapter>, ch: Chapter)
    requires StoryOk(l, fs, story) && ChapterOk(l, After(fs, story), ch)
    ensures StoryOk(l, fs, story + [ch]) && Flat(story + [ch]) == Flat(story) + ch.es
  {
    hide ChapterOk;
    var more := story + [ch];
    assert more[..|story|] == story;
    forall k | 0 <= k < |more|
      ensures ChapterOk(l, After(fs, more[..k]), more[k])
    {
      if k < |story| {
        assert more[..k] == story[..k];
      }
    }
  }

  // ---------------------------------------------------------------- writei and itrunc are such operations

  ghost predicate LaidOut(l: Layout, fs: FL.FileSystem)
    reads fs
  {
    && LayoutOk(l) && fs.meta == l.meta && fs.size == l.g.nblocks
    && |fs.bits| == l.nbitmap && |fs.addrs| == l.ninodes
  }

  /** Every logged block once, with what it holds in the end: log_write absorbs, so this is what commit() writes. */
  lemma {:induction false} ListLogged(l: Layout, fs: FL.Fs, id: nat, logged: set<Logged>) returns (es: seq<LP.Logging>)
    requires LayoutOk(l) && Fits(l, fs) && forall x :: x in logged ==> FL.FileBlock(x, fs, l.meta)
    ensures forall t :: 0 <= t < |es| ==> es[t].op == id && IsOneOf(l, logged, es[t].b)
    ensures forall x :: x in logged ==> FL.FileBlock(x, fs, l.meta) && LastIs(es, Where(l, x), Contents(fs, x))
    ensures |es| == |logged|
    decreases |logged|
  {
    if logged == {} {
      es := [];
    } else {
      var y :| y in logged;
      var rest := ListLogged(l, fs, id, logged - {y});
      var e := LP.Logging(id, Where(l, y), Contents(fs, y));
      es := rest + [e];
      forall t | 0 <= t < |es|
        ensures es[t].op == id && IsOneOf(l, logged, es[t].b)
      {
        if t < |rest| {
          assert IsOneOf(l, logged - {y}, rest[t].b);
          var x :| x in logged - {y} && Where(l, x) == rest[t].b;
          assert x in logged && Where(l, x) == es[t].b;
        } else {
          assert y in logged && Where(l, y) == es[t].b;
        }
      }
      forall x | x in logged
        ensures LastIs(es, Where(l, x), Contents(fs, x))
      {
        LastKept(l, fs, rest, e, x, y);
      }
    }
  }

  lemma LastKept(l: Layout, fs: FL.Fs, rest: seq<LP.Logging>, e: LP.Logging, x: Logged, y: Logged)
    requires LayoutOk(l) && Fits(l, fs) && FL.FileBlock(x, fs, l.meta) && FL.FileBlock(y, fs, l.meta)
    requires e.b == Where(l, y) && e.v == Contents(fs, y)
    requires x != y ==> LastIs(rest, Where(l, x), Contents(fs, x))
    ensures LastIs(rest + [e], Where(l, x), Contents(fs, x))
  {
    var es, b, v := rest + [e], Where(l, x), Contents(fs, x);
    LoggedIsPlaced(l, fs, x);
    LoggedIsPlaced(l, fs, y);
    PlacedApart(l, x, y);
    if x == y {
      var t := |rest|;
      assert es[t].b == b && es[t].v == v;
    } else {
      var t :| 0 <= t < |rest| && rest[t].b == b && rest[t].v == v && forall u :: t < u < |rest| ==> rest[u].b != b;
      assert es[t].b == b && es[t].v == v;
    }
  }

  /** What an operation did, as a chapter. */
  lemma AsChapter(l: Layout, was: FL.Fs, now: FL.Fs, id: nat, logged: set<Logged>) returns (ch: Chapter)
    requires LayoutOk(l) && GoodFs(l, was) && GoodFs(l, now) && FL.Covers(was, now, logged, l.meta)
    ensures ch.id == id && ch.logged == logged && ch.after == now && |ch.es| == |logged| && ChapterOk(l, was, ch)
  {
    var es := ListLogged(l, now, id, logged);
    ch := Chapter(id, logged, es, now);
  }

  lemma ValidIsGood(l: Layout, fs: FL.FileSystem)
    requires fs.Valid() && LaidOut(l, fs)
    ensures GoodFs(l, fs.OnDisk()) && forall i :: 0 <= i < l.ninodes ==> File(l, fs.OnDisk(), i) == fs.Bytes(i)
  {
    assert Owned(l, fs.OnDisk(), fs.owner);
  }

  lemma SizeFits(fs: FL.FileSystem, i: nat)
    requires fs.Valid() && i < |fs.addrs|
    ensures fs.sizes[i] <= MAXBYTES
  {
    assert FL.FileOk(fs.addrs[i], fs.data, fs.sizes[i]);
  }

  /** writei between begin_op and end_op is one operation of the story; the file has src written at off, the others are
      as before. It logs the blocks it touches, and with one bitmap block as many as it costs, at most MAXOPBLOCKS for a
      write of up to 3073 bytes; a refused write logs none. A panic means that every block is in use. */
  method WriteOp(fs: FL.FileSystem, ghost l: Layout, ghost id: nat, i: nat, src: seq<Byte>, off: nat)
      returns (ok: bool, r: int, ghost ch: Chapter)
    requires fs.Valid() && LaidOut(l, fs) && i < |fs.addrs| && off < UINT && |src| < UINT
    modifies fs
    ensures ok ==> fs.Valid() && LaidOut(l, fs) && ch.id == id && ch.after == fs.OnDisk() && |ch.es| == |ch.logged|
    ensures ok ==> GoodFs(l, old(fs.OnDisk())) && ChapterOk(l, old(fs.OnDisk()), ch)
    ensures ok && FL.RefusesWrite(old(fs.sizes)[i], off, |src|) ==> ch.es == [] && ch.after == old(fs.OnDisk())
    ensures ok && !FL.RefusesWrite(old(fs.sizes)[i], off, |src|) ==>
      && off <= |old(fs.Bytes(i))| && File(l, ch.after, i) == Written(File(l, old(fs.OnDisk()), i), off, src)
      && (forall j :: 0 <= j < l.ninodes && j != i ==>
            fs.addrs[j] == old(fs.addrs)[j] && File(l, ch.after, j) == File(l, old(fs.OnDisk()), j))
      && off / BSIZE + FL.Touched(off, |src|) <= MAXFILE
      && FL.FileBlockSet(fs.addrs[i], fs.data, off / BSIZE, FL.Touched(off, |src|)) <= ch.logged
    ensures ok && !FL.RefusesWrite(old(fs.sizes)[i], off, |src|) && l.nbitmap == 1 ==>
      |ch.es| == FL.Cost(old(fs.sizes)[i], off, |src|) && (|src| <= 3073 ==> |ch.es| <= MAXOPBLOCKS)
    ensures !ok ==> fs.BlocksOk() && |fs.addrs| == |old(fs.addrs)| && fs.Full()
  {
    hide FL.Cost, FL.FileBlockSet, FL.Touched, FL.Covers, Tree, FL.BitsOk, NoHoles, FL.Trimmed, Content, Written,
         ChapterOk, GoodFs;
    ValidIsGood(l, fs);
    SizeFits(fs, i);
    ghost var was := fs.OnDisk();
    fs.Begin();
    ghost var added;
    ok, r, added := fs.Writei(i, src, off);
    if ok {
      ValidIsGood(l, fs);
      ch := AsChapter(l, was, fs.OnDisk(), id, fs.logged);
      FL.NoneBefore(added);
      if |src| <= 3073 && !FL.RefusesWrite(was.sizes[i], off, |src|) {
        WithinBudget(was.sizes[i], off, |src|);
      }
    } else {
      ch := Chapter(id, {}, [], was);
    }
  }

  lemma WithinBudget(size: nat, off: nat, n: nat)
    requires size <= MAXBYTES && off < UINT && n <= 3073 && !FL.RefusesWrite(size, off, n)
    ensures FL.Cost(size, off, n) <= MAXOPBLOCKS
  {
    FL.RefusalsExact(size, off, n);
    FL.ChunkBudget(n);
    hide FL.Cost;
  }

  /** itrunc between begin_op and end_op is one operation of the story; the file is empty, the others are as before. It
      logs the inode's block and the bitmap blocks of what it frees. */
  method TruncOp(fs: FL.FileSystem, ghost l: Layout, ghost id: nat, i: nat) returns (ok: bool, ghost ch: Chapter)
    requires fs.Valid() && LaidOut(l, fs) && i < |fs.addrs|
    modifies fs
    ensures ok && fs.Valid() && LaidOut(l, fs) && ch.id == id && ch.after == fs.OnDisk()
    ensures GoodFs(l, old(fs.OnDisk())) && ChapterOk(l, old(fs.OnDisk()), ch)
    ensures File(l, ch.after, i) == []
    ensures forall j :: 0 <= j < l.ninodes && j != i ==> File(l, ch.after, j) == File(l, old(fs.OnDisk()), j)
    ensures |ch.es| == |ch.logged| <= 1 + l.nbitmap && (|ch.es| == 1 <==> old(fs.sizes)[i] == 0)
  {
    hide FL.Covers, Tree, FL.BitsOk, FL.FileOk, ChapterOk, GoodFs;
    ValidIsGood(l, fs);
    ghost var was := fs.OnDisk();
    fs.Begin();
    ghost var maps;
    ok, maps := fs.Itrunc(i);
    ValidIsGood(l, fs);
    ch := AsChapter(l, was, fs.OnDisk(), id, fs.logged);
    FL.MapsCount(maps, |fs.bits|);
    TruncLogs(maps, InodeBlock(i / IPB), |fs.bits|);
  }

  lemma TruncLogs(maps: set<Logged>, inode: Logged, n: nat)
    requires maps <= FL.MapBlockSet(n) && inode.InodeBlock?
    ensures |{} + maps + {inode}| == |maps| + 1 && (|maps| == 0 <==> maps == {})
  {
    assert {} + maps + {inode} == maps + {inode};
  }
}
