/** xv6/bio.c as it is: a doubly linked ring of buffers through prev and next, scanned and
    relinked in place, over the in-memory disk of xv6/memide.c. */
module BufferRing {
  import opened BufferCache

  const NBUF: nat := 30

  // ---------------------------------------------------------------- the ring as a value

  /** The node at place k of the ring: the head, then the buffers in order. */
  function Node(order: seq<nat>, head: nat, k: nat): (b: nat)
    requires k <= |order|
  {
    if k == 0 then head else order[k - 1]
  }

  function After(k: nat, n: nat): (j: nat)
    requires k <= n
    ensures j <= n
  {
    if k == n then 0 else k + 1
  }

  /** Place k and the next one point at each other. */
  ghost predicate LinkAt(next: map<nat, nat>, prev: map<nat, nat>, order: seq<nat>, head: nat, k: nat)
    requires k <= |order|
  {
    var a, b := Node(order, head, k), Node(order, head, After(k, |order|));
    a in next && next[a] == b && b in prev && prev[b] == a
  }

  ghost predicate Linked(next: map<nat, nat>, prev: map<nat, nat>, order: seq<nat>, head: nat) {
    forall k: nat :: k <= |order| ==> LinkAt(next, prev, order, head, k)
  }

  ghost predicate DistinctNodes(order: seq<nat>, head: nat) {
    forall k :: 0 <= k < |order| ==> order[k] != head && Place(order, order[k]) == k
  }

  ghost function Removed(order: seq<nat>, k: nat): (r: seq<nat>)
    requires k < |order|
  {
    seq(|order| - 1, j requires 0 <= j < |order| - 1 => if j < k then order[j] else order[j + 1])
  }

  ghost function Pushed(order: seq<nat>, b: nat): (r: seq<nat>) {
    seq(|order| + 1, j requires 0 <= j < |order| + 1 => if j == 0 then b else order[j - 1])
  }

  lemma NodesDiffer(order: seq<nat>, head: nat, i: nat, j: nat)
    requires DistinctNodes(order, head) && i <= |order| && j <= |order| && i != j
    ensures Node(order, head, i) != Node(order, head, j)
  {
    if i > 0 { assert Place(order, order[i - 1]) == i - 1; }
    if j > 0 { assert Place(order, order[j - 1]) == j - 1; }
  }

  /** Taking the buffer at place k + 1 out of the ring. */
  lemma UnlinkAt(next: map<nat, nat>, prev: map<nat, nat>, order: seq<nat>, head: nat, k: nat, j: nat)
    requires Linked(next, prev, order, head) && DistinctNodes(order, head) && k < |order| && j < |order|
    ensures LinkAt(next, prev, order, head, k) && LinkAt(next, prev, order, head, k + 1)
    ensures var b := order[k];
            LinkAt(next[prev[b] := next[b]], prev[next[b] := prev[b]], Removed(order, k), head, j)
  {
    var n, b, r := |order|, order[k], Removed(order, k);
    assert LinkAt(next, prev, order, head, k) && LinkAt(next, prev, order, head, k + 1);
    var i := if j <= k then j else j + 1;       // place in the old ring
    assert Node(r, head, j) == Node(order, head, i);
    if j != k {
      assert LinkAt(next, prev, order, head, i);
      NodesDiffer(order, head, i, k);
      if After(i, n) != After(k + 1, n) { NodesDiffer(order, head, After(i, n), After(k + 1, n)); }
    }
  }

  lemma Unlink(next: map<nat, nat>, prev: map<nat, nat>, order: seq<nat>, head: nat, k: nat)
    requires Linked(next, prev, order, head) && DistinctNodes(order, head) && k < |order|
    ensures LinkAt(next, prev, order, head, k) && LinkAt(next, prev, order, head, k + 1)
    ensures var b := order[k];
            Linked(next[prev[b] := next[b]], prev[next[b] := prev[b]], Removed(order, k), head)
  {
    assert LinkAt(next, prev, order, head, k) && LinkAt(next, prev, order, head, k + 1);
    var b := order[k];
    var next', prev', r := next[prev[b] := next[b]], prev[next[b] := prev[b]], Removed(order, k);
    forall j: nat | j <= |r|
      ensures LinkAt(next', prev', r, head, j)
    {
      UnlinkAt(next, prev, order, head, k, j);
    }
  }

  /** Putting a buffer right after the head. */
  lemma Push(next: map<nat, nat>, prev: map<nat, nat>, order: seq<nat>, head: nat, b: nat)
    requires Linked(next, prev, order, head) && DistinctNodes(order, head) && b !in order && b != head
    ensures head in next && next[head] in prev
    ensures Linked(next[b := next[head]][head := b], prev[b := head][next[head] := b], Pushed(order, b), head)
  {
    assert LinkAt(next, prev, order, head, 0);
    var next', prev', r := next[b := next[head]][head := b], prev[b := head][next[head] := b], Pushed(order, b);
    forall j: nat | j <= |r|
      ensures LinkAt(next', prev', r, head, j)
    {
      if j > 1 {
        assert LinkAt(next, prev, order, head, j - 1);
        NodesDiffer(order, head, j - 1, 0);
      }
    }
  }

  // ---------------------------------------------------------------- bio.c

  datatype Outcome = Ready | Asleep | Panic

  lemma PermutationDistinct(order: seq<nat>, n: nat)
    requires Permutation(order, n)
    ensures DistinctNodes(order, n)
  {
  }

  class BCache {
    var bufs: seq<Buf>
    var next: map<nat, nat>     // links of the buffers and of the head, node NBUF
    var prev: map<nat, nat>
    var disk: seq<Data>
    ghost var order: seq<nat>
    ghost var touched: set<nat>

    ghost function Abs(): (s: State)
      reads this
    {
      State(bufs, order, disk, touched)
    }

    ghost predicate Valid()
      reads this
    {
      |bufs| == NBUF && Inv(Abs()) && Linked(next, prev, order, NBUF)
    }

    /** binit() */
    constructor (disk: seq<Data>)
      ensures Valid() && Abs() == Init(NBUF, disk)
    {
      this.disk, touched := disk, {};
      var bs: seq<Buf> := [];
      var nx: map<nat, nat>, pv: map<nat, nat> := map[NBUF := NBUF], map[NBUF := NBUF];
      ghost var ord: seq<nat> := [];
      var b := 0;
      while b < NBUF
        invariant 0 <= b <= NBUF && |bs| == b && bs == seq(b, _ => Buf(NODEV, 0, false, false, false, []))
        invariant ord == seq(b, k requires 0 <= k < b => b - 1 - k)
        invariant Linked(nx, pv, ord, NBUF)
      {
        Push(nx, pv, ord, NBUF, b);
        nx := nx[b := nx[NBUF]];
        pv := pv[b := NBUF];
        bs := bs + [Buf(NODEV, 0, false, false, false, [])];
        pv := pv[nx[NBUF] := b];
        nx := nx[NBUF := b];
        ord := Pushed(ord, b);
        b := b + 1;
      }
      bufs, next, prev, order := bs, nx, pv, ord;
      new;
      InitShows(NBUF, disk);
    }

    /** The first loop of bget: the block's own buffer, if there is one. */
    method FindCached(dev: int, blockno: nat) returns (b: nat)
      requires Valid()
      ensures b <= NBUF && (b < NBUF ==> Is(bufs[b], dev, blockno))
      ensures b == NBUF ==> !Cached(bufs, dev, blockno)
    {
      ghost var k := 1;
      assert LinkAt(next, prev, order, NBUF, 0);
      PermutationDistinct(order, NBUF);
      b := next[NBUF];
      while b != NBUF
        invariant 1 <= k <= NBUF + 1 && b == Node(order, NBUF, if k == NBUF + 1 then 0 else k)
        invariant forall j :: 0 <= j < k - 1 ==> !Is(bufs[order[j]], dev, blockno)
        decreases NBUF + 1 - k
      {
        if Is(bufs[b], dev, blockno) { return; }
        assert LinkAt(next, prev, order, NBUF, k);
        b, k := next[b], k + 1;
      }
      forall i | 0 <= i < |bufs|
        ensures !Is(bufs[i], dev, blockno)
      {
        assert order[Place(order, i)] == i;
      }
    }

    /** The second loop of bget, from the other end: the least recently used buffer that is idle and clean. */
    method FindVictim() returns (b: nat)
      requires Valid()
      ensures b <= NBUF
      ensures b < NBUF ==> && Recyclable(bufs[b]) && b in order
                           && forall k :: Place(order, b) < k < NBUF ==> !Recyclable(bufs[order[k]])
      ensures b == NBUF ==> forall i :: 0 <= i < |bufs| ==> !Recyclable(bufs[i])
    {
      ghost var k := NBUF;
      assert LinkAt(next, prev, order, NBUF, NBUF);
      PermutationDistinct(order, NBUF);
      b := prev[NBUF];
      while b != NBUF
        invariant 0 <= k <= NBUF && b == Node(order, NBUF, k)
        invariant forall j :: k <= j < NBUF ==> !Recyclable(bufs[order[j]])
        decreases k
      {
        if Recyclable(bufs[b]) {
          assert Place(order, order[k - 1]) == k - 1;
          return;
        }
        assert LinkAt(next, prev, order, NBUF, k - 1);
        b, k := prev[b], k - 1;
      }
      forall i | 0 <= i < |bufs|
        ensures !Recyclable(bufs[i])
      {
        assert order[Place(order, i)] == i;
      }
    }

    /** bget(): sleep on a busy buffer, take an idle one, or recycle. */
    method Bget(dev: int, blockno: nat) returns (g: Got)
      requires Valid() && dev != NODEV
      modifies this`bufs
      ensures BgetFinds(old(Abs()), dev, blockno, g)
      ensures match g
              case Hit(i) => bufs == old(bufs)[i := old(bufs)[i].(busy := true)]
              case Recycle(i) => bufs == old(bufs)[i := Buf(dev, blockno, true, false, false, old(bufs)[i].data)]
              case _ => bufs == old(bufs)
    {
      var b := FindCached(dev, blockno);
      if b != NBUF {
        if bufs[b].busy { return Wait(b); }
        bufs := bufs[b := bufs[b].(busy := true)];
        return Hit(b);
      }
      b := FindVictim();
      if b != NBUF {
        bufs := bufs[b := Buf(dev, blockno, true, false, false, bufs[b].data)];
        return Recycle(b);
      }
      g := NoBuffers;
    }

    /** iderw() of memide.c: sync a busy buffer with the disk. */
    method Iderw(i: nat) returns (ok: bool)
      requires i < |bufs|
      modifies this`bufs, this`disk
      ensures ok == (old(bufs)[i].busy && (old(bufs)[i].dirty || !old(bufs)[i].valid)
                     && old(bufs)[i].dev == DISK && old(bufs)[i].blockno < |old(disk)|)
      ensures !ok ==> bufs == old(bufs) && disk == old(disk)
      ensures ok ==>
        var b := old(bufs)[i];
        if b.dirty then
          disk == old(disk)[b.blockno := b.data] && bufs == old(bufs)[i := b.(dirty := false, valid := true)]
        else disk == old(disk) && bufs == old(bufs)[i := b.(data := disk[b.blockno], valid := true)]
    {
      var b := bufs[i];
      if !b.busy || (b.valid && !b.dirty) || b.dev != DISK || b.blockno >= |disk| { return false; }
      if b.dirty {
        b := b.(dirty := false);
        disk := disk[b.blockno := b.data];
      } else {
        b := b.(data := disk[b.blockno]);
      }
      bufs := bufs[i := b.(valid := true)];
      ok := true;
    }

    /** bread(): a busy buffer with the latest contents of the block. */
    method Bread(dev: int, blockno: nat) returns (r: Outcome, i: nat, ghost g: Got)
      requires Valid() && dev != NODEV
      modifies this`bufs, this`disk
      ensures BgetFinds(old(Abs()), dev, blockno, g)
      ensures r == Ready ==>
        var step := Read(dev, blockno, g);
        && Enabled(old(Abs()), step) && Abs() == Do(old(Abs()), step) && i == g.i && Valid()
        && blockno < |disk| && bufs[i].data == View(old(Abs()), blockno)
      ensures r == Asleep ==> g.Wait? && bufs == old(bufs) && disk == old(disk)
      ensures r == Panic <==> g.NoBuffers? || (g.Recycle? && !OnDisk(old(Abs()), dev, blockno))
    {
      ghost var s := Abs();
      var got := Bget(dev, blockno);
      g := got;
      i := 0;
      match got
      case Wait(_) => r := Asleep;
      case NoBuffers => r := Panic;
      case Hit(b) =>
        assert BufOk(s, b);
        StepRefines(s, Plain(s), Read(dev, blockno, g));
        r, i := Ready, b;
      case Recycle(b) =>
        var ok := Iderw(b);
        if ok {
          StepRefines(s, Plain(s), Read(dev, blockno, g));
        }
        r, i := if ok then Ready else Panic, b;
    }

    /** bwrite() */
    method BwriteBuf(i: nat) returns (r: Outcome)
      requires Valid() && i < NBUF
      modifies this`bufs, this`disk, this`touched
      ensures Valid()
      ensures r == if old(bufs)[i].busy then Ready else Panic
      ensures r == Ready ==> Enabled(old(Abs()), Write(i)) && Abs() == Do(old(Abs()), Write(i))
      ensures r == Panic ==> Abs() == old(Abs())
    {
      if !bufs[i].busy { return Panic; }
      ghost var s := Abs();
      assert BufOk(s, i);
      StepRefines(s, Plain(s), Write(i));
      bufs := bufs[i := bufs[i].(dirty := true)];
      var ok := Iderw(i);
      touched := touched - {i};
      assert Abs() == Do(s, Write(i));
      r := Ready;
    }

    /** brelse(): unlink the buffer and put it in front, then mark it free. */
    method BrelseBuf(i: nat) returns (r: Outcome)
      requires Valid() && i < NBUF && i !in touched
      modifies this`bufs, this`next, this`prev, this`order
      ensures Valid()
      ensures r == if old(bufs)[i].busy then Ready else Panic
      ensures r == Ready ==> Enabled(old(Abs()), Release(i)) && Abs() == Do(old(Abs()), Release(i))
      ensures r == Panic ==> Abs() == old(Abs())
    {
      if !bufs[i].busy { return Panic; }
      ghost var s, k := Abs(), Place(order, i);
      StepRefines(s, Plain(s), Release(i));
      PermutationDistinct(order, NBUF);
      RemovedDistinct(order, NBUF, k);
      Unlink(next, prev, order, NBUF, k);
      prev := prev[next[i] := prev[i]];
      next := next[prev[i] := next[i]];
      Push(next, prev, Removed(order, k), NBUF, i);
      next := next[i := next[NBUF]];
      prev := prev[i := NBUF];
      prev := prev[next[NBUF] := i];
      next := next[NBUF := i];
      order := MoveFront(order, k);
      assert order == Pushed(Removed(s.order, k), i);
      bufs := bufs[i := bufs[i].(busy := false)];
      r := Ready;
    }
  }

  lemma RemovedDistinct(order: seq<nat>, head: nat, k: nat)
    requires DistinctNodes(order, head) && k < |order|
    ensures DistinctNodes(Removed(order, k), head) && order[k] !in Removed(order, k)
  {
    var r := Removed(order, k);
    forall j | 0 <= j < |r|
      ensures r[j] != order[k] && Place(r, r[j]) == j
    {
      var q := Place(r, r[j]);
      var x, y := if q < k then q else q + 1, if j < k then j else j + 1;
      assert order[x] == order[y];
      assert Place(order, order[x]) == x && Place(order, order[y]) == y && Place(order, order[k]) == k;
    }
  }
}
