/** The list of buffers in xv6/bio.c over whole runs: it is in order of last release, and bget recycles the clean idle
    buffer whose last release is longest ago. */
module BufferOrder {

  import opened Common
  import opened BufferCache

  // ---------------------------------------------------------------- one release

  /** Where a buffer stands after the one at place k was moved to the front. */
  lemma MovedPlace(order: seq<nat>, k: nat, x: nat)
    requires Permutation(order, |order|) && k < |order| && x < |order|
    ensures var (p, r) := (Place(order, x), MoveFront(order, k));
      x in r && Place(r, x) == if p == k then 0 else if p < k then p + 1 else p
  {
    var (p, r) := (Place(order, x), MoveFront(order, k));
    var q := if p == k then 0 else if p < k then p + 1 else p;
    MoveFrontPermutes(order, k);
    assert r[q] == x;
  }

  /** brelse puts the buffer in front and leaves the others as they stood to each other. */
  lemma ReleaseOrders(s: State, i: nat, x: nat, y: nat)
    requires Inv(s) && i < |s.bufs| && i in s.order && x < |s.bufs| && y < |s.bufs|
    ensures var r := Brelse(s, i).order;
      && i in r && x in r && y in r && x in s.order && y in s.order && Place(r, i) == 0 && (x != i ==> Place(r, x) > 0)
      && (x != i && y != i ==> (Place(r, x) < Place(r, y) <==> Place(s.order, x) < Place(s.order, y)))
  {
    hide MoveFront;
    var k := Place(s.order, i);
    MovedPlace(s.order, k, i);
    MovedPlace(s.order, k, x);
    MovedPlace(s.order, k, y);
  }

  // ---------------------------------------------------------------- runs

  /** The step of a run at which a buffer was last released; -1 if it never was. */
  function LastRelease(steps: seq<Step>, i: nat): (k: int)
    ensures -1 <= k < |steps|
    decreases |steps|
  {
    if steps == [] then -1
    else
      var n := |steps| - 1;
      if steps[n].Release? && steps[n].i == i then n else LastRelease(steps[..n], i)
  }

  /** That is where it was released, and not since. */
  lemma {:induction false} LastReleaseExact(steps: seq<Step>, i: nat, k: int)
    requires -1 <= k < |steps|
    ensures k == LastRelease(steps, i) <==>
      (k >= 0 ==> steps[k] == Release(i)) && forall m :: k < m < |steps| ==> steps[m] != Release(i)
    decreases |steps|
  {
    if steps != [] && steps[|steps| - 1] != Release(i) && k < |steps| - 1 {
      LastReleaseExact(steps[..|steps| - 1], i, k);
    }
  }

  /** x was released after y; of two that never were, binit put the one with the higher number in front. */
  predicate LaterUsed(steps: seq<Step>, x: nat, y: nat) {
    var (a, b) := (LastRelease(steps, x), LastRelease(steps, y));
    a > b || (a == b == -1 && x > y)
  }

  lemma {:induction false} RunSnoc(s: State, steps: seq<Step>, step: Step)
    ensures ValidRun(s, steps + [step]) <==> ValidRun(s, steps) && Enabled(Final(s, steps), step)
    ensures ValidRun(s, steps + [step]) ==> Final(s, steps + [step]) == Do(Final(s, steps), step)
    decreases |steps|
  {
    hide Enabled, Do;
    var all := steps + [step];
    if steps == [] {
      assert all == [step] && all[1..] == [];
    } else {
      assert all[0] == steps[0] && all[1..] == steps[1..] + [step];
      if Enabled(s, steps[0]) { RunSnoc(Do(s, steps[0]), steps[1..], step); }
    }
  }

  /** x stands before y. */
  ghost predicate InFront(order: seq<nat>, x: nat, y: nat) {
    x in order && y in order && Place(order, x) < Place(order, y)
  }

  lemma StepOrders(s: State, step: Step, steps: seq<Step>, x: nat, y: nat)
    requires Inv(s) && Enabled(s, step) && x < |s.bufs| && y < |s.bufs| && x != y
    requires InFront(s.order, x, y) <==> LaterUsed(steps, x, y)
    ensures InFront(Do(s, step).order, x, y) <==> LaterUsed(steps + [step], x, y)
  {
    var all := steps + [step];
    assert all[..|all| - 1] == steps;
    if step.Release? {
      ReleaseOrders(s, step.i, x, y);
      ReleaseOrders(s, step.i, y, x);
      hide MoveFront;
    }
  }

  lemma InitOrders(n: nat, disk: seq<Data>, x: nat, y: nat)
    requires x < n && y < n && x != y
    ensures InFront(Init(n, disk).order, x, y) <==> LaterUsed([], x, y)
  {
    var order := Init(n, disk).order;
    assert order[n - 1 - x] == x && order[n - 1 - y] == y;
  }

  lemma StepInv(s: State, step: Step)
    requires Inv(s) && Enabled(s, step)
    ensures Inv(Do(s, step)) && |Do(s, step).bufs| == |s.bufs|
  {
    hide Inv, Permutation, MoveFront;
    StepRefines(s, Plain(s), step);
  }

  /** In every run the list is in order of last release, the latest first. */
  lemma {:induction false} OrderIsHistory(n: nat, disk: seq<Data>, steps: seq<Step>, x: nat, y: nat)
    requires ValidRun(Init(n, disk), steps) && x < n && y < n && x != y
    ensures var s := Final(Init(n, disk), steps);
      Inv(s) && |s.bufs| == n && (InFront(s.order, x, y) <==> LaterUsed(steps, x, y))
    decreases |steps|
  {
    if steps == [] {
      InitShows(n, disk);
      InitOrders(n, disk, x, y);
    } else {
      var (before, step) := (steps[..|steps| - 1], steps[|steps| - 1]);
      assert before + [step] == steps;
      RunSnoc(Init(n, disk), before, step);
      OrderIsHistory(n, disk, before, x, y);
      hide Init, ValidRun, Final, Inv, InFront, LaterUsed;
      var s := Final(Init(n, disk), before);
      StepOrders(s, step, before, x, y);
      StepInv(s, step);
    }
  }

  lemma RunInv(n: nat, disk: seq<Data>, steps: seq<Step>)
    requires ValidRun(Init(n, disk), steps)
    ensures Inv(Final(Init(n, disk), steps))
  {
    InitShows(n, disk);
    RunRefines(Init(n, disk), disk, steps);
  }

  /** The last in the list, seen as the oldest. */
  lemma OldestLast(s: State, steps: seq<Step>, i: nat)
    requires Inv(s) && i < |s.bufs|
    requires forall j: nat :: j < |s.bufs| && j != i ==> (InFront(s.order, j, i) <==> LaterUsed(steps, j, i))
    ensures i in s.order
    ensures
      (forall k :: Place(s.order, i) < k < |s.order| && s.order[k] < |s.bufs| ==> !Recyclable(s.bufs[s.order[k]])) <==>
      (forall j: nat :: j < |s.bufs| && j != i && Recyclable(s.bufs[j]) ==> LaterUsed(steps, j, i))
  {
    hide LaterUsed, Recyclable;
    var p := Place(s.order, i);
    if forall k :: p < k < |s.order| && s.order[k] < |s.bufs| ==> !Recyclable(s.bufs[s.order[k]]) {
      forall j: nat | j < |s.bufs| && j != i && Recyclable(s.bufs[j])
        ensures LaterUsed(steps, j, i)
      {
        assert s.order[Place(s.order, j)] == j;
      }
    }
    if forall j: nat :: j < |s.bufs| && j != i && Recyclable(s.bufs[j]) ==> LaterUsed(steps, j, i) {
      forall k | p < k < |s.order| && s.order[k] < |s.bufs|
        ensures !Recyclable(s.bufs[s.order[k]])
      {
        assert Place(s.order, s.order[k]) == k;
        assert !InFront(s.order, s.order[k], i);
      }
    }
  }

  lemma {:induction false} RunLength(s: State, steps: seq<Step>)
    requires Inv(s) && ValidRun(s, steps)
    ensures |Final(s, steps).bufs| == |s.bufs|
    decreases |steps|
  {
    if steps != [] {
      StepInv(s, steps[0]);
      RunLength(Do(s, steps[0]), steps[1..]);
    }
  }

  /** In every run bget recycles a buffer exactly if the block is not cached and the buffer is, of the clean idle ones,
      the one whose last release is longest ago; one that was never released counts as oldest. */
  lemma RecyclesOldest(n: nat, disk: seq<Data>, steps: seq<Step>, dev: int, blockno: nat, i: nat)
    requires ValidRun(Init(n, disk), steps)
    ensures var s := Final(Init(n, disk), steps);
      BgetFinds(s, dev, blockno, Recycle(i)) <==>
        && !Cached(s.bufs, dev, blockno) && i < |s.bufs| && Recyclable(s.bufs[i])
        && forall j: nat :: j < |s.bufs| && j != i && Recyclable(s.bufs[j]) ==> LaterUsed(steps, j, i)
  {
    var s := Final(Init(n, disk), steps);
    RunInv(n, disk, steps);
    InitShows(n, disk);
    RunLength(Init(n, disk), steps);
    if i < n {
      forall j: nat | j < n && j != i
        ensures InFront(s.order, j, i) <==> LaterUsed(steps, j, i)
      {
        OrderIsHistory(n, disk, steps, j, i);
      }
      hide ValidRun, Final, LaterUsed, Cached;
      OldestLast(s, steps, i);
    }
  }
}
