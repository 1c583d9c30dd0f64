/** The reservation of begin_op in xv6/log.c is as generous as it can be: it lets an operation in exactly if the log
    has room for whatever the operations under way, and the new one, are promised. */
module LogReserve {

  import opened Common
  import opened Disk
  import opened LogFormat
  import opened LogProtocol

  /** The calls of operation i. */
  ghost function Calls(ws: seq<Step>, i: nat): set<nat> {
    set k: nat | k < |ws| && ws[k].LogWrite? && ws[k].i == i
  }

  /** log_writes of blocks not yet in the log, all different, at most MAXOPBLOCKS by each operation. */
  ghost predicate Promised(g: Geometry, s: State, ws: seq<Step>) {
    && Loggings(g, s, ws)
    && (forall k :: 0 <= k < |ws| ==> ws[k].b !in s.lh)
    && (forall j, k :: 0 <= j < k < |ws| ==> ws[j].b != ws[k].b)
    && (forall i: nat :: i < |s.ops| ==> |Calls(ws, i)| <= MAXOPBLOCKS)
  }

  // ---------------------------------------------------------------- counting calls

  /** The calls of the first n operations. */
  ghost function CallsBelow(ws: seq<Step>, n: nat): set<nat> {
    set k: nat | k < |ws| && ws[k].LogWrite? && ws[k].i < n
  }

  lemma {:induction false} CallsBelowCount(ws: seq<Step>, n: nat)
    requires forall i: nat :: i < n ==> |Calls(ws, i)| <= MAXOPBLOCKS
    ensures |CallsBelow(ws, n)| <= n * MAXOPBLOCKS
    decreases n
  {
    if n == 0 {
      assert CallsBelow(ws, n) == {};
    } else {
      CallsBelowCount(ws, n - 1);
      assert CallsBelow(ws, n) == CallsBelow(ws, n - 1) + Calls(ws, n - 1);
    }
  }

  lemma {:induction false} AllBelow(ws: seq<Step>, n: nat)
    requires forall k :: 0 <= k < |ws| ==> ws[k].LogWrite? && ws[k].i < n
    ensures |CallsBelow(ws, n)| == |ws|
    decreases |ws|
  {
    if ws == [] {
      assert CallsBelow(ws, n) == {};
    } else {
      var m := |ws| - 1;
      AllBelow(ws[..m], n);
      assert CallsBelow(ws, n) == CallsBelow(ws[..m], n) + {m};
    }
  }

  lemma PromisedCount(g: Geometry, s: State, ws: seq<Step>)
    requires Promised(g, s, ws)
    ensures |ws| <= |s.ops| * MAXOPBLOCKS
  {
    CallsBelowCount(ws, |s.ops|);
    AllBelow(ws, |s.ops|);
  }

  lemma NamedLast(ws: seq<Step>)
    requires ws != [] && ws[|ws| - 1].LogWrite?
    ensures Named(ws) == Named(ws[..|ws| - 1]) + {ws[|ws| - 1].b as int}
  {
    var n := |ws| - 1;
    forall x | x in Named(ws)
      ensures x in Named(ws[..n]) + {ws[n].b as int}
    {
      var k :| 0 <= k < |ws| && ws[k].LogWrite? && ws[k].b == x;
      if k < n { assert ws[..n][k] == ws[k]; }
    }
    forall x | x in Named(ws[..n])
      ensures x in Named(ws)
    {
      var k :| 0 <= k < n && ws[..n][k].LogWrite? && ws[..n][k].b == x;
      assert ws[k] == ws[..n][k];
    }
  }

  lemma {:induction false} NamedCount(ws: seq<Step>)
    requires forall k :: 0 <= k < |ws| ==> ws[k].LogWrite?
    ensures |Named(ws)| <= |ws|
    ensures (forall j, k :: 0 <= j < k < |ws| ==> ws[j].b != ws[k].b) ==> |Named(ws)| == |ws|
    decreases |ws|
  {
    if ws == [] {
      NamedNone(ws);
    } else {
      var n := |ws| - 1;
      NamedCount(ws[..n]);
      NamedLast(ws);
      if forall j, k :: 0 <= j < k < |ws| ==> ws[j].b != ws[k].b { assert ws[n].b !in Named(ws[..n]); }
    }
  }

  lemma UnionCount(a: set<int>, b: set<int>)
    ensures |a + b| <= |a| + |b| && (a !! b ==> |a + b| == |a| + |b|)
  {
    assert a + b == a + (b - a);
    SubsetCount(b - a, b);
    if a !! b { assert b - a == b; }
  }

  // ---------------------------------------------------------------- what is promised fits

  lemma PromisedRuns(g: Geometry, s: State, ws: seq<Step>)
    requires Distinct(s.lh) && LOGSIZE < g.size && |s.lh| + |s.ops| * MAXOPBLOCKS <= LOGSIZE && Promised(g, s, ws)
    ensures ValidRun(g, s, ws)
  {
    hide Do, Enabled, ValidRun, Distinct, Entries, Named;
    LoggingsExact(g, s, ws);
    if ws != [] {
      PromisedCount(g, s, ws);
      EntriesCount(s.lh);
      NamedCount(ws[..|ws| - 1]);
      UnionCount(Entries(s.lh), Named(ws[..|ws| - 1]));
    }
  }

  // ---------------------------------------------------------------- more does not

  ghost function Homes(g: Geometry): set<int> {
    set b | 0 <= b < g.nblocks && Home(g, b)
  }

  lemma {:induction false} EntriesAtMost(bs: seq<int>)
    ensures |Entries(bs)| <= |bs|
  {
    if bs != [] {
      var n := |bs| - 1;
      EntriesAtMost(bs[..n]);
      assert bs == bs[..n] + [bs[n]];
      assert Entries(bs) == Entries(bs[..n]) + {bs[n]};
    }
  }

  /** Some m blocks that are not in the log yet. */
  lemma {:induction false} NewBlocks(g: Geometry, lh: seq<int>, m: nat) returns (bs: seq<int>)
    requires m + |lh| <= |Homes(g)|
    ensures |bs| == m && (forall k :: 0 <= k < m ==> Home(g, bs[k]) && bs[k] !in lh)
    ensures forall j, k :: 0 <= j < k < m ==> bs[j] != bs[k]
    decreases m
  {
    if m == 0 {
      bs := [];
    } else {
      bs := NewBlocks(g, lh, m - 1);
      EntriesAtMost(bs + lh);
      if Homes(g) <= Entries(bs + lh) { SubsetCount(Homes(g), Entries(bs + lh)); }
      var b :| b in Homes(g) && b !in Entries(bs + lh);
      assert b !in bs && b !in lh;
      bs := bs + [b];
    }
  }

  /** The blocks shared out, MAXOPBLOCKS to each operation. */
  function Shared(bs: seq<int>): (ws: seq<Step>)
    requires forall k :: 0 <= k < |bs| ==> bs[k] >= 0
    ensures |ws| == |bs|
  {
    seq(|bs|, k requires 0 <= k < |bs| => LogWrite(k / MAXOPBLOCKS, bs[k], []))
  }

  lemma SharedCalls(bs: seq<int>, i: nat)
    requires forall k :: 0 <= k < |bs| ==> bs[k] >= 0
    ensures |Calls(Shared(bs), i)| <= MAXOPBLOCKS
  {
    var lo := i * MAXOPBLOCKS;
    forall k | k in Calls(Shared(bs), i)
      ensures lo <= k < lo + MAXOPBLOCKS
    {
    }
    RangeCount(Calls(Shared(bs), i), lo, MAXOPBLOCKS);
  }

  lemma {:induction false} RangeCount(a: set<nat>, lo: nat, n: nat)
    requires forall k :: k in a ==> lo <= k < lo + n
    ensures |a| <= n
    decreases n
  {
    if n == 0 {
      assert a == {};
    } else {
      RangeCount(a - {lo + n - 1}, lo, n - 1);
    }
  }

  lemma SharedPromised(g: Geometry, s: State, bs: seq<int>)
    requires |bs| <= |s.ops| * MAXOPBLOCKS && |s.view| == g.nblocks
    requires forall k :: 0 <= k < |bs| ==> bs[k] >= 0 && Home(g, bs[k])
    ensures Loggings(g, s, Shared(bs))
  {
    forall k | 0 <= k < |bs|
      ensures k / MAXOPBLOCKS < |s.ops|
    {
    }
  }

  lemma NamedApart(lh: seq<int>, ws: seq<Step>)
    requires forall k :: 0 <= k < |ws| ==> ws[k].LogWrite? && ws[k].b !in lh
    ensures Entries(lh) !! Named(ws)
  {
  }

  /** Where begin_op's sum is too large, some of what is promised makes log_write panic. */
  lemma PromiseBreaks(g: Geometry, s: State) returns (ws: seq<Step>)
    requires Distinct(s.lh) && LOGSIZE < g.size && |s.lh| <= LOGSIZE < |s.lh| + |s.ops| * MAXOPBLOCKS
    requires LOGSIZE < |Homes(g)| && |s.view| == g.nblocks
    ensures Promised(g, s, ws) && !ValidRun(g, s, ws)
  {
    hide Do, Enabled, ValidRun, Distinct, Entries, Named;
    var m := LOGSIZE + 1 - |s.lh|;
    var bs := NewBlocks(g, s.lh, m);
    ws := Shared(bs);
    forall i: nat | i < |s.ops|
      ensures |Calls(ws, i)| <= MAXOPBLOCKS
    {
      SharedCalls(bs, i);
    }
    SharedPromised(g, s, bs);
    LoggingsExact(g, s, ws);
    var but := ws[..m - 1];
    EntriesCount(s.lh);
    NamedCount(but);
    NamedApart(s.lh, but);
    UnionCount(Entries(s.lh), Named(but));
  }

  /** begin_op, on a log with more than LOGSIZE blocks: what it lets in is safe, and on a disk with more than LOGSIZE
      blocks outside the log it turns an operation away only if a commit is under way or some log_writes within the
      promise, by the operations under way and the new one, would panic. */
  lemma ReservationGenerous(g: Geometry, s: State, id: nat)
    requires Distinct(s.lh) && LOGSIZE < g.size && |s.lh| <= LOGSIZE && |s.view| == g.nblocks
    ensures var s' := s.(ops := s.ops + [Op(id, 0)]);
      && (MayBegin(s) ==> forall ws :: Promised(g, s', ws) ==> ValidRun(g, s', ws))
      && (LOGSIZE < |Homes(g)| ==>
            (MayBegin(s) <==> s.phase.Running? && forall ws :: Promised(g, s', ws) ==> ValidRun(g, s', ws)))
  {
    hide Promised, ValidRun, Distinct;
    var s' := s.(ops := s.ops + [Op(id, 0)]);
    if MayBegin(s) {
      forall ws | Promised(g, s', ws)
        ensures ValidRun(g, s', ws)
      {
        PromisedRuns(g, s', ws);
      }
    } else if s.phase.Running? && LOGSIZE < |Homes(g)| {
      var ws := PromiseBreaks(g, s');
    }
  }

  lemma TakenOut(ops: seq<Op>, i: nat)
    requires i < |ops|
    ensures multiset(ops[..i] + ops[i + 1..]) == multiset(ops) - multiset{ops[i]}
  {
    assert ops == ops[..i] + ([ops[i]] + ops[i + 1..]);
  }

  /** end_op takes the one operation out that ends; the log does not change. */
  lemma EndTakesOut(g: Geometry, s: State, i: nat)
    requires Enabled(g, s, End(i))
    ensures var s' := Do(g, s, End(i));
      && multiset(s'.ops) == multiset(s.ops) - multiset{s.ops[i]} && s'.lh == s.lh && s'.disk == s.disk
      && (s'.phase.Commit? <==> |s.ops| == 1 || s.phase.Commit?)
  {
    TakenOut(s.ops, i);
  }
}
