/** Preheaders (cc/loops.py:1358-1411): a block in front of each loop header, on
    the recorded edges.  New blocks are numbered behind the old ones. */
module Preheaders {
  import opened Cfg
  import opened Dominance
  import opened NaturalLoops

  // ----- One preheader -----

  function NonLatch(ps: seq<int>, latches: set<int>): seq<int> {
    if ps == [] then [] else (if ps[0] in latches then [] else [ps[0]]) + NonLatch(ps[1..], latches)
  }

  function LatchOnly(ps: seq<int>, latches: set<int>): seq<int> {
    if ps == [] then [] else (if ps[0] in latches then [ps[0]] else []) + LatchOnly(ps[1..], latches)
  }

  lemma {:induction false} FilterMembers(ps: seq<int>, latches: set<int>, p: int)
    ensures p in NonLatch(ps, latches) <==> p in ps && p !in latches
    ensures p in LatchOnly(ps, latches) <==> p in ps && p in latches
  {
    if ps != [] { FilterMembers(ps[1..], latches, p); }
  }

  function Redirect(targets: seq<int>, from: int, to: int): seq<int> {
    seq(|targets|, i requires 0 <= i < |targets| => if targets[i] == from then to else targets[i])
  }

  lemma RedirectMembers(targets: seq<int>, from: int, to: int, x: int)
    requires from != to
    ensures x in Redirect(targets, from, to) <==> (x in targets && x != from) || (x == to && (from in targets || to in targets))
  {
    var r := Redirect(targets, from, to);
    if x in targets && x != from {
      var i :| 0 <= i < |targets| && targets[i] == x;
      assert r[i] == x;
    }
    if x == to && from in targets {
      var i :| 0 <= i < |targets| && targets[i] == from;
      assert r[i] == x;
    }
    if x == to && to in targets {
      var i :| 0 <= i < |targets| && targets[i] == to;
      assert r[i] == x;
    }
  }

  function SuccessorsWith(g: Graph, header: int, latches: set<int>, i: int): seq<int>
    requires |g.pred| == |g.succ| && 0 <= header < |g.succ| && 0 <= i <= |g.succ|
  {
    if i == |g.succ| then [header]
    else if i in g.pred[header] && i !in latches then Redirect(g.succ[i], header, |g.succ|)
    else g.succ[i]
  }

  function PredecessorsWith(g: Graph, header: int, latches: set<int>, i: int): seq<int>
    requires |g.pred| == |g.succ| && 0 <= header < |g.succ| && 0 <= i <= |g.succ|
  {
    if i == |g.succ| then NonLatch(g.pred[header], latches)
    else if i == header then [|g.succ|] + LatchOnly(g.pred[header], latches)
    else g.pred[i]
  }

  /** The graph in which everything but the latches comes to `header` through a new
      block. */
  function WithPreheader(g: Graph, header: int, latches: set<int>): Graph
    requires |g.pred| == |g.succ| && 0 <= header < |g.succ|
  {
    Graph(seq(|g.succ| + 1, i requires 0 <= i < |g.succ| + 1 => SuccessorsWith(g, header, latches, i)),
          seq(|g.succ| + 1, i requires 0 <= i < |g.succ| + 1 => PredecessorsWith(g, header, latches, i)))
  }

  /** Redirects the edges of the predecessors that are not latches, one by one. */
  method InsertPreheader(g: Graph, header: int, latches: set<int>) returns (r: Graph)
    requires ValidGraph(g) && IsBlock(g, header)
    ensures r == WithPreheader(g, header, latches)
  {
    var succ := g.succ + [[header]];
    var n := |g.succ|;
    for i := 0 to |g.pred[header]|
      invariant |succ| == n + 1 && succ[n] == [header]
      invariant forall b :: 0 <= b < n ==> succ[b] == if b in g.pred[header][..i] && b !in latches then Redirect(g.succ[b], header, n) else g.succ[b]
    {
      var p := g.pred[header][i];
      assert p in g.pred[header];
      if p !in latches {
        RedirectTwice(g.succ[p], header, n);
        succ := succ[p := Redirect(succ[p], header, n)];
      }
      hide Redirect, ValidGraph;
    }
    assert g.pred[header][..|g.pred[header]|] == g.pred[header];
    var pred := g.pred[header := [n] + LatchOnly(g.pred[header], latches)] + [NonLatch(g.pred[header], latches)];
    r := Graph(succ, pred);
    hide Redirect, LatchOnly, NonLatch;
    assert r.succ == WithPreheader(g, header, latches).succ;
    assert r.pred == WithPreheader(g, header, latches).pred;
  }

  lemma RedirectTwice(targets: seq<int>, from: int, to: int)
    requires from != to
    ensures Redirect(Redirect(targets, from, to), from, to) == Redirect(targets, from, to)
  {
  }

  /** The new edge lists match, and no edge is lost or invented. */
  lemma WithPreheaderEdges(g: Graph, header: int, latches: set<int>, i: int, j: int)
    requires ValidGraph(g) && IsBlock(g, header) && 0 <= i <= |g.succ| && 0 <= j <= |g.succ|
    ensures j in SuccessorsWith(g, header, latches, i) <==> i in PredecessorsWith(g, header, latches, j)
    ensures i < |g.succ| && j < |g.succ| && j != header ==> (j in SuccessorsWith(g, header, latches, i) <==> j in g.succ[i])
  {
    if i < |g.succ| { RedirectMembers(g.succ[i], header, |g.succ|, j); }
    FilterMembers(g.pred[header], latches, i);
    hide Redirect, NonLatch, LatchOnly;
  }

  lemma WithPreheaderValid(g: Graph, header: int, latches: set<int>)
    requires ValidGraph(g) && IsBlock(g, header)
    ensures ValidGraph(WithPreheader(g, header, latches))
  {
    var r, n := WithPreheader(g, header, latches), |g.succ|;
    forall i, j | 0 <= i <= n && 0 <= j <= n ensures i in r.pred[j] <==> j in r.succ[i] {
      WithPreheaderEdges(g, header, latches, i, j);
    }
    forall i, j | 0 <= i <= n && j in r.succ[i] ensures 0 <= j <= n {
      if i < n { RedirectMembers(g.succ[i], header, n, j); }
      hide Redirect;
    }
    forall i, j | 0 <= j <= n && i in r.pred[j] ensures 0 <= i <= n {
      FilterMembers(g.pred[header], latches, i);
      hide NonLatch, LatchOnly;
    }
    hide SuccessorsWith, PredecessorsWith;
  }

  // ----- All preheaders -----

  /** What the insertion has done for one loop. */
  ghost predicate LoopServed(g: Graph, loop: Loop, r: Graph, pre: map<int, int>) {
    && IsBlock(g, loop.header) && loop.header < |g.pred| && |r.pred| == |r.succ| > loop.header
    && var outside := NonLatch(g.pred[loop.header], loop.latches);
    if outside == [] then loop.header !in pre
    else
      && loop.header in pre && |g.succ| <= pre[loop.header] < |r.succ|
      && r.succ[pre[loop.header]] == [loop.header]
      && r.pred[pre[loop.header]] == outside
      && r.pred[loop.header] == [pre[loop.header]] + LatchOnly(g.pred[loop.header], loop.latches)
  }

  ghost predicate Heads(loops: seq<Loop>, n: int, h: int) {
    exists i :: 0 <= i < n && i < |loops| && loops[i].header == h
  }

  /** Other blocks keep their predecessors, and preheaders are new blocks. */
  ghost predicate OthersKept(g: Graph, r: Graph, pre: map<int, int>) {
    && |r.pred| == |r.succ| >= |g.succ| == |g.pred|
    && (forall x :: 0 <= x < |g.succ| && x !in pre ==> r.pred[x] == g.pred[x])
    && (forall h :: h in pre ==> |g.succ| <= pre[h] < |r.succ|)
  }

  /** An edge leads where it led, or to the preheader of that block. */
  predicate Led(pre: map<int, int>, was: int, now: int) {
    now == was || (was in pre && now == pre[was])
  }

  ghost predicate EdgesLed(pre: map<int, int>, was: seq<int>, now: seq<int>) {
    |now| == |was| && forall i :: 0 <= i < |was| ==> Led(pre, was[i], now[i])
  }

  ghost predicate AllLed(g: Graph, r: Graph, pre: map<int, int>) {
    |r.succ| >= |g.succ| && forall b :: 0 <= b < |g.succ| ==> EdgesLed(pre, g.succ[b], r.succ[b])
  }

  ghost predicate Preheaded(g: Graph, loops: seq<Loop>, n: int, r: Graph, pre: map<int, int>) {
    && ValidGraph(g) && ValidGraph(r) && OthersKept(g, r, pre) && AllLed(g, r, pre)
    && (forall i :: 0 <= i < n && i < |loops| ==> LoopServed(g, loops[i], r, pre))
    && (forall h :: h in pre ==> Heads(loops, n, h))
    && (forall h, k :: h in pre && k in pre && pre[h] == pre[k] ==> h == k)
  }

  ghost predicate DistinctHeaders(g: Graph, loops: seq<Loop>) {
    && (forall i :: 0 <= i < |loops| ==> IsBlock(g, loops[i].header))
    && (forall i, j :: 0 <= i < j < |loops| ==> loops[i].header != loops[j].header)
  }

  lemma NewHeader(g: Graph, loops: seq<Loop>, n: int, r: Graph, pre: map<int, int>)
    requires DistinctHeaders(g, loops) && Preheaded(g, loops, n, r, pre) && 0 <= n < |loops|
    ensures loops[n].header !in pre && IsBlock(g, loops[n].header) && IsBlock(r, loops[n].header) && r.pred[loops[n].header] == g.pred[loops[n].header]
  {
    hide LoopServed, ValidGraph;
  }

  lemma ServedStill(g: Graph, loop: Loop, r: Graph, pre: map<int, int>, h: int, latches: set<int>)
    requires ValidGraph(g) && ValidGraph(r) && OthersKept(g, r, pre) && LoopServed(g, loop, r, pre)
    requires IsBlock(g, h) && h != loop.header && r.pred[h] == g.pred[h] && h !in pre
    ensures LoopServed(g, loop, WithPreheader(r, h, latches), pre[h := |r.succ|])
  {
    hide NonLatch, LatchOnly, Redirect;
    if loop.header in pre {
      assert pre[loop.header] !in g.pred[h];
    }
  }

  lemma ServedNow(g: Graph, loop: Loop, r: Graph, pre: map<int, int>)
    requires ValidGraph(g) && ValidGraph(r) && OthersKept(g, r, pre)
    requires IsBlock(g, loop.header) && r.pred[loop.header] == g.pred[loop.header] && NonLatch(g.pred[loop.header], loop.latches) != []
    ensures LoopServed(g, loop, WithPreheader(r, loop.header, loop.latches), pre[loop.header := |r.succ|])
  {
    hide NonLatch, LatchOnly, Redirect;
  }

  lemma OthersStill(g: Graph, r: Graph, pre: map<int, int>, h: int, latches: set<int>)
    requires ValidGraph(g) && ValidGraph(r) && OthersKept(g, r, pre) && IsBlock(g, h) && h !in pre
    ensures OthersKept(g, WithPreheader(r, h, latches), pre[h := |r.succ|])
  {
    hide NonLatch, LatchOnly, Redirect, ValidGraph, SuccessorsWith;
  }

  lemma LedStill(g: Graph, r: Graph, pre: map<int, int>, h: int, latches: set<int>)
    requires ValidGraph(g) && ValidGraph(r) && OthersKept(g, r, pre) && AllLed(g, r, pre) && IsBlock(g, h) && h !in pre
    ensures AllLed(g, WithPreheader(r, h, latches), pre[h := |r.succ|])
  {
    hide NonLatch, LatchOnly, ValidGraph;
    var r', pre' := WithPreheader(r, h, latches), pre[h := |r.succ|];
    forall b | 0 <= b < |g.succ| ensures EdgesLed(pre', g.succ[b], r'.succ[b]) {
      assert EdgesLed(pre, g.succ[b], r.succ[b]);
      forall i | 0 <= i < |g.succ[b]| ensures |r'.succ[b]| == |r.succ[b]| && Led(pre', g.succ[b][i], r'.succ[b][i]) {
        assert Led(pre, g.succ[b][i], r.succ[b][i]);
      }
    }
  }

  lemma PreheadedMore(g: Graph, loops: seq<Loop>, n: int, r: Graph, pre: map<int, int>)
    requires DistinctHeaders(g, loops) && Preheaded(g, loops, n, r, pre) && 0 <= n < |loops|
    requires NonLatch(g.pred[loops[n].header], loops[n].latches) != []
    ensures IsBlock(r, loops[n].header)
    ensures Preheaded(g, loops, n + 1, WithPreheader(r, loops[n].header, loops[n].latches), pre[loops[n].header := |r.succ|])
  {
    var loop := loops[n];
    var h := loop.header;
    NewHeader(g, loops, n, r, pre);
    var r', pre' := WithPreheader(r, h, loop.latches), pre[h := |r.succ|];
    WithPreheaderValid(r, h, loop.latches);
    OthersStill(g, r, pre, h, loop.latches);
    LedStill(g, r, pre, h, loop.latches);
    ServedNow(g, loop, r, pre);
    forall i | 0 <= i < n ensures LoopServed(g, loops[i], r', pre') { ServedStill(g, loops[i], r, pre, h, loop.latches); }
    forall k | k in pre' ensures Heads(loops, n + 1, k) {
      if k != h {
        assert Heads(loops, n, k);
      } else {
        assert loops[n].header == h;
      }
    }
    assert forall k :: k in pre ==> pre[k] < |r.succ|;
    hide LoopServed, ValidGraph, WithPreheader, Heads, OthersKept, NonLatch, AllLed;
  }

  lemma NotServed(g: Graph, loops: seq<Loop>, n: int, r: Graph, pre: map<int, int>)
    requires DistinctHeaders(g, loops) && Preheaded(g, loops, n, r, pre) && 0 <= n < |loops|
    requires NonLatch(g.pred[loops[n].header], loops[n].latches) == []
    ensures LoopServed(g, loops[n], r, pre)
  {
    NewHeader(g, loops, n, r, pre);
  }

  lemma PreheadedSkip(g: Graph, loops: seq<Loop>, n: int, r: Graph, pre: map<int, int>)
    requires DistinctHeaders(g, loops) && Preheaded(g, loops, n, r, pre) && 0 <= n < |loops|
    requires NonLatch(g.pred[loops[n].header], loops[n].latches) == []
    ensures Preheaded(g, loops, n + 1, r, pre)
  {
    hide LoopServed, ValidGraph, OthersKept, NonLatch, IsBlock;
    NotServed(g, loops, n, r, pre);
    forall k | k in pre ensures Heads(loops, n + 1, k) { assert Heads(loops, n, k); }
  }

  lemma PreheadedStarts(g: Graph, loops: seq<Loop>)
    requires ValidGraph(g)
    ensures Preheaded(g, loops, 0, g, map[])
  {
  }

  method InsertPreheaders(g: Graph, loops: seq<Loop>) returns (r: Graph, pre: map<int, int>)
    requires ValidGraph(g) && DistinctHeaders(g, loops)
    ensures Preheaded(g, loops, |loops|, r, pre)
  {
    hide Preheaded, DistinctHeaders, NonLatch, LatchOnly, WithPreheader;
    r, pre := g, map[];
    PreheadedStarts(g, loops);
    for n := 0 to |loops|
      invariant Preheaded(g, loops, n, r, pre)
    {
      HeaderInRange(g, loops, n, r, pre);
      if NonLatch(g.pred[loops[n].header], loops[n].latches) != [] {
        PreheadedMore(g, loops, n, r, pre);
        pre := pre[loops[n].header := |r.succ|];
        r := InsertPreheader(r, loops[n].header, loops[n].latches);
      } else {
        PreheadedSkip(g, loops, n, r, pre);
      }
    }
  }

  lemma HeaderInRange(g: Graph, loops: seq<Loop>, n: int, r: Graph, pre: map<int, int>)
    requires DistinctHeaders(g, loops) && Preheaded(g, loops, n, r, pre) && 0 <= n < |loops|
    ensures ValidGraph(r) && 0 <= loops[n].header < |g.pred| && IsBlock(r, loops[n].header)
  {
    NewHeader(g, loops, n, r, pre);
  }

  // ----- Single entry afterwards -----

  /** The header's only predecessor besides the latches is the preheader. */
  lemma OnlyPreheaderEnters(g: Graph, loops: seq<Loop>, r: Graph, pre: map<int, int>, i: int, p: int)
    requires Preheaded(g, loops, |loops|, r, pre) && 0 <= i < |loops| && loops[i].header in pre
    ensures 0 <= loops[i].header < |r.pred|
    ensures p !in loops[i].latches ==> (p in r.pred[loops[i].header] <==> p == pre[loops[i].header])
  {
    assert LoopServed(g, loops[i], r, pre);
    FilterMembers(g.pred[loops[i].header], loops[i].latches, p);
    hide NonLatch, LatchOnly, OthersKept, ValidGraph;
  }

  /** A loop with the preheaders of the loops inside it. */
  ghost predicate InRegion(loops: seq<Loop>, pre: map<int, int>, i: int, x: int)
    requires 0 <= i < |loops|
  {
    x in loops[i].body || exists h :: h in pre && pre[h] == x && h in loops[i].body && h != loops[i].header
  }

  lemma OldEdgeEnters(g: Graph, loops: seq<Loop>, pre: map<int, int>, i: int, p: int, x: int)
    requires ValidGraph(g) && 0 <= i < |loops| && Natural(g, loops[i]) && 0 <= x < |g.pred| && p in g.pred[x]
    requires x in loops[i].body && x != loops[i].header
    ensures p in loops[i].body
  {
    assert IsBlock(g, p) && IsBlock(g, x) && x in g.succ[p];
    if p !in loops[i].body { EntersAtHeader(g, loops[i], p, x); }
    hide Natural;
  }

  /** After all insertions, control enters a loop's region only from its preheader. */
  lemma EntersFromPreheader(g: Graph, loops: seq<Loop>, r: Graph, pre: map<int, int>, i: int, p: int, x: int)
    requires Preheaded(g, loops, |loops|, r, pre) && DistinctHeaders(g, loops) && 0 <= i < |loops| && Natural(g, loops[i])
    requires 0 <= x < |r.pred| && p in r.pred[x] && InRegion(loops, pre, i, x) && !InRegion(loops, pre, i, p)
    ensures x == loops[i].header && x in pre && p == pre[x]
  {
    hide Natural, ValidGraph, NonLatch, LatchOnly;
    if x in loops[i].body {
      BodyEntered(g, loops, r, pre, i, p, x);
    } else {
      var h :| h in pre && pre[h] == x && h in loops[i].body && h != loops[i].header;
      assert Heads(loops, |loops|, h);
      var j :| 0 <= j < |loops| && loops[j].header == h;
      assert LoopServed(g, loops[j], r, pre);
      FilterMembers(g.pred[h], loops[j].latches, p);
      OldEdgeEnters(g, loops, pre, i, p, h);
      assert false;
    }
  }

  lemma BodyInGraph(g: Graph, loop: Loop, x: int)
    requires Natural(g, loop) && x in loop.body
    ensures IsBlock(g, x)
  {
    assert InLoop(g, loop.header, loop.latches, x);
  }

  lemma BodyEntered(g: Graph, loops: seq<Loop>, r: Graph, pre: map<int, int>, i: int, p: int, x: int)
    requires Preheaded(g, loops, |loops|, r, pre) && DistinctHeaders(g, loops) && 0 <= i < |loops| && Natural(g, loops[i])
    requires 0 <= x < |r.pred| && p in r.pred[x] && x in loops[i].body && !InRegion(loops, pre, i, p)
    ensures x == loops[i].header && x in pre && p == pre[x]
  {
    hide Natural, ValidGraph, NonLatch, LatchOnly;
    BodyInGraph(g, loops[i], x);
    LatchesInBody(g, loops[i]);
    if x in pre {
      assert Heads(loops, |loops|, x);
      var j :| 0 <= j < |loops| && loops[j].header == x;
      assert LoopServed(g, loops[j], r, pre);
      FilterMembers(g.pred[x], loops[j].latches, p);
      assert x == loops[i].header ==> j == i;
      if x != loops[i].header && p in g.pred[x] { OldEdgeEnters(g, loops, pre, i, p, x); }
    } else {
      assert LoopServed(g, loops[i], r, pre);
      FilterMembers(g.pred[loops[i].header], loops[i].latches, p);
      if x != loops[i].header { OldEdgeEnters(g, loops, pre, i, p, x); }
    }
  }
}
