/** Natural loops and their preheaders (cc/loops.py:192-204, 278-294, 768-794,
    1358-1435). */
module NaturalLoops {
  import opened Cfg
  import opened Dominance
  import opened Dominators
  import opened Frontiers

  datatype Loop = Loop(header: int, latches: set<int>, body: set<int>, exits: set<int>)

  // ----- What a natural loop is -----

  /** An edge from a reachable block to one of its dominators. */
  ghost predicate BackEdge(g: Graph, latch: int, header: int) {
    IsBlock(g, latch) && Reachable(g, latch) && header in g.succ[latch] && Dominates(g, header, latch)
  }

  /** A walk to a latch that stays clear of the header. */
  ghost predicate Trail(g: Graph, header: int, latches: set<int>, q: seq<int>) {
    && q != [] && q[|q| - 1] in latches
    && (forall i :: 0 <= i < |q| ==> IsBlock(g, q[i]) && q[i] != header)
    && (forall i :: 0 < i < |q| ==> q[i] in g.succ[q[i - 1]])
  }

  ghost predicate InLoop(g: Graph, header: int, latches: set<int>, x: int) {
    x == header || exists q :: Trail(g, header, latches, q) && q[0] == x
  }

  ghost predicate BodyIs(g: Graph, header: int, latches: set<int>, body: set<int>) {
    forall x :: x in body <==> InLoop(g, header, latches, x)
  }

  ghost predicate LatchesAre(g: Graph, header: int, latches: set<int>) {
    forall l :: l in latches <==> BackEdge(g, l, header)
  }

  ghost predicate Natural(g: Graph, loop: Loop) {
    && IsBlock(g, loop.header) && loop.latches != {} && LatchesAre(g, loop.header, loop.latches)
    && BodyIs(g, loop.header, loop.latches, loop.body)
    && forall x :: x in loop.exits <==> x in loop.body && IsBlock(g, x) && exists s :: s in g.succ[x] && s !in loop.body
  }

  // ----- The body of a loop -----

  lemma TrailLonger(g: Graph, header: int, latches: set<int>, p: int, x: int)
    requires ValidGraph(g) && IsBlock(g, p) && p != header && IsBlock(g, x) && x in g.succ[p] && x != header && InLoop(g, header, latches, x)
    ensures InLoop(g, header, latches, p)
  {
    var q :| Trail(g, header, latches, q) && q[0] == x;
    var r := [p] + q;
    forall i | 0 < i < |r| ensures r[i] in g.succ[r[i - 1]] {
      if i > 1 { assert q[i - 1] in g.succ[q[i - 2]]; }
    }
    forall i | 0 <= i < |r| ensures IsBlock(g, r[i]) && r[i] != header {
      if i > 0 { assert r[i] == q[i - 1]; }
    }
    assert r[|r| - 1] == q[|q| - 1];
    assert Trail(g, header, latches, r);
  }

  lemma LatchInLoop(g: Graph, header: int, latches: set<int>, l: int)
    requires l in latches && IsBlock(g, l)
    ensures InLoop(g, header, latches, l)
  {
    if l != header { assert Trail(g, header, latches, [l]); }
  }

  ghost predicate Known(g: Graph, header: int, latches: set<int>, body: set<int>) {
    forall x :: x in body ==> IsBlock(g, x) && InLoop(g, header, latches, x)
  }

  /** Predecessors of blocks that are done are in the body. */
  ghost predicate Backed(g: Graph, header: int, body: set<int>, stack: seq<int>) {
    forall x, p :: x in body && x != header && x !in stack && 0 <= x < |g.pred| && p in g.pred[x] ==> p in body
  }

  lemma {:induction false} TrailInside(g: Graph, header: int, latches: set<int>, body: set<int>, q: seq<int>, i: int)
    requires ValidGraph(g) && Backed(g, header, body, []) && latches <= body && Trail(g, header, latches, q) && 0 <= i < |q|
    ensures q[i] in body
    decreases |q| - i
  {
    if i < |q| - 1 {
      TrailInside(g, header, latches, body, q, i + 1);
      assert q[i + 1] in g.succ[q[i + 1 - 1]];
      assert q[i] in g.pred[q[i + 1]];
    }
  }

  lemma BodyComplete(g: Graph, header: int, latches: set<int>, body: set<int>)
    requires ValidGraph(g) && Known(g, header, latches, body) && Backed(g, header, body, []) && latches <= body && header in body
    ensures BodyIs(g, header, latches, body)
  {
    forall x | InLoop(g, header, latches, x) ensures x in body {
      if x != header {
        var q :| Trail(g, header, latches, q) && q[0] == x;
        TrailInside(g, header, latches, body, q, 0);
      }
    }
  }

  function AllBlocks(g: Graph): set<int> { set b | 0 <= b < |g.succ| && IsBlock(g, b) }

  /** The predecessors of `except` may still be missing. */
  ghost predicate BackedBut(g: Graph, header: int, body: set<int>, stack: seq<int>, except: int) {
    forall x, p :: x in body && x != header && x !in stack && x != except && 0 <= x < |g.pred| && p in g.pred[x] ==> p in body
  }

  lemma InsideGraph(g: Graph, x: int)
    requires ValidGraph(g) && IsBlock(g, x)
    ensures 0 <= x < |g.pred|
  {
  }

  lemma PredecessorIs(g: Graph, p: int, x: int)
    requires ValidGraph(g) && IsBlock(g, x) && 0 <= x < |g.pred| && p in g.pred[x]
    ensures IsBlock(g, p) && 0 <= p < |g.succ| && x in g.succ[p]
  {
  }

  lemma KnownMember(g: Graph, header: int, latches: set<int>, body: set<int>, x: int)
    requires Known(g, header, latches, body) && x in body
    ensures InLoop(g, header, latches, x) && IsBlock(g, x)
  {
    hide InLoop;
  }

  lemma KnownMore(g: Graph, header: int, latches: set<int>, body: set<int>, p: int)
    requires Known(g, header, latches, body) && IsBlock(g, p) && InLoop(g, header, latches, p)
    ensures Known(g, header, latches, body + {p})
  {
    hide InLoop;
  }

  lemma BackedButOne(g: Graph, header: int, body: set<int>, stack: seq<int>, x: int)
    requires Backed(g, header, body, stack + [x])
    ensures BackedBut(g, header, body, stack, x)
  {
  }

  lemma BackedMore(g: Graph, header: int, body: set<int>, stack: seq<int>, x: int, p: int)
    requires BackedBut(g, header, body, stack, x)
    ensures BackedBut(g, header, body + {p}, stack + [p], x)
  {
  }

  lemma BackedAll(g: Graph, header: int, body: set<int>, stack: seq<int>, x: int)
    requires BackedBut(g, header, body, stack, x) && 0 <= x < |g.pred| && forall p :: p in g.pred[x] ==> p in body
    ensures Backed(g, header, body, stack)
  {
  }

  /** Adds the predecessors of one block. */
  method AddPredecessors(g: Graph, header: int, ghost latches: set<int>, body0: set<int>, stack0: seq<int>, x: int) returns (body: set<int>, stack: seq<int>)
    requires ValidGraph(g) && IsBlock(g, header) && IsBlock(g, x) && x in body0 && x != header && header in body0
    requires Known(g, header, latches, body0) && Backed(g, header, body0, stack0 + [x])
    requires forall y :: y in stack0 ==> y in body0 && y != header
    ensures body0 <= body && Known(g, header, latches, body) && Backed(g, header, body, stack)
    ensures forall y :: y in stack ==> y in body && y != header
    ensures |AllBlocks(g) - body| < |AllBlocks(g) - body0| || (body == body0 && stack == stack0)
  {
    hide *;
    body, stack := body0, stack0;
    InsideGraph(g, x);
    BackedButOne(g, header, body0, stack0, x);
    for i := 0 to |g.pred[x]|
      invariant body0 <= body && Known(g, header, latches, body)
      invariant forall y :: y in stack ==> y in body && y != header
      invariant BackedBut(g, header, body, stack, x)
      invariant forall p :: p in g.pred[x][..i] ==> p in body
      invariant |AllBlocks(g) - body| < |AllBlocks(g) - body0| || (body == body0 && stack == stack0)
    {
      var p := g.pred[x][i];
      if p != header && p !in body {
        KnownMember(g, header, latches, body, x);
        PredecessorIs(g, p, x);
        TrailLonger(g, header, latches, p, x);
        OneBlockLess(g, body, p);
        KnownMore(g, header, latches, body, p);
        BackedMore(g, header, body, stack, x, p);
        body := body + {p};
        stack := stack + [p];
      }
    }
    assert g.pred[x][..|g.pred[x]|] == g.pred[x];
    BackedAll(g, header, body, stack, x);
  }

  lemma OneBlockLess(g: Graph, body: set<int>, p: int)
    requires IsBlock(g, p) && p !in body
    ensures |AllBlocks(g) - (body + {p})| < |AllBlocks(g) - body|
  {
    assert AllBlocks(g) - body == (AllBlocks(g) - (body + {p})) + {p};
  }

  /** Walks backward from the latches and stops at the header. */
  method LoopBody(g: Graph, header: int, latches: set<int>, latchList: seq<int>) returns (body: set<int>)
    requires ValidGraph(g) && IsBlock(g, header) && (forall l :: l in latches <==> l in latchList) && forall l :: l in latches ==> IsBlock(g, l)
    ensures BodyIs(g, header, latches, body)
  {
    hide InLoop;
    body := {header} + latches;
    var stack := Without(latchList, header);
    forall l | l in latches ensures InLoop(g, header, latches, l) { LatchInLoop(g, header, latches, l); }
    HeaderInLoop(g, header, latches);
    while stack != []
      invariant {header} + latches <= body && Known(g, header, latches, body) && Backed(g, header, body, stack)
      invariant forall y :: y in stack ==> y in body && y != header
      decreases |AllBlocks(g) - body|, |stack|
    {
      var last := |stack| - 1;
      var x := stack[last];
      assert stack == stack[..last] + [x];
      body, stack := AddPredecessors(g, header, latches, body, stack[..last], x);
    }
    BodyComplete(g, header, latches, body);
  }

  lemma HeaderInLoop(g: Graph, header: int, latches: set<int>)
    ensures InLoop(g, header, latches, header)
  {
  }

  function Without(xs: seq<int>, x: int): (r: seq<int>)
    ensures forall y :: y in r <==> y in xs && y != x
  {
    if xs == [] then [] else if xs[0] == x then Without(xs[1..], x) else [xs[0]] + Without(xs[1..], x)
  }

  // ----- Single entry -----

  /** From a reachable block of the loop one comes to a latch, and so every path to
      it has passed the header. */
  lemma HeaderDominatesBody(g: Graph, loop: Loop, x: int)
    requires ValidGraph(g) && Natural(g, loop) && x in loop.body && Reachable(g, x)
    ensures Dominates(g, loop.header, x)
  {
    var h := loop.header;
    forall p | PathTo(g, p, x) ensures h in p {
      if x != h && h !in p {
        assert InLoop(g, h, loop.latches, x);
        var q :| Trail(g, h, loop.latches, q) && q[0] == x;
        assert BackEdge(g, q[|q| - 1], h);
        JoinPaths(g, p, loop.latches, q, h);
        assert false;
      }
    }
  }

  lemma JoinPaths(g: Graph, p: seq<int>, latches: set<int>, q: seq<int>, h: int)
    requires IsPath(g, p) && Trail(g, h, latches, q) && q[0] == p[|p| - 1] && h !in p
    ensures PathTo(g, p + q[1..], q[|q| - 1]) && h !in p + q[1..]
  {
    var whole := p + q[1..];
    forall i | 0 < i < |whole| ensures whole[i] in g.succ[whole[i - 1]] {
      if i < |p| {
        assert p[i] in g.succ[p[i - 1]];
      } else {
        var k := i - |p| + 1;
        assert whole[i] == q[k] && whole[i - 1] == q[k - 1];
        assert q[k] in g.succ[q[k - 1]];
      }
    }
  }

  /** Control enters a loop only at its header. */
  lemma EntersAtHeader(g: Graph, loop: Loop, p: int, x: int)
    requires ValidGraph(g) && Natural(g, loop) && IsBlock(g, p) && x in g.succ[p] && x in loop.body && p !in loop.body
    ensures x == loop.header
  {
    if x != loop.header {
      assert InLoop(g, loop.header, loop.latches, x);
      hide InLoop;
      if p == loop.header { HeaderInLoop(g, p, loop.latches); }
      TrailLonger(g, loop.header, loop.latches, p, x);
    }
  }

  lemma LatchesInBody(g: Graph, loop: Loop)
    requires Natural(g, loop)
    ensures loop.latches <= loop.body && loop.header in loop.body
  {
    forall l | l in loop.latches ensures l in loop.body { LatchInLoop(g, loop.header, loop.latches, l); }
    HeaderInLoop(g, loop.header, loop.latches);
    hide InLoop, BackEdge;
  }

  // ----- Finding the loops -----

  /** The dominators of a block, by walking up the tree. */
  method DominatorSet(g: Graph, idom: Parents, b: int, ghost po: map<int, int>) returns (r: set<int>)
    requires Complete(g, idom, po) && b in idom
    ensures forall d :: d in r <==> Dominates(g, d, b)
  {
    CompleteFacts(g, idom, po);
    forall d ensures Above(idom, po, d, b) <==> Dominates(g, d, b) { AboveIsDominates(g, idom, po, d, b); }
    hide Complete, Dominates;
    r := {b};
    var runner := b;
    while idom[runner] != runner
      invariant runner in idom && runner in r
      invariant forall d :: Above(idom, po, d, b) <==> d in r || Above(idom, po, d, runner)
      decreases po[0] - po[runner]
    {
      AboveStep(idom, po, runner);
      runner := idom[runner];
      r := r + {runner};
    }
    TopOnly(idom, po, runner);
  }

  lemma AboveStep(t: Parents, po: map<int, int>, b: int)
    requires Tree(t, po) && b in t && t[b] != b
    ensures t[b] in t && b in po && t[b] in po && po[b] < po[t[b]] <= po[0]
    ensures forall d :: Above(t, po, d, b) <==> d == b || Above(t, po, d, t[b])
    ensures Above(t, po, t[b], t[b])
  {
  }

  lemma TopOnly(t: Parents, po: map<int, int>, b: int)
    requires Tree(t, po) && b in t && t[b] == b
    ensures forall d :: Above(t, po, d, b) <==> d == b
  {
  }

  /** The latches of `header`. */
  method Latches(g: Graph, idom: Parents, header: int, ghost po: map<int, int>) returns (latches: set<int>, list: seq<int>)
    requires Complete(g, idom, po)
    ensures LatchesAre(g, header, latches) && (forall l :: l in latches <==> l in list)
  {
    TreeIsReachable(g, idom, po);
    hide Complete, Dominates, Reachable;
    latches, list := {}, [];
    for l := 0 to |g.succ|
      invariant forall x :: x in latches <==> x < l && BackEdge(g, x, header)
      invariant forall x :: x in latches <==> x in list
    {
      if l in idom && header in g.succ[l] {
        var dominators := DominatorSet(g, idom, l, po);
        if header in dominators {
          latches := latches + {l};
          list := list + [l];
        }
      }
    }
  }

  lemma TreeIsReachable(g: Graph, t: Parents, po: map<int, int>)
    requires Complete(g, t, po)
    ensures forall b :: b in t <==> IsBlock(g, b) && Reachable(g, b)
  {
    RestIsTree(g, t, po);
  }

  method Exits(g: Graph, body: set<int>) returns (exits: set<int>)
    ensures forall x :: x in exits <==> x in body && IsBlock(g, x) && exists s :: s in g.succ[x] && s !in body
  {
    exits := set x | x in body && IsBlock(g, x) && exists s :: s in g.succ[x] && s !in body;
  }

  ghost predicate HasLoop(g: Graph, header: int) {
    exists l :: BackEdge(g, l, header)
  }

  /** Every natural loop, one for each header, in the order of the blocks. */
  ghost predicate LoopsAre(g: Graph, loops: seq<Loop>, n: int) {
    && (forall i :: 0 <= i < |loops| ==> Natural(g, loops[i]) && 0 <= loops[i].header < n)
    && (forall i, j :: 0 <= i < j < |loops| ==> loops[i].header < loops[j].header)
    && (forall h :: 0 <= h < n && HasLoop(g, h) ==> exists i :: 0 <= i < |loops| && loops[i].header == h)
  }

  lemma LoopsMore(g: Graph, loops: seq<Loop>, n: int, latches: set<int>)
    requires LoopsAre(g, loops, n) && LatchesAre(g, n, latches) && 0 <= n
    ensures latches == {} ==> LoopsAre(g, loops, n + 1)
    ensures forall loop: Loop :: loop.header == n && latches != {} && Natural(g, loop) ==> LoopsAre(g, loops + [loop], n + 1)
  {
    hide BackEdge, Natural;
    if latches == {} {
      assert !HasLoop(g, n);
    }
    forall loop: Loop | loop.header == n && Natural(g, loop) ensures latches != {} ==> LoopsAre(g, loops + [loop], n + 1) {
      var all := loops + [loop];
      forall h | 0 <= h < n + 1 && HasLoop(g, h) ensures exists i :: 0 <= i < |all| && all[i].header == h {
        if h < n {
          var i :| 0 <= i < |loops| && loops[i].header == h;
          assert all[i].header == h;
        } else {
          assert all[|loops|].header == h;
        }
      }
    }
  }

  method FindNaturalLoops(g: Graph) returns (loops: seq<Loop>)
    requires ValidGraph(g)
    ensures LoopsAre(g, loops, |g.succ|)
  {
    hide BackEdge, InLoop, LoopsAre, LatchesAre;
    var idom;
    ghost var po;
    idom, po := ComputeDominators(g);
    loops := [];
    NoLoopsYet(g);
    for h := 0 to |g.succ|
      invariant LoopsAre(g, loops, h)
    {
      var latches, list := Latches(g, idom, h, po);
      LoopsMore(g, loops, h, latches);
      if latches != {} {
        LatchesAreBlocks(g, h, latches);
        var body := LoopBody(g, h, latches, list);
        var exits := Exits(g, body);
        loops := loops + [Loop(h, latches, body, exits)];
      }
    }
  }

  lemma NoLoopsYet(g: Graph)
    ensures LoopsAre(g, [], 0)
  {
  }

  lemma LatchesAreBlocks(g: Graph, header: int, latches: set<int>)
    requires LatchesAre(g, header, latches)
    ensures forall l :: l in latches ==> IsBlock(g, l)
  {
  }
}
