/** The strength reduction pass over a function (cc/loops.py:1505-1551): find the
    loops, give them preheaders, reduce each loop. */
module ReduceLoops {
  import opened Common
  import opened IR
  import opened Cfg
  import opened BlockRuns
  import opened FlatBlocks
  import opened Dominance
  import opened NaturalLoops
  import opened Preheaders
  import opened StrengthReduction
  import opened LoopReduction

  // ----- Preheaders change nothing -----

  /** The blocks with empty preheaders behind them. */
  ghost predicate Extended(before: seq<Body>, after: seq<Body>) {
    && |before| <= |after| && (forall b :: 0 <= b < |before| ==> after[b] == before[b])
    && forall b :: |before| <= b < |after| ==> LoneJump(after[b])
  }

  lemma PreheadersDetour(g: Graph, loops: seq<Loop>, r: Graph, pre: map<int, int>, before: seq<Body>, after: seq<Body>)
    requires Preheaded(g, loops, |loops|, r, pre) && Extended(before, after) && |before| == |g.succ| && |after| == |r.succ|
    ensures Detoured(g, before, r, after)
  {
    hide NonLatch, LatchOnly, ValidGraph;
    forall b | 0 <= b < |before| ensures Detour(r, |g.succ|, g.succ[b], r.succ[b]) {
      assert EdgesLed(pre, g.succ[b], r.succ[b]);
      forall i | 0 <= i < |g.succ[b]| ensures LeadsTo(r, |g.succ|, g.succ[b][i], r.succ[b][i]) {
        var c := g.succ[b][i];
        assert Led(pre, c, r.succ[b][i]);
        if c in pre {
          assert Heads(loops, |loops|, c);
          var k :| 0 <= k < |loops| && loops[k].header == c;
          assert LoopServed(g, loops[k], r, pre);
        }
      }
    }
  }

  // ----- The pass -----

  /** Each word machine sees the same calls and the same end, some preheaders on. */
  ghost predicate SameOutcomes(g: Graph, before: seq<Body>, r: Graph, after: seq<Body>, entry: int)
    requires 0 < |before| == |g.succ| && 0 <= entry < |after| == |r.succ|
  {
    forall m, size, low, s: Store, fuel: nat :: WordMachine(m, size, low) ==> RunMatched(m, g, before, r, after, entry, s, fuel)
  }

  /** The first block in the order of the code: a preheader of the entry comes before
      the entry. */
  function EntryOf(pre: map<int, int>): int { if 0 in pre then pre[0] else 0 }

  /** A product of `x` and a constant whose destination is written once in the
      function. */
  ghost predicate Reducible(codes0: seq<Body>, i: Instruction, x: string) {
    && Times(i) && TotalDefs(codes0, i.destination) == 1
    && ((i.left == Name(x) && i.right.Literal?) || (i.right == Name(x) && i.left.Literal?))
  }

  /** The loop has no product left of a variable that was an induction variable of it
      in the code as it came. */
  ghost predicate Productless(loop: Loop, codes0: seq<Body>, codes: seq<Body>) {
    forall b, k, x, step :: 0 <= b < |codes| && b in loop.body && 0 <= k < |codes[b]| && Inductive(codes0, InOrder(|codes0|, loop.body), x, step) ==>
      !Reducible(codes0, codes[b][k], x)
  }

  /** What holds between the reductions of two loops. */
  ghost predicate PassState(g: Graph, loops: seq<Loop>, r: Graph, pre: map<int, int>, codes: seq<Body>, counter: nat) {
    && Preheaded(g, loops, |loops|, r, pre) && LoopsAre(g, loops, |g.succ|)
    && |codes| == |r.succ| && AllOk(codes, NewBlocks(pre), counter)
  }

  /** The preheaders. */
  function NewBlocks(pre: map<int, int>): set<int> { set h | h in pre :: pre[h] }

  function InOrder(n: nat, body: set<int>): (order: seq<int>)
    ensures forall b :: b in order <==> 0 <= b < n && b in body
    ensures DistinctOrder(order)
  {
    if n == 0 then [] else InOrder(n - 1, body) + (if n - 1 in body then [n - 1] else [])
  }

  /** The entry is in no loop but its own. */
  lemma EntryOutside(g: Graph, loop: Loop)
    requires ValidGraph(g) && Natural(g, loop) && loop.header != 0
    ensures 0 !in loop.body
  {
    if 0 in loop.body {
      EntryReachable(g);
      HeaderDominatesBody(g, loop, 0);
      OnlyEntryDominatesEntry(g, loop.header);
      assert false;
    }
  }

  lemma Ordered(g: Graph, loops: seq<Loop>)
    requires LoopsAre(g, loops, |g.succ|)
    ensures DistinctHeaders(g, loops) && forall i :: 0 <= i < |loops| ==> Natural(g, loops[i])
  {
    hide Natural;
    forall i | 0 <= i < |loops| ensures IsBlock(g, loops[i].header) { assert Natural(g, loops[i]); }
  }

  ghost function Region(loops: seq<Loop>, pre: map<int, int>, i: int, n: nat): set<int>
    requires 0 <= i < |loops|
  {
    set x | x in Numbers(n) && InRegion(loops, pre, i, x)
  }

  function Numbers(n: nat): (r: set<int>)
    ensures forall x :: x in r <==> 0 <= x < n
  {
    if n == 0 then {} else Numbers(n - 1) + {n - 1}
  }

  lemma RegionEntered(g: Graph, loops: seq<Loop>, r: Graph, pre: map<int, int>, i: int, p: int, x: int)
    requires Preheaded(g, loops, |loops|, r, pre) && DistinctHeaders(g, loops) && 0 <= i < |loops| && Natural(g, loops[i]) && loops[i].header in pre
    requires 0 <= p < |r.succ| && x in r.succ[p] && x in Region(loops, pre, i, |r.succ|) && p !in Region(loops, pre, i, |r.succ|)
    ensures p == pre[loops[i].header]
  {
    assert ValidGraph(r) && p in r.pred[x];
    EntersFromPreheader(g, loops, r, pre, i, p, x);
  }

  lemma PreheaderOutside(g: Graph, loops: seq<Loop>, r: Graph, pre: map<int, int>, i: int)
    requires Preheaded(g, loops, |loops|, r, pre) && 0 <= i < |loops| && Natural(g, loops[i]) && loops[i].header in pre
    ensures var h := loops[i].header;
      0 <= pre[h] < |r.succ| && pre[h] !in Region(loops, pre, i, |r.succ|) && r.succ[pre[h]] == [h]
  {
    var h := loops[i].header;
    assert LoopServed(g, loops[i], r, pre);
    hide Natural, ValidGraph, AllLed, NonLatch, LatchOnly;
    if pre[h] in loops[i].body { BodyInGraph(g, loops[i], pre[h]); }
  }

  lemma RegionSingleEntry(g: Graph, loops: seq<Loop>, r: Graph, pre: map<int, int>, i: int)
    requires Preheaded(g, loops, |loops|, r, pre) && DistinctHeaders(g, loops) && 0 <= i < |loops| && Natural(g, loops[i]) && loops[i].header in pre
    ensures SingleEntry(r, Region(loops, pre, i, |r.succ|), pre[loops[i].header], loops[i].header)
  {
    hide Preheaded, Natural, DistinctHeaders, Region;
    PreheaderOutside(g, loops, r, pre, i);
    var region := Region(loops, pre, i, |r.succ|);
    forall p, x | 0 <= p < |r.succ| && x in r.succ[p] && x in region && p !in region ensures p == pre[loops[i].header] {
      RegionEntered(g, loops, r, pre, i, p, x);
    }
  }

  lemma IsNewBlock(pre: map<int, int>, h: int)
    requires h in pre
    ensures pre[h] in NewBlocks(pre)
  {
  }

  lemma GraphGrows(g: Graph, loops: seq<Loop>, r: Graph, pre: map<int, int>)
    requires Preheaded(g, loops, |loops|, r, pre)
    ensures ValidGraph(g) && 0 < |g.succ| <= |r.succ|
  {
    hide LoopServed, AllLed, Heads;
  }

  lemma RegionMember(loops: seq<Loop>, pre: map<int, int>, i: int, n: nat, x: int)
    requires 0 <= i < |loops|
    ensures x in Region(loops, pre, i, n) ==> x in loops[i].body || x in NewBlocks(pre)
  {
  }

  lemma BodyInRegion(loops: seq<Loop>, pre: map<int, int>, i: int, n: nat, x: int)
    requires 0 <= i < |loops| && x in loops[i].body && 0 <= x < n
    ensures x in Region(loops, pre, i, n)
  {
  }

  lemma BodyInRange(g: Graph, loop: Loop, x: int)
    requires Natural(g, loop) && x in loop.body
    ensures 0 <= x < |g.succ|
  {
    BodyInGraph(g, loop, x);
    hide Natural;
  }

  lemma ReadyIs(l: LoopFrame)
    requires SingleEntry(l.g, l.region, l.pre, l.header) && l.entry !in l.region && 0 <= l.entry < |l.g.succ| && DistinctOrder(l.order) && l.pre in l.pres
    requires forall b :: b in l.order ==> 0 <= b < |l.g.succ| && b in l.region && b !in l.pres
    requires forall b :: b in l.region ==> b in l.order || b in l.pres
    ensures LoopReady(l)
  {
    hide SingleEntry, DistinctOrder;
    forall j | 0 <= j < |l.order| ensures 0 <= l.order[j] < |l.g.succ| && l.order[j] in l.region && l.order[j] !in l.pres {
      assert l.order[j] in l.order;
    }
  }

  /** Where the code starts is in no loop's region. */
  lemma StartsOutside(g: Graph, loops: seq<Loop>, r: Graph, pre: map<int, int>, i: int)
    requires Preheaded(g, loops, |loops|, r, pre) && 0 <= i < |loops| && Natural(g, loops[i]) && loops[i].header in pre
    ensures 0 <= EntryOf(pre) < |r.succ| && EntryOf(pre) !in Region(loops, pre, i, |r.succ|)
  {
    hide Natural, AllLed, LoopServed, Heads;
    var e := EntryOf(pre);
    if e in Region(loops, pre, i, |r.succ|) {
      assert InRegion(loops, pre, i, e);
      if e in loops[i].body {
        BodyInGraph(g, loops[i], e);
        EntryOutside(g, loops[i]);
      } else {
        var h :| h in pre && pre[h] == e && h in loops[i].body && h != loops[i].header;
        EntryOutside(g, loops[i]);
      }
      assert false;
    }
  }

  lemma LoopIsReady(g: Graph, loops: seq<Loop>, r: Graph, pre: map<int, int>, i: int)
    requires Preheaded(g, loops, |loops|, r, pre) && DistinctHeaders(g, loops) && 0 <= i < |loops| && Natural(g, loops[i]) && loops[i].header in pre
    ensures LoopReady(FrameOf(g, loops, r, pre, i))
  {
    hide *;
    var region, order := Region(loops, pre, i, |r.succ|), InOrder(|g.succ|, loops[i].body);
    RegionSingleEntry(g, loops, r, pre, i);
    NewBlocksArePreheaders(g, loops, r, pre);
    GraphGrows(g, loops, r, pre);
    StartsOutside(g, loops, r, pre, i);
    forall b ensures b in region ==> b in loops[i].body || b in NewBlocks(pre) { RegionMember(loops, pre, i, |r.succ|, b); }
    forall b | b in order ensures b in region { BodyInRegion(loops, pre, i, |r.succ|, b); }
    forall b | b in loops[i].body ensures 0 <= b < |g.succ| { BodyInRange(g, loops[i], b); }
    assert pre[loops[i].header] in NewBlocks(pre) by { IsNewBlock(pre, loops[i].header); }
    FrameIs(g, loops, r, pre, i);
    ReadyIs(FrameOf(g, loops, r, pre, i));
  }

  /** The `i`-th loop once all preheaders are there. */
  ghost function FrameOf(g: Graph, loops: seq<Loop>, r: Graph, pre: map<int, int>, i: int): LoopFrame
    requires 0 <= i < |loops| && loops[i].header in pre
  {
    LoopFrame(r, EntryOf(pre), Region(loops, pre, i, |r.succ|), InOrder(|g.succ|, loops[i].body), pre[loops[i].header], loops[i].header, NewBlocks(pre))
  }

  lemma FrameIs(g: Graph, loops: seq<Loop>, r: Graph, pre: map<int, int>, i: int)
    requires 0 <= i < |loops| && loops[i].header in pre
    ensures FrameOf(g, loops, r, pre, i)
      == LoopFrame(r, EntryOf(pre), Region(loops, pre, i, |r.succ|), InOrder(|g.succ|, loops[i].body), pre[loops[i].header], loops[i].header, NewBlocks(pre))
  {
  }

  lemma StepsFound(codes: seq<Body>, order: seq<int>, ivs: map<string, int>)
    requires (forall x :: x in ivs ==> CountedStep(codes, order, x, ivs[x])) && forall j :: 0 <= j < |order| ==> 0 <= order[j] < |codes|
    ensures StepsOnly(codes, order, ivs)
  {
    hide OnlySteps, StepOf, LoopDefs;
    forall j, x | 0 <= j < |order| && x in ivs ensures OnlySteps(codes[order[j]], x) {
      assert CountedStep(codes, order, x, ivs[x]);
      var i, k :| 0 <= i < |order| && 0 <= order[i] < |codes| && 0 <= k < |codes[order[i]]| && StepOf(codes[order[i]][k], x) == Some(ivs[x]);
      SingleStep(codes, order, x, i, k);
    }
  }

  lemma FoundAreOld(codes: seq<Body>, order: seq<int>, ivs: map<string, int>, pres: set<int>, lo: nat)
    requires (forall x :: x in ivs ==> CountedStep(codes, order, x, ivs[x])) && AllOk(codes, pres, lo)
    ensures OldNames(ivs, lo)
  {
    hide StepOf, LoopDefs, AccFrom, Uses, Defs, TimesClean, InitsOnly;
    forall x | x in ivs ensures !AccFrom(x, lo) {
      assert CountedStep(codes, order, x, ivs[x]);
      var i, k :| 0 <= i < |order| && 0 <= order[i] < |codes| && 0 <= k < |codes[order[i]]| && StepOf(codes[order[i]][k], x) == Some(ivs[x]);
      assert BlockOk(codes[order[i]], order[i] in pres, lo);
      StepDefines(codes[order[i]][k], x);
      assert x in Uses(codes[order[i]][k]) + Defs(codes[order[i]][k]);
    }
  }

  function TotalDefs(codes: seq<Body>, x: string): int {
    if codes == [] then 0 else TotalDefs(codes[..|codes| - 1], x) + DefsIn(codes[|codes| - 1], x)
  }

  function CountOf(counts: map<string, int>, x: string): int { if x in counts then counts[x] else 0 }

  method CountBlock(counts0: map<string, int>, code: Body) returns (counts: map<string, int>)
    ensures forall x :: CountOf(counts, x) == CountOf(counts0, x) + DefsIn(code, x)
  {
    counts := counts0;
    var n := |code|;
    assert code[n..] == [];
    while n > 0
      invariant 0 <= n <= |code| && forall x :: CountOf(counts, x) == CountOf(counts0, x) + DefsIn(code[n..], x)
    {
      n := n - 1;
      assert code[n..][0] == code[n] && code[n..][1..] == code[n + 1..];
      var d := DestinationOf(code[n]);
      DestinationDefs(code[n]);
      if d.Some? { counts := counts[d.value := CountOf(counts, d.value) + 1]; }
      hide Defs, DestinationOf;
    }
    assert code[0..] == code;
  }

  /** How often each name is written in the whole function. */
  method CountDefinitions(codes: seq<Body>) returns (counts: map<string, int>)
    ensures forall x :: CountOf(counts, x) == TotalDefs(codes, x)
  {
    hide CountOf;
    counts := map[];
    NoCounts();
    for n := 0 to |codes|
      invariant forall x :: CountOf(counts, x) == TotalDefs(codes[..n], x)
    {
      assert codes[..n + 1][..n] == codes[..n];
      counts := CountBlock(counts, codes[n]);
    }
    assert codes[..|codes|] == codes;
  }

  lemma NoCounts()
    ensures forall x :: CountOf(map[], x) == 0
  {
  }

  // ----- No product is left -----

  lemma {:induction false} LoopDefsSame(a: seq<Body>, c: seq<Body>, order: seq<int>, x: string)
    requires forall j :: 0 <= j < |order| ==> 0 <= order[j] < |a| && order[j] < |c| && DefsIn(c[order[j]], x) == DefsIn(a[order[j]], x)
    ensures LoopDefs(c, order, x) == LoopDefs(a, order, x)
    decreases |order|
  {
    hide DefsIn;
    if order != [] {
      var tail := order[1..];
      forall j | 0 <= j < |tail| ensures 0 <= tail[j] < |a| && tail[j] < |c| && DefsIn(c[tail[j]], x) == DefsIn(a[tail[j]], x) {
        assert tail[j] == order[j + 1];
      }
      LoopDefsSame(a, c, tail, x);
    }
  }

  lemma AccFromZero(x: string)
    ensures IsAcc(x) ==> AccFrom(x, 0)
  {
    if IsAcc(x) {
      var n: nat :| x == AccName(n);
    }
    hide AccName;
  }

  lemma NoAccStep(code: Body, k: int, x: string)
    requires NoAccIn(code, 0) && 0 <= k < |code| && StepOf(code[k], x).Some?
    ensures !IsAcc(x)
  {
    StepDefines(code[k], x);
    assert x in Uses(code[k]) + Defs(code[k]);
    AccFromZero(x);
    hide IsAcc, AccFrom, Uses, Defs, StepOf;
  }

  /** The code that one of the loop's blocks came with, and that it has now. */
  lemma KinOf(codes0: seq<Body>, start: seq<Body>, codes: seq<Body>, pres: set<int>, b: int)
    requires Extended(codes0, start) && Kindred(pres, start, codes) && 0 <= b < |codes0| && b !in pres
    ensures |codes| >= |codes0| && Kin(codes0[b], codes[b])
  {
    hide Kin;
  }

  lemma InductiveStays(codes0: seq<Body>, start: seq<Body>, codes: seq<Body>, order: seq<int>, pres: set<int>, x: string, step: int)
    requires Extended(codes0, start) && Kindred(pres, start, codes) && NoAccumulators(codes0) && CountedStep(codes0, order, x, step)
    requires forall j :: 0 <= j < |order| ==> 0 <= order[j] < |codes0| && order[j] !in pres
    ensures CountedStep(codes, order, x, step)
  {
    var i, k :| 0 <= i < |order| && 0 <= order[i] < |codes0| && 0 <= k < |codes0[order[i]]| && StepOf(codes0[order[i]][k], x) == Some(step);
    NoAccStep(codes0[order[i]], k, x);
    hide LoopDefs, DefsIn, StepOf, IsAcc, NoAccIn, Times, Extended, Kindred;
    forall j | 0 <= j < |order| ensures 0 <= order[j] < |codes0| <= |codes| && Kin(codes0[order[j]], codes[order[j]]) {
      KinOf(codes0, start, codes, pres, order[j]);
    }
    LoopDefsSame(codes0, codes, order, x);
    assert HasStep(codes0[order[i]], x, step);
    assert HasStep(codes[order[i]], x, step);
  }

  lemma CandidateIs(codes0: seq<Body>, i: Instruction, x: string, ivs: map<string, int>, counts: map<string, int>)
    requires Reducible(codes0, i, x) && x in ivs && forall y :: CountOf(counts, y) == TotalDefs(codes0, y)
    ensures Candidate(i, ivs, counts)
  {
    hide TotalDefs;
    assert CountOf(counts, i.destination) == 1;
  }

  lemma NoneOf(codes: seq<Body>, order: seq<int>, ivs: map<string, int>, counts: map<string, int>, b: int, k: int)
    requires NoneLeft(codes, order, ivs, counts) && b in order && 0 <= b < |codes| && 0 <= k < |codes[b]|
    ensures !Candidate(codes[b][k], ivs, counts)
  {
    hide Candidate;
    var i :| 0 <= i < |order| && order[i] == b;
    assert NoneIn(codes[order[i]], ivs, counts);
  }

  lemma BecomesProductless(loop: Loop, codes0: seq<Body>, codes: seq<Body>, ivs: map<string, int>, counts: map<string, int>)
    requires NoneLeft(codes, InOrder(|codes0|, loop.body), ivs, counts) && forall y :: CountOf(counts, y) == TotalDefs(codes0, y)
    requires forall x, step :: Inductive(codes0, InOrder(|codes0|, loop.body), x, step) ==> x in ivs
    requires forall b :: b in loop.body ==> 0 <= b < |codes0|
    ensures Productless(loop, codes0, codes)
  {
    var order := InOrder(|codes0|, loop.body);
    hide NoneLeft, CountOf, TotalDefs, Inductive, InOrder, Reducible, Candidate;
    forall b, k, x, step | 0 <= b < |codes| && b in loop.body && 0 <= k < |codes[b]| && Inductive(codes0, order, x, step)
      ensures !Reducible(codes0, codes[b][k], x)
    {
      NoneOf(codes, order, ivs, counts, b, k);
      if Reducible(codes0, codes[b][k], x) { CandidateIs(codes0, codes[b][k], x, ivs, counts); }
    }
  }

  lemma StaysProductless(loop: Loop, codes0: seq<Body>, before: seq<Body>, after: seq<Body>, pres: set<int>)
    requires Productless(loop, codes0, before) && Kindred(pres, before, after) && forall b :: b in loop.body ==> b !in pres
    ensures Productless(loop, codes0, after)
  {
    var order := InOrder(|codes0|, loop.body);
    hide Kin, TotalDefs, Inductive, InOrder;
    forall b, k, x, step | 0 <= b < |after| && b in loop.body && 0 <= k < |after[b]| && Inductive(codes0, order, x, step)
      ensures !Reducible(codes0, after[b][k], x)
    {
      if Reducible(codes0, after[b][k], x) {
        KinProducts(before[b], after[b], k);
        assert false;
      }
    }
  }

  lemma KinProducts(before: Body, after: Body, k: int)
    requires Kin(before, after) && 0 <= k < |after| && Times(after[k])
    ensures after[k] in before
  {
    hide IsAcc, DefsIn, HasStep, Times;
  }

  /** The loops with a preheader among the first `n` have no product left. */
  ghost predicate AllProductless(loops: seq<Loop>, pre: map<int, int>, n: int, codes0: seq<Body>, codes: seq<Body>) {
    forall i :: 0 <= i < n && i < |loops| && loops[i].header in pre ==> Productless(loops[i], codes0, codes)
  }

  lemma AllProductlessMore(g: Graph, loops: seq<Loop>, r: Graph, pre: map<int, int>, n: int, codes0: seq<Body>, before: seq<Body>, after: seq<Body>)
    requires Preheaded(g, loops, |loops|, r, pre) && LoopsAre(g, loops, |g.succ|) && 0 <= n < |loops|
    requires AllProductless(loops, pre, n, codes0, before) && Kindred(NewBlocks(pre), before, after)
    requires loops[n].header in pre ==> Productless(loops[n], codes0, after)
    ensures AllProductless(loops, pre, n + 1, codes0, after)
  {
    hide Productless, Kindred, Natural, Preheaded;
    forall i | 0 <= i < n + 1 && loops[i].header in pre ensures Productless(loops[i], codes0, after) {
      if i < n {
        BodyIsOld(g, loops, r, pre, i);
        StaysProductless(loops[i], codes0, before, after, NewBlocks(pre));
      }
    }
  }

  lemma BodyIsOld(g: Graph, loops: seq<Loop>, r: Graph, pre: map<int, int>, i: int)
    requires Preheaded(g, loops, |loops|, r, pre) && 0 <= i < |loops| && Natural(g, loops[i])
    ensures forall b :: b in loops[i].body ==> 0 <= b < |g.succ| && b !in NewBlocks(pre)
  {
    hide *;
    NewBlocksArePreheaders(g, loops, r, pre);
    forall b | b in loops[i].body ensures 0 <= b < |g.succ| { BodyInRange(g, loops[i], b); }
  }

  lemma NoneProductless(loops: seq<Loop>, pre: map<int, int>, codes0: seq<Body>, codes: seq<Body>)
    ensures AllProductless(loops, pre, 0, codes0, codes)
  {
  }

  /** Reduces one loop. */
  method ReduceInLoop(codes0: seq<Body>, g: Graph, loops: seq<Loop>, r: Graph, pre: map<int, int>, i: int, counts: map<string, int>, counter0: nat,
                      ghost first: seq<Body>, ghost start: seq<Body>)
    returns (codes: seq<Body>, counter: nat)
    requires PassState(g, loops, r, pre, codes0, counter0) && 0 <= i < |loops| && loops[i].header in pre
    requires |first| == |g.succ| && Extended(first, start) && Kindred(NewBlocks(pre), start, codes0) && NoAccumulators(first)
    requires forall x :: CountOf(counts, x) == TotalDefs(first, x)
    ensures PassState(g, loops, r, pre, codes, counter)
    ensures |codes| == |codes0| == |r.succ| && 0 <= EntryOf(pre) < |r.succ| && SameRuns(r, EntryOf(pre), codes0, codes)
    ensures Kindred(NewBlocks(pre), codes0, codes) && Productless(loops[i], first, codes)
  {
    hide *;
    StateParts(g, loops, r, pre, codes0, counter0);
    Ordered(g, loops);
    LoopIsReady(g, loops, r, pre, i);
    var order := InOrder(|g.succ|, loops[i].body);
    ghost var l := FrameOf(g, loops, r, pre, i);
    FrameIs(g, loops, r, pre, i);
    ReadyOrder(l);
    var ivs := FindInductionVariables(codes0, order);
    forall x | x in ivs ensures CountedStep(codes0, order, x, ivs[x]) { InductiveIff(codes0, order, x, ivs[x]); }
    StepsFound(codes0, order, ivs);
    FoundAreOld(codes0, order, ivs, l.pres, counter0);
    ReducingStarts(l, codes0, ivs, counter0);
    codes, counter := ReduceProducts(codes0, order, pre[loops[i].header], ivs, counts, counter0, l);
    ReducingFacts(l, codes, ivs, counter);
    StateIs(g, loops, r, pre, codes, counter);
    BodyIsOld(g, loops, r, pre, i);
    OrderIsOld(|g.succ|, loops[i].body, NewBlocks(pre));
    forall x, step | Inductive(first, order, x, step) ensures x in ivs {
      InductiveIff(first, order, x, step);
      InductiveStays(first, start, codes0, order, NewBlocks(pre), x, step);
      InductiveIff(codes0, order, x, step);
    }
    BecomesProductless(loops[i], first, codes, ivs, counts);
  }

  lemma OrderIsOld(n: nat, body: set<int>, pres: set<int>)
    requires forall b :: b in body ==> b !in pres
    ensures var order := InOrder(n, body); forall j :: 0 <= j < |order| ==> 0 <= order[j] < n && order[j] !in pres
  {
    var order := InOrder(n, body);
    forall j | 0 <= j < |order| ensures 0 <= order[j] < n && order[j] !in pres { assert order[j] in order; }
  }

  lemma StateParts(g: Graph, loops: seq<Loop>, r: Graph, pre: map<int, int>, codes: seq<Body>, counter: nat)
    requires PassState(g, loops, r, pre, codes, counter)
    ensures Preheaded(g, loops, |loops|, r, pre) && LoopsAre(g, loops, |g.succ|)
    ensures |codes| == |r.succ| && AllOk(codes, NewBlocks(pre), counter)
  {
    hide LoopsAre, AllOk, LoopServed;
  }

  lemma StateIs(g: Graph, loops: seq<Loop>, r: Graph, pre: map<int, int>, codes: seq<Body>, counter: nat)
    requires Preheaded(g, loops, |loops|, r, pre) && LoopsAre(g, loops, |g.succ|)
    requires |codes| == |r.succ| && AllOk(codes, NewBlocks(pre), counter)
    ensures PassState(g, loops, r, pre, codes, counter)
  {
    hide LoopsAre, AllOk, Preheaded;
  }

  lemma ReadyOrder(l: LoopFrame)
    requires LoopReady(l)
    ensures (forall j :: 0 <= j < |l.order| ==> 0 <= l.order[j] < |l.g.succ|) && 0 <= l.entry < |l.g.succ|
  {
    hide SingleEntry;
  }

  lemma ReducingStarts(l: LoopFrame, codes: seq<Body>, ivs: map<string, int>, lo: nat)
    requires LoopReady(l) && |codes| == |l.g.succ|
    requires AllOk(codes, l.pres, lo) && StepsOnly(codes, l.order, ivs) && OldNames(ivs, lo)
    ensures Reducing(l, codes, ivs, lo)
  {
    hide LoopReady, AllOk, StepsOnly, OldNames;
  }

  /** No name of the function is an accumulator's. */
  ghost predicate NoAccumulators(codes: seq<Body>) {
    forall b :: 0 <= b < |codes| ==> NoAccIn(codes[b], 0)
  }

  lemma StartsOk(before: seq<Body>, after: seq<Body>, pres: set<int>)
    requires NoAccumulators(before) && Extended(before, after) && forall b :: b in pres ==> |before| <= b
    ensures AllOk(after, pres, 0)
  {
    hide AccFrom, IsAcc;
    forall b | 0 <= b < |after| ensures BlockOk(after[b], b in pres, 0) {
      if b < |before| {
        NoAccTimes(before[b]);
      } else {
        assert LoneJump(after[b]);
        JumpOk(after[b]);
      }
      hide NoAccIn, TimesClean, InitsOnly;
    }
  }

  lemma NoAccTimes(code: Body)
    requires NoAccIn(code, 0)
    ensures TimesClean(code)
  {
    forall x ensures IsAcc(x) ==> AccFrom(x, 0) { AccFromZero(x); }
    hide IsAcc, AccFrom;
  }

  lemma JumpOk(code: Body)
    requires LoneJump(code)
    ensures InitsOnly(code) && NoAccIn(code, 0) && TimesClean(code)
  {
  }

  lemma ValuesBetween(pre: map<int, int>, lo: int, hi: int)
    requires forall h :: h in pre ==> lo <= pre[h] < hi
    ensures forall b :: b in NewBlocks(pre) ==> lo <= b < hi
  {
  }

  /** Preheaders are new blocks. */
  lemma NewBlocksArePreheaders(g: Graph, loops: seq<Loop>, r: Graph, pre: map<int, int>)
    requires Preheaded(g, loops, |loops|, r, pre)
    ensures forall b :: b in NewBlocks(pre) ==> |g.succ| <= b < |r.succ|
  {
    assert OthersKept(g, r, pre);
    ValuesBetween(pre, |g.succ|, |r.succ|);
    hide Preheaded;
  }

  method PreheaderBlocks(codes0: seq<Body>, n: nat) returns (codes: seq<Body>)
    requires |codes0| <= n
    ensures |codes| == n && Extended(codes0, codes)
  {
    codes := codes0 + seq(n - |codes0|, _ => [Jump(".licm_preheader")]);
  }

  lemma PassStarts(g: Graph, loops: seq<Loop>, r: Graph, pre: map<int, int>, codes0: seq<Body>, codes: seq<Body>)
    requires Preheaded(g, loops, |loops|, r, pre) && LoopsAre(g, loops, |g.succ|)
    requires NoAccumulators(codes0) && Extended(codes0, codes) && |codes0| == |g.succ| && |codes| == |r.succ|
    ensures PassState(g, loops, r, pre, codes, 0)
  {
    hide *;
    NewBlocksArePreheaders(g, loops, r, pre);
    StartsOk(codes0, codes, NewBlocks(pre));
    StateIs(g, loops, r, pre, codes, 0);
  }

  /** From the blocks without preheaders to the reduced ones. */
  lemma PassOutcomes(g: Graph, loops: seq<Loop>, r: Graph, pre: map<int, int>, codes0: seq<Body>, codes1: seq<Body>, codes: seq<Body>)
    requires Preheaded(g, loops, |loops|, r, pre) && Extended(codes0, codes1) && |codes0| == |g.succ| && |codes1| == |codes| == |r.succ| && |g.succ| > 0
    requires 0 <= EntryOf(pre) < |r.succ| && SameRuns(r, EntryOf(pre), codes1, codes)
    ensures SameOutcomes(g, codes0, r, codes, EntryOf(pre))
  {
    hide Preheaded, WordMachine, RunBlocks, Extended, Detoured;
    GraphGrows(g, loops, r, pre);
    PreheadersDetour(g, loops, r, pre, codes0, codes1);
    var entry := EntryOf(pre);
    forall m, size, low, s: Store, fuel: nat | WordMachine(m, size, low) ensures RunMatched(m, g, codes0, r, codes, entry, s, fuel) {
      var f := DetoursRun(m, g, codes0, r, codes1, 0, s, [], fuel);
      if 0 in pre {
        EntryLeads(g, loops, r, pre);
        ThroughDetour(m, g, codes0, r, codes1, 0, entry, s, [], f);
        f := f + 1;
      }
      assert RunBlocks(m, codes1, r, entry, s, [], f) == RunBlocks(m, codes, r, entry, s, [], f);
    }
  }

  lemma EntryLeads(g: Graph, loops: seq<Loop>, r: Graph, pre: map<int, int>)
    requires Preheaded(g, loops, |loops|, r, pre) && 0 in pre
    ensures LeadsTo(r, |g.succ|, 0, pre[0]) && pre[0] >= |g.succ|
  {
    assert Heads(loops, |loops|, 0);
    var k :| 0 <= k < |loops| && loops[k].header == 0;
    assert LoopServed(g, loops[k], r, pre);
    hide NonLatch, LatchOnly, ValidGraph, AllLed;
  }

  lemma EntryInGraph(g: Graph, loops: seq<Loop>, r: Graph, pre: map<int, int>)
    requires Preheaded(g, loops, |loops|, r, pre)
    ensures 0 <= EntryOf(pre) < |r.succ| && 0 < |g.succ| <= |r.succ|
  {
    hide LoopServed, AllLed, Heads;
  }

  /** The whole pass: every run of the function's blocks makes the same calls and
      ends alike, and no loop with a preheader has a product of an induction variable
      left. */
  method ReduceLoopStrength(codes0: seq<Body>, g: Graph) returns (codes: seq<Body>, r: Graph, entry: int, ghost loops: seq<Loop>, ghost pre: map<int, int>)
    requires ValidGraph(g) && |codes0| == |g.succ| && NoAccumulators(codes0)
    ensures 0 < |codes0| && 0 <= entry < |codes| == |r.succ| && ValidGraph(r)
    ensures SameOutcomes(g, codes0, r, codes, entry)
    ensures LoopsAre(g, loops, |g.succ|) && Preheaded(g, loops, |loops|, r, pre) && entry == EntryOf(pre)
    ensures AllProductless(loops, pre, |loops|, codes0, codes)
  {
    hide *;
    GraphNonempty(g);
    var found := FindNaturalLoops(g);
    loops := found;
    Ordered(g, found);
    var heads;
    r, heads := InsertPreheaders(g, found);
    pre, entry := heads, EntryOf(heads);
    EntryInGraph(g, found, r, heads);
    var counts := CountDefinitions(codes0);
    codes := PreheaderBlocks(codes0, |r.succ|);
    ghost var start := codes;
    var counter := 0;
    PassStarts(g, found, r, heads, codes0, codes);
    SameRunsSelf(r, entry, codes);
    KindredSelf(NewBlocks(heads), codes);
    NoneProductless(found, heads, codes0, codes);
    for i := 0 to |found|
      invariant |codes| == |start| == |r.succ| && 0 <= entry < |r.succ| && counter >= 0
      invariant PassState(g, found, r, heads, codes, counter) && SameRuns(r, entry, start, codes)
      invariant Kindred(NewBlocks(heads), start, codes) && AllProductless(found, heads, i, codes0, codes)
    {
      ghost var before := codes;
      if found[i].header in heads {
        codes, counter := ReduceInLoop(codes, g, found, r, heads, i, counts, counter, codes0, start);
        SameRunsThen(r, entry, start, before, codes);
        KindredThen(NewBlocks(heads), start, before, codes);
      } else {
        KindredSelf(NewBlocks(heads), codes);
      }
      AllProductlessMore(g, found, r, heads, i, codes0, before, codes);
    }
    PassOutcomes(g, found, r, heads, codes0, start, codes);
    GraphIsValid(g, loops, r, pre);
  }

  lemma GraphNonempty(g: Graph)
    requires ValidGraph(g)
    ensures 0 < |g.succ| == |g.pred|
  {
  }

  lemma GraphIsValid(g: Graph, loops: seq<Loop>, r: Graph, pre: map<int, int>)
    requires Preheaded(g, loops, |loops|, r, pre)
    ensures ValidGraph(r)
  {
    hide ValidGraph, LoopServed, OthersKept, AllLed;
  }

  // ----- For a whole body -----

  lemma BlockWithoutAccumulators(body: Body, g: ControlFlowGraph, cuts: seq<int>, k: int)
    requires InBlock(body, g, cuts, k) && NoAccIn(body, 0)
    ensures |CodesOf(g.blocks)| == |g.blocks| && NoAccIn(CodesOf(g.blocks)[k], 0)
  {
    hide Wired, AccFrom, CodesOf;
    CodeIs(body, g, cuts, k);
    var code, at := CodesOf(g.blocks)[k], if body[cuts[k]].Label? then cuts[k] + 1 else cuts[k];
    assert forall i :: 0 <= i < |code| ==> code[i] == body[at + i];
  }

  lemma BodyWithoutAccumulators(body: Body, g: ControlFlowGraph, cuts: seq<int>)
    requires Wired(body, g, cuts) && NoAccIn(body, 0)
    ensures NoAccumulators(CodesOf(g.blocks))
  {
    hide NoAccIn;
    forall k | 0 <= k < |g.blocks| ensures NoAccIn(CodesOf(g.blocks)[k], 0) {
      WiredFacts(body, g, cuts, k);
      if body != [] { BlockWithoutAccumulators(body, g, cuts, k); } else { EmptyCode(body, g, cuts, k); NoAccInNothing(); }
    }
    hide Wired;
  }

  lemma NoAccInNothing()
    ensures NoAccIn([], 0)
  {
  }

  /** Flat code into blocks, and these reduced. */
  method ReduceBody(body: Body) returns (codes: seq<Body>, r: Graph, entry: int)
    requires WellFormed(body) && NoAccIn(body, 0)
    ensures 0 <= entry < |codes| == |r.succ| && ValidGraph(r)
    ensures forall m, size, low, s: Store, fuel: nat :: WordMachine(m, size, low) ==> BodyMatched(m, body, r, codes, entry, s, fuel)
  {
    hide *;
    var g, cuts := BuildCfg(body);
    WiredIs(body, g, cuts);
    WiredSize(body, g, cuts);
    BodyWithoutAccumulators(body, g, cuts);
    ghost var loops, pre;
    codes, r, entry, loops, pre := ReduceLoopStrength(CodesOf(g.blocks), g.graph);
    forall m, size, low, s: Store, fuel: nat | WordMachine(m, size, low) ensures BodyMatched(m, body, r, codes, entry, s, fuel) {
      OutcomesMatch(g.graph, CodesOf(g.blocks), r, codes, entry, m, size, low, s);
      BodyMatches(m, body, g, cuts, r, codes, entry, s, fuel);
    }
  }

  lemma OutcomesMatch(g: Graph, before: seq<Body>, r: Graph, after: seq<Body>, entry: int, m: Machine, size: int, low: int, s: Store)
    requires 0 < |before| == |g.succ| && 0 <= entry < |after| == |r.succ| && SameOutcomes(g, before, r, after, entry) && WordMachine(m, size, low)
    ensures forall h: nat :: RunMatched(m, g, before, r, after, entry, s, h)
  {
    hide WordMachine, RunMatched;
  }
}
