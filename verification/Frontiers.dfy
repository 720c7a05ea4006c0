/** Dominance frontiers (cc/cfg.py:262-284), proved equal to their definition. */
module Frontiers {
  import opened Cfg
  import opened Dominance
  import opened Dominators

  type FrontierMap = map<int, set<int>>

  predicate InFrontier(df: FrontierMap, b: int, f: int) { b in df && f in df[b] }

  /** `b` dominates a reachable predecessor of `f`. */
  ghost predicate DominatesPredecessorOf(g: Graph, idom: Parents, b: int, f: int) {
    IsBlock(g, f) && f < |g.pred| && exists p :: p in g.pred[f] && p in idom && Dominates(g, b, p)
  }

  /** The definition: `b` dominates a predecessor of `f` but does not strictly
      dominate `f`. */
  ghost predicate FrontierOf(g: Graph, idom: Parents, b: int, f: int) {
    DominatesPredecessorOf(g, idom, b, f) && !StrictlyDominates(g, b, f)
  }

  // ----- One runner -----

  /** The blocks strictly between a predecessor and the immediate dominator. */
  ghost predicate Passed(t: Parents, po: map<int, int>, b: int, from: int, stop: int)
    requires Tree(t, po) && from in t && stop in t
  {
    Above(t, po, b, from) && !Above(t, po, b, stop)
  }

  ghost predicate Added(before: FrontierMap, after: FrontierMap, t: Parents, po: map<int, int>, f: int, from: int, stop: int)
    requires Tree(t, po) && from in t && stop in t
  {
    && after.Keys == before.Keys
    && forall b, x :: b in before ==> (InFrontier(after, b, x) <==> InFrontier(before, b, x) || (x == f && Passed(t, po, b, from, stop)))
  }

  lemma AddedStep(before: FrontierMap, now: FrontierMap, t: Parents, po: map<int, int>, f: int, from: int, runner: int)
    requires Tree(t, po) && from in t && runner in t && runner != 0 && runner in before && Above(t, po, runner, from)
    requires Added(before, now, t, po, f, from, runner)
    ensures Added(before, now[runner := now[runner] + {f}], t, po, f, from, t[runner])
  {
    var after := now[runner := now[runner] + {f}];
    forall b ensures Passed(t, po, b, from, t[runner]) <==> Passed(t, po, b, from, runner) || b == runner {
      if Above(t, po, runner, t[runner]) { AboveIsHigher(t, po, runner, t[runner]); }
    }
    assert forall b, x :: InFrontier(after, b, x) <==> InFrontier(now, b, x) || (b == runner && x == f);
    hide Passed, InFrontier;
  }

  /** Walks from a predecessor up to the immediate dominator. */
  method Walk(df0: FrontierMap, t: Parents, f: int, from: int, ghost po: map<int, int>) returns (df: FrontierMap)
    requires Tree(t, po) && f in t && from in t && Above(t, po, t[f], from) && t.Keys <= df0.Keys
    ensures Added(df0, df, t, po, f, from, t[f])
  {
    df := df0;
    var stop := t[f];
    var runner := from;
    while runner != stop
      invariant runner in t && Above(t, po, runner, from) && Above(t, po, stop, runner)
      invariant Added(df0, df, t, po, f, from, runner)
      decreases po[0] - po[runner]
    {
      AddedStep(df0, df, t, po, f, from, runner);
      df := df[runner := df[runner] + {f}];
      AboveTransitive(t, po, t[runner], runner, from);
      if t[runner] == runner { break; }
      runner := t[runner];
    }
  }

  // ----- One join -----

  ghost predicate PassedBySome(t: Parents, po: map<int, int>, b: int, ps: seq<int>, stop: int)
    requires Tree(t, po) && stop in t
  {
    exists p :: p in ps && p in t && Passed(t, po, b, p, stop)
  }

  ghost predicate Joined(before: FrontierMap, after: FrontierMap, t: Parents, po: map<int, int>, f: int, ps: seq<int>)
    requires Tree(t, po) && f in t
  {
    && after.Keys == before.Keys
    && forall b, x :: b in before ==> (InFrontier(after, b, x) <==> InFrontier(before, b, x) || (x == f && PassedBySome(t, po, b, ps, t[f])))
  }

  lemma PassedBySomeMore(t: Parents, po: map<int, int>, b: int, ps: seq<int>, p: int, stop: int)
    requires Tree(t, po) && stop in t
    ensures PassedBySome(t, po, b, ps + [p], stop) <==> PassedBySome(t, po, b, ps, stop) || (p in t && Passed(t, po, b, p, stop))
  {
    hide Passed;
    assert p in ps + [p];
    assert forall q :: q in ps + [p] <==> q in ps || q == p;
  }

  /** Every processed predecessor lies under the immediate dominator. */
  ghost predicate Under(t: Parents, po: map<int, int>, f: int, ps: seq<int>)
    requires Tree(t, po) && f in t
  {
    forall p :: p in ps && p in t ==> Above(t, po, t[f], p)
  }

  method WalkAll(df0: FrontierMap, t: Parents, f: int, ps: seq<int>, ghost po: map<int, int>) returns (df: FrontierMap)
    requires Tree(t, po) && f in t && t.Keys <= df0.Keys && Under(t, po, f, ps)
    ensures Joined(df0, df, t, po, f, ps)
  {
    df := df0;
    for i := 0 to |ps|
      invariant Joined(df0, df, t, po, f, ps[..i])
    {
      var p := ps[i];
      assert ps[..i + 1] == ps[..i] + [p] && p in ps;
      forall b { PassedBySomeMore(t, po, b, ps[..i], p, t[f]); }
      if p in t { df := Walk(df, t, f, p, po); }
      hide PassedBySome, Passed, InFrontier;
    }
    assert ps[..|ps|] == ps;
  }

  // ----- All joins -----

  /** What the code records for a block with several predecessors. */
  ghost predicate Recorded(g: Graph, t: Parents, po: map<int, int>, b: int, f: int)
    requires ValidGraph(g) && Tree(t, po)
  {
    f in t && IsBlock(g, f) && |g.pred[f]| >= 2 && PassedBySome(t, po, b, g.pred[f], t[f])
  }

  lemma CompleteUnder(g: Graph, t: Parents, po: map<int, int>, f: int)
    requires Complete(g, t, po) && f in t && IsBlock(g, f)
    ensures Tree(t, po) && f < |g.pred| && Under(t, po, f, g.pred[f])
  {
    if f == 0 {
      forall p | p in g.pred[f] && p in t ensures Above(t, po, t[f], p) { EntryAbove(t, po, p); }
    } else {
      assert CommonAbove(g, t, po, t[f], f);
    }
  }

  lemma CompleteFacts(g: Graph, t: Parents, po: map<int, int>)
    requires Complete(g, t, po)
    ensures ValidGraph(g) && Tree(t, po)
    ensures forall b :: b in t ==> IsBlock(g, b)
  {
  }

  /** The records for blocks numbered below `n`. */
  ghost predicate RecordedBelow(g: Graph, t: Parents, po: map<int, int>, df: FrontierMap, n: int)
    requires ValidGraph(g) && Tree(t, po)
  {
    && df.Keys == t.Keys
    && forall b, f :: b in t ==> (InFrontier(df, b, f) <==> 0 <= f < n && Recorded(g, t, po, b, f))
  }

  lemma RecordMore(g: Graph, t: Parents, po: map<int, int>, before: FrontierMap, after: FrontierMap, f: int)
    requires ValidGraph(g) && Tree(t, po) && f in t && IsBlock(g, f) && |g.pred[f]| >= 2
    requires RecordedBelow(g, t, po, before, f) && Joined(before, after, t, po, f, g.pred[f])
    ensures RecordedBelow(g, t, po, after, f + 1)
  {
    hide InFrontier, PassedBySome;
  }

  lemma RecordNone(g: Graph, t: Parents, po: map<int, int>, df: FrontierMap, f: int)
    requires ValidGraph(g) && Tree(t, po) && IsBlock(g, f) && (f !in t || |g.pred[f]| < 2)
    requires RecordedBelow(g, t, po, df, f)
    ensures RecordedBelow(g, t, po, df, f + 1)
  {
    hide InFrontier, PassedBySome;
  }

  lemma RecordStarts(g: Graph, t: Parents, po: map<int, int>)
    requires ValidGraph(g) && Tree(t, po)
    ensures RecordedBelow(g, t, po, map b | b in t :: {}, 0)
  {
  }

  /** A block with a single predecessor has it as immediate dominator. */
  lemma SinglePredecessor(g: Graph, t: Parents, po: map<int, int>, b: int, f: int)
    requires Complete(g, t, po) && f in t && f != 0 && IsBlock(g, f) && Tree(t, po) && |g.pred[f]| < 2
    ensures !PassedBySome(t, po, b, g.pred[f], t[f])
  {
    var p := ForwardPredecessor(g, po, f);
    OnlyPredecessor(g, t, po, f, p);
    if Above(t, po, b, p) { AboveTransitive(t, po, b, p, t[f]); }
    hide Complete;
  }

  lemma OnlyPredecessor(g: Graph, t: Parents, po: map<int, int>, f: int, p: int)
    requires Complete(g, t, po) && f in t && f != 0 && Tree(t, po) && IsBlock(g, f) && f < |g.pred|
    requires |g.pred[f]| < 2 && p in g.pred[f] && p in po
    ensures p in t && g.pred[f] == [p] && Above(t, po, p, t[f])
  {
    hide Complete;
    assert Complete(g, t, po);
    assert g.pred[f] == [p];
    CompleteSettled(g, t, po, f);
    assert CommonAbove(g, t, po, p, f);
  }

  lemma CompleteSettled(g: Graph, t: Parents, po: map<int, int>, f: int)
    requires Complete(g, t, po) && f in t && f != 0
    ensures ValidGraph(g) && Tree(t, po) && Settled(g, t, po, f) && t.Keys == po.Keys
  {
  }

  /** Above the immediate dominator means strictly dominating. */
  lemma StrictlyAbove(g: Graph, t: Parents, po: map<int, int>, b: int, f: int)
    requires Complete(g, t, po) && f in t && f != 0 && Tree(t, po)
    ensures Above(t, po, b, t[f]) <==> StrictlyDominates(g, b, f)
  {
    AboveIsDominates(g, t, po, b, f);
    if Above(t, po, b, t[f]) { AboveIsHigher(t, po, b, t[f]); }
  }

  lemma PassedIsFrontier(g: Graph, t: Parents, po: map<int, int>, b: int, f: int)
    requires Complete(g, t, po) && f in t && Tree(t, po) && IsBlock(g, f) && f < |g.pred|
    ensures f != 0 ==> (PassedBySome(t, po, b, g.pred[f], t[f]) <==> FrontierOf(g, t, b, f))
    ensures f == 0 ==> (PassedBySome(t, po, b, g.pred[f], t[f]) <==> b != 0 && DominatesPredecessorOf(g, t, b, f))
  {
    assert t[0] == 0;
    forall p | p in t ensures Above(t, po, b, p) <==> Dominates(g, b, p) { AboveIsDominates(g, t, po, b, p); }
    if f != 0 { StrictlyAbove(g, t, po, b, f); }
    hide Complete, Dominates, StrictlyDominates;
  }

  /** Frontiers are exact for every block but the entry; for the entry the code
      asks for two incoming edges and leaves the entry itself out. */
  ghost predicate ExactFrontiers(g: Graph, idom: Parents, df: FrontierMap) {
    && df.Keys == idom.Keys && 0 < |g.pred|
    && (forall b, f :: b in idom && f != 0 ==> (InFrontier(df, b, f) <==> f in idom && FrontierOf(g, idom, b, f)))
    && (forall b :: b in idom ==> (InFrontier(df, b, 0) <==> |g.pred[0]| >= 2 && b != 0 && DominatesPredecessorOf(g, idom, b, 0)))
  }

  lemma RecordedIsFrontier(g: Graph, t: Parents, po: map<int, int>, b: int, f: int)
    requires Complete(g, t, po) && ValidGraph(g) && Tree(t, po)
    ensures f != 0 ==> (Recorded(g, t, po, b, f) <==> f in t && FrontierOf(g, t, b, f))
    ensures Recorded(g, t, po, b, 0) <==> |g.pred[0]| >= 2 && b != 0 && DominatesPredecessorOf(g, t, b, 0)
  {
    CompleteFacts(g, t, po);
    PassedIsFrontier(g, t, po, b, 0);
    if f in t {
      PassedIsFrontier(g, t, po, b, f);
      if f != 0 && |g.pred[f]| < 2 { SinglePredecessor(g, t, po, b, f); }
    }
    hide Complete, PassedBySome, FrontierOf, DominatesPredecessorOf;
  }

  lemma SomePredecessors(g: Graph)
    requires ValidGraph(g)
    ensures 0 < |g.pred|
  {
  }

  lemma ExactIs(g: Graph, idom: Parents, df: FrontierMap)
    requires df.Keys == idom.Keys && 0 < |g.pred|
    requires forall b, f :: b in idom && f != 0 ==> (InFrontier(df, b, f) <==> f in idom && FrontierOf(g, idom, b, f))
    requires forall b :: b in idom ==> (InFrontier(df, b, 0) <==> |g.pred[0]| >= 2 && b != 0 && DominatesPredecessorOf(g, idom, b, 0))
    ensures ExactFrontiers(g, idom, df)
  {
    hide InFrontier, FrontierOf, DominatesPredecessorOf;
  }

  lemma RecordedEnd(g: Graph, t: Parents, po: map<int, int>, df: FrontierMap, b: int, f: int)
    requires Complete(g, t, po) && ValidGraph(g) && Tree(t, po) && RecordedBelow(g, t, po, df, |g.succ|) && b in t
    ensures f != 0 ==> (InFrontier(df, b, f) <==> f in t && FrontierOf(g, t, b, f))
    ensures 0 < |g.pred| && (f == 0 ==> (InFrontier(df, b, 0) <==> |g.pred[0]| >= 2 && b != 0 && DominatesPredecessorOf(g, t, b, 0)))
  {
    RecordedIsFrontier(g, t, po, b, f);
    hide PassedBySome, FrontierOf, DominatesPredecessorOf, InFrontier, Complete;
  }

  lemma RecordEnds(g: Graph, t: Parents, po: map<int, int>, df: FrontierMap)
    requires Complete(g, t, po) && ValidGraph(g) && Tree(t, po) && RecordedBelow(g, t, po, df, |g.succ|)
    ensures ExactFrontiers(g, t, df)
  {
    hide *;
    SomePredecessors(g);
    RecordedKeys(g, t, po, df, |g.succ|);
    forall b, f | b in t
      ensures f != 0 ==> (InFrontier(df, b, f) <==> f in t && FrontierOf(g, t, b, f))
      ensures InFrontier(df, b, 0) <==> |g.pred[0]| >= 2 && b != 0 && DominatesPredecessorOf(g, t, b, 0)
    {
      RecordedEnd(g, t, po, df, b, f);
      RecordedEnd(g, t, po, df, b, 0);
    }
    ExactIs(g, t, df);
  }

  method ComputeDominanceFrontiers(g: Graph, idom: Parents, ghost po: map<int, int>) returns (df: FrontierMap)
    requires Complete(g, idom, po)
    ensures ExactFrontiers(g, idom, df)
  {
    hide *;
    CompleteFacts(g, idom, po);
    df := map b | b in idom :: {};
    RecordStarts(g, idom, po);
    for f := 0 to |g.succ|
      invariant RecordedBelow(g, idom, po, df, f)
    {
      assert IsBlock(g, f) by { InRange(g, f); }
      BlockInRange(g, f);
      if f in idom && |g.pred[f]| >= 2 {
        CompleteUnder(g, idom, po, f);
        RecordedKeys(g, idom, po, df, f);
        var before := df;
        df := WalkAll(df, idom, f, g.pred[f], po);
        RecordMore(g, idom, po, before, df, f);
      } else {
        RecordNone(g, idom, po, df, f);
      }
    }
    RecordEnds(g, idom, po, df);
  }

  lemma InRange(g: Graph, f: int)
    requires 0 <= f < |g.succ|
    ensures IsBlock(g, f)
  {
  }

  lemma RecordedKeys(g: Graph, t: Parents, po: map<int, int>, df: FrontierMap, n: int)
    requires ValidGraph(g) && Tree(t, po) && RecordedBelow(g, t, po, df, n)
    ensures df.Keys == t.Keys
  {
  }

  // ----- The entry -----

  /** No reachable block leads back to the entry. */
  ghost predicate EntryOnce(g: Graph) {
    0 < |g.pred| && forall p :: p in g.pred[0] ==> !Reachable(g, p)
  }

  /** What is recorded of block 0 for `b` is what the definition asks for. */
  ghost predicate EntryExactFor(g: Graph, idom: Parents, df: FrontierMap, b: int) {
    InFrontier(df, b, 0) <==> FrontierOf(g, idom, b, 0)
  }

  /** Only the entry dominates the entry. */
  lemma EntryUndominated(g: Graph, b: int)
    requires ValidGraph(g) && b != 0
    ensures !StrictlyDominates(g, b, 0)
  {
    EntryReachable(g);
    hide ValidGraph;
  }

  lemma EntryDominates(g: Graph, p: int)
    requires ValidGraph(g) && IsBlock(g, p) && Reachable(g, p)
    ensures Dominates(g, 0, p)
  {
  }

  /** For the entry itself, never when it has a reachable predecessor; for another
      block, unless it dominates the only predecessor. */
  lemma EntryExactIff(g: Graph, idom: Parents, df: FrontierMap, b: int)
    requires ValidGraph(g) && DominatorTree(g, idom) && ExactFrontiers(g, idom, df) && b in idom
    ensures EntryExactFor(g, idom, df, b) <==>
      if b == 0 then EntryOnce(g) else |g.pred[0]| >= 2 || !DominatesPredecessorOf(g, idom, b, 0)
  {
    hide Reachable, Dominates;
    if b == 0 {
      if p :| p in g.pred[0] && Reachable(g, p) {
        assert IsBlock(g, p);
        EntryDominates(g, p);
        assert DominatesPredecessorOf(g, idom, 0, 0);
      }
      NotStrictlyItself(g, 0);
    } else {
      EntryUndominated(g, b);
    }
    hide StrictlyDominates, DominatesPredecessorOf;
  }

  lemma NotStrictlyItself(g: Graph, b: int)
    ensures !StrictlyDominates(g, b, b)
  {
  }

  /** The frontiers of all blocks agree with the definition about the entry if and
      only if no reachable block leads back to it. */
  lemma EntryExactForAllIff(g: Graph, idom: Parents, df: FrontierMap)
    requires ValidGraph(g) && DominatorTree(g, idom) && ExactFrontiers(g, idom, df)
    ensures (forall b :: b in idom ==> EntryExactFor(g, idom, df, b)) <==> EntryOnce(g)
  {
    hide Reachable, EntryExactFor;
    EntryExactIff(g, idom, df, 0);
    forall b | b in idom && EntryOnce(g) ensures EntryExactFor(g, idom, df, b) {
      EntryExactIff(g, idom, df, b);
      assert !DominatesPredecessorOf(g, idom, b, 0);
    }
  }

  /** Block 0 leads to block 1 and back: the definition puts block 0 in its own
      frontier, and nothing is recorded. */
  lemma BackToEntry(idom: Parents, df: FrontierMap)
    requires var g := Graph([[1], [0]], [[1], [0]]); DominatorTree(g, idom) && ExactFrontiers(g, idom, df)
    ensures var g := Graph([[1], [0]], [[1], [0]]); ValidGraph(g) && 0 in idom && FrontierOf(g, idom, 0, 0) && !InFrontier(df, 0, 0)
  {
    var g := Graph([[1], [0]], [[1], [0]]);
    assert PathTo(g, [0, 1], 1);
    assert Reachable(g, 1) && 1 in g.pred[0];
    hide PathTo, Reachable, StrictlyDominates, Dominates;
    EntryExactIff(g, idom, df, 0);
  }
}
