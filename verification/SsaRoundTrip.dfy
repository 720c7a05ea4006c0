/** Into SSA form and out again (cc/ssa.py:133-169, 668-727, 747-810): what comes out
    does what went in, and without suffixes it is what went in, but for copies of
    variables to themselves. */
module SsaRoundTrip {
  import opened Common
  import opened IR
  import opened Cfg
  import opened BlockRuns
  import opened EdgeSplitting
  import opened FlatBlocks
  import opened Dominance
  import opened Dominators
  import opened Frontiers
  import opened PhiPlacement
  import opened SsaNames
  import opened Renaming
  import opened SsaForm
  import opened SsaMeaning
  import opened SsaConversion
  import opened SsaDestruction
  import opened SsaSuffixes

  // ----- Phis stand at joins -----

  /** A phi needs two predecessors. */
  lemma PhiNeedsTwo(P: Problem, t: Parents, st: RenameState, e: Evidence, c: int, v: string)
    requires ConvertedWith(P, t, st, e) && HasPhi(P, c, v)
    ensures 0 <= c < |P.graph.pred| && |P.graph.pred[c]| >= 2
  {
    hide Complete, ExactFrontiers, PhisPlaced, Renamed, Tree, ValidGraph;
    assert Iterated(e.df, e.definitions[v], c);
    var q :| FrontierChain(e.df, e.definitions[v], q) && q[|q| - 1] == c;
    var b := q[|q| - 2];
    assert c in FrontierSet(e.df, b);
    assert c != 0;
    FrontierNeedsTwo(P.graph, t, e.po, e.df, b, c);
  }

  lemma FrontierNeedsTwo(g: Graph, t: Parents, po: map<int, int>, df: FrontierMap, b: int, f: int)
    requires ValidGraph(g) && Tree(t, po) && Complete(g, t, po) && ExactFrontiers(g, t, df) && InFrontier(df, b, f) && f != 0
    ensures 0 <= f < |g.pred| && |g.pred[f]| >= 2
  {
    hide Complete, Tree, FrontierOf, PassedBySome;
    RecordedIsFrontier(g, t, po, b, f);
  }

  lemma SplitHasNoCriticalEdges(P: Problem, t: Parents, st: RenameState, e: Evidence)
    requires ConvertedWith(P, t, st, e) && NoCritical(P.graph)
    ensures NoCriticalEdges(P)
  {
    hide ConvertedWith;
    forall p, c, v | 0 <= p < |P.graph.succ| && c in P.graph.succ[p] && HasPhi(P, c, v) ensures P.graph.succ[p] == [c] {
      PhiNeedsTwo(P, t, st, e, c, v);
    }
    hide HasPhi;
  }

  // ----- What the split blocks inherit -----

  lemma DetouredStraight(g: Graph, before: seq<Body>, r: Graph, after: seq<Body>)
    requires StraightBlocks(before) && Detoured(g, before, r, after)
    ensures StraightBlocks(after)
  {
    hide Detour;
  }

  lemma JumpMentionsNothing(code: Body)
    ensures LoneJump(code) ==> forall k, n :: 0 <= k < |code| ==> !Mentions(code[k], n)
  {
  }

  /** Names of the split blocks are names of the blocks that went in. */
  lemma MentionedBefore(g: Graph, before: seq<Body>, r: Graph, after: seq<Body>, b: int, k: int, n: string)
    requires Detoured(g, before, r, after) && 0 <= b < |after| && 0 <= k < |after[b]| && Mentions(after[b][k], n)
    ensures b < |before| && after[b] == before[b]
  {
    hide Mentions, Detour;
    if b >= |before| { JumpMentionsNothing(after[b]); }
  }

  lemma DetouredPresentable(g: Graph, before: seq<Body>, r: Graph, after: seq<Body>, excluded: set<string>)
    requires Presentable(before, excluded) && Detoured(g, before, r, after)
    ensures Presentable(after, excluded)
  {
    hide Mentions, Detour, Deversion, WrittenFirst;
    forall b, k, n | 0 <= b < |after| && 0 <= k < |after[b]| && Mentions(after[b][k], n)
      ensures Deversion(n) == n || (n !in excluded && WrittenFirst(after[0], n))
    {
      MentionedBefore(g, before, r, after, b, k, n);
    }
  }

  lemma JumpAssignsNothing(code: Body, v: string)
    ensures LoneJump(code) ==> !Assigns(code, v)
  {
    if LoneJump(code) { assert code[1..] == []; }
  }

  lemma NoNewNames(g: Graph, before: seq<Body>, r: Graph, after: seq<Body>, v: string)
    requires Detoured(g, before, r, after) && DefinedSomewhere(after, v)
    ensures DefinedSomewhere(before, v)
  {
    hide Detour, Assigns;
    var b :| Defines(after, b, v);
    JumpAssignsNothing(after[b], v);
    assert Defines(before, b, v);
  }

  // ----- Which names the conversion finds -----

  lemma {:induction false} AssignsAt(code: Body, v: string) returns (k: int)
    requires Assigns(code, v)
    ensures 0 <= k < |code| && DestinationOf(code[k]) == Some(v)
    decreases |code|
  {
    if DestinationOf(code[0]) == Some(v) { k := 0; } else { k := AssignsAt(code[1..], v); k := k + 1; }
  }

  lemma {:induction false} AtAssigns(code: Body, v: string, k: int)
    requires 0 <= k < |code| && DestinationOf(code[k]) == Some(v)
    ensures Assigns(code, v)
    decreases |code|
  {
    if k > 0 { AtAssigns(code[1..], v, k - 1); }
  }

  lemma FirstIsDefined(codes: seq<Body>, n: string)
    requires 0 < |codes| && WrittenFirst(codes[0], n)
    ensures DefinedSomewhere(codes, n)
  {
    hide Uses, DestinationOf, Assigns;
    var k :| 0 <= k < |codes[0]| && WrittenAt(codes[0], n, k);
    AtAssigns(codes[0], n, k);
    assert Defines(codes, 0, n);
  }

  lemma DefinedIsMentioned(codes: seq<Body>, n: string)
    requires DefinedSomewhere(codes, n)
    ensures exists b, k :: 0 <= b < |codes| && 0 <= k < |codes[b]| && Mentions(codes[b][k], n)
  {
    hide Assigns;
    var b :| Defines(codes, b, n);
    var k := AssignsAt(codes[b], n);
    DefsOfDestination(codes[b][k]);
    assert Mentions(codes[b][k], n);
  }

  lemma PresentableStable(P: Problem, t: Parents, st: RenameState, e: Evidence, excluded: set<string>)
    requires Complete(P.graph, t, e.po) && Renamed(P, t, st, e.owner, e.outs) && Presentable(P.codes, excluded)
    requires forall v :: v in P.phis <==> v !in excluded && DefinedSomewhere(P.codes, v)
    ensures NamesStable(P, t, st)
  {
    hide Complete, Renamed, DefinedSomewhere, WrittenFirst, Mentions, Deversion, NamesStable;
    CompleteFacts(P.graph, t, e.po);
    forall n | n !in excluded && WrittenFirst(P.codes[0], n) ensures n in P.phis { FirstIsDefined(P.codes, n); }
    forall n | n in P.phis ensures exists b, k :: 0 <= b < |P.codes| && 0 <= k < |P.codes[b]| && Mentions(P.codes[b][k], n) { DefinedIsMentioned(P.codes, n); }
    PresentableIsStable(P, t, e.po, st, e.owner, e.outs, excluded);
  }

  /** No name looks like a version of a variable that is renamed. */
  ghost predicate CleanNames(codes: seq<Body>, excluded: set<string>) {
    forall b, k, n, v :: 0 <= b < |codes| && 0 <= k < |codes[b]| && Mentions(codes[b][k], n) && v !in excluded && DefinedSomewhere(codes, v) ==>
      !IsVersionOf(n, v)
  }

  lemma DetouredClean(g: Graph, before: seq<Body>, r: Graph, after: seq<Body>, excluded: set<string>)
    requires CleanNames(before, excluded) && Detoured(g, before, r, after)
    ensures CleanNames(after, excluded)
  {
    hide Mentions, Detour, DefinedSomewhere, IsVersionOf;
    forall b, k, n, v | 0 <= b < |after| && 0 <= k < |after[b]| && Mentions(after[b][k], n) && v !in excluded && DefinedSomewhere(after, v)
      ensures !IsVersionOf(n, v)
    {
      MentionedBefore(g, before, r, after, b, k, n);
      NoNewNames(g, before, r, after, v);
    }
  }

  lemma CleanNamesAreClean(P: Problem, excluded: set<string>)
    requires CleanNames(P.codes, excluded) && StraightBlocks(P.codes) && forall v :: v in P.phis <==> v !in excluded && DefinedSomewhere(P.codes, v)
    ensures CleanBlocks(P)
  {
    hide IsVersionOf, DefinedSomewhere;
    forall v, w | v in P.phis && w in P.phis ensures !IsVersionOf(v, w) { DefinedIsMentioned(P.codes, v); }
    forall b, k, n | 0 <= b < |P.codes| && 0 <= k < |P.codes[b]| && n in Uses(P.codes[b][k]) + Defs(P.codes[b][k]) ensures n in P.phis || Plain(P, n) {
      assert Mentions(P.codes[b][k], n);
    }
    hide Uses, Defs, Plain;
  }

  // ----- Splitting brings nothing back to the entry -----

  /** Where control can be in the old graph when it is in `x` of the new one. */
  ghost predicate Follows(g: Graph, r: Graph, x: int) {
    if 0 <= x < |g.succ| then Reachable(g, x) else exists y, c :: IsBlock(g, y) && Reachable(g, y) && c in g.succ[y] && 0 <= x < |r.succ| && r.succ[x] == [c]
  }

  lemma EdgeFollows(g: Graph, before: seq<Body>, r: Graph, after: seq<Body>, y: int, x: int)
    requires ValidGraph(g) && Detoured(g, before, r, after) && 0 <= y < |r.succ| && x in r.succ[y] && Follows(g, r, y)
    ensures Follows(g, r, x)
  {
    hide Reachable;
    if y < |g.succ| {
      var i :| 0 <= i < |r.succ[y]| && r.succ[y][i] == x;
      assert LeadsTo(r, |g.succ|, g.succ[y][i], x);
      assert g.succ[y][i] in g.succ[y] && IsBlock(g, y);
      if x < |g.succ| { ReachableNext(g, y, x); }
    } else {
      var z, c :| IsBlock(g, z) && Reachable(g, z) && c in g.succ[z] && r.succ[y] == [c];
      ReachableNext(g, z, c);
    }
  }

  lemma {:induction false} PathFollows(g: Graph, before: seq<Body>, r: Graph, after: seq<Body>, p: seq<int>, x: int)
    requires ValidGraph(g) && 0 < |g.succ| && Detoured(g, before, r, after) && PathTo(r, p, x)
    ensures Follows(g, r, x)
    decreases |p|
  {
    hide Follows, Detoured;
    if |p| == 1 {
      EntryFollows(g, r);
    } else {
      var last := |p| - 1;
      PathPrefix(r, p, last);
      PathFollows(g, before, r, after, p[..last], p[last - 1]);
      EdgeFollows(g, before, r, after, p[last - 1], x);
    }
  }

  lemma EntryFollows(g: Graph, r: Graph)
    requires ValidGraph(g) && 0 < |g.succ|
    ensures Follows(g, r, 0)
  {
    EntryReachable(g);
  }

  lemma EntryStillOnce(g: Graph, before: seq<Body>, r: Graph, after: seq<Body>)
    requires ValidGraph(g) && ValidGraph(r) && Detoured(g, before, r, after) && EntryOnce(g)
    ensures EntryOnce(r)
  {
    hide PathTo;
    forall p | p in r.pred[0] ensures !Reachable(r, p) {
      if Reachable(r, p) {
        var q :| PathTo(r, q, p);
        PathFollows(g, before, r, after, q, p);
        BackFollows(g, before, r, after, p);
        assert false;
      }
    }
  }

  lemma BackFollows(g: Graph, before: seq<Body>, r: Graph, after: seq<Body>, p: int)
    requires ValidGraph(g) && ValidGraph(r) && Detoured(g, before, r, after) && 0 < |g.succ| && p in r.pred[0] && Follows(g, r, p)
    ensures exists y :: y in g.pred[0] && Reachable(g, y)
  {
    hide Reachable;
    assert 0 <= p < |r.succ| && 0 in r.succ[p];
    if p < |g.succ| {
      var i :| 0 <= i < |r.succ[p]| && r.succ[p][i] == 0;
      assert LeadsTo(r, |g.succ|, g.succ[p][i], 0);
      assert 0 in g.succ[p] && p in g.pred[0];
    } else {
      var y, c :| IsBlock(g, y) && Reachable(g, y) && c in g.succ[y] && r.succ[p] == [c];
      assert c == 0 && y in g.pred[0];
    }
  }

  // ----- The round trip -----

  lemma SourcesInside(P: Problem, t: Parents, st: RenameState, e: Evidence)
    requires Renamed(P, t, st, e.owner, e.outs)
    ensures forall k: EdgeKey :: k in st.sources ==> 0 <= k.pred < |P.codes|
  {
    hide Renamed;
    forall k: EdgeKey | k in st.sources ensures 0 <= k.pred < |P.codes| {
      SourceRecorded(P, t, st, e.owner, e.outs, k);
      BlockFacts(P, t, st, e.owner, e.outs, k.pred);
    }
  }

  lemma OutOfSsaIs(P: Problem, t: Parents, st: RenameState, e: Evidence, codes: seq<Body>, copies: seq<seq<EdgeKey>>)
    requires ConvertedWith(P, t, st, e) && CleanBlocks(P) && NoCriticalEdges(P) && Destructed(P, st, st.sources.Keys, codes, copies)
    ensures OutOfSsa(P, t, e.po, e.df, e.definitions, st, e.owner, e.outs, codes, copies) && (forall v :: !HasPhi(P, 0, v))
  {
    hide Converted, CleanBlocks, NoCriticalEdges, Destructed, HasPhi;
  }

  lemma RoundTripReaches(g: Graph, before: seq<Body>, r: Graph, between: seq<Body>, after: seq<Body>, m: Machine, s: Store, fuel: nat)
    requires ValidGraph(g) && Detoured(g, before, r, between) && |after| == |between| && 0 < |before|
    requires forall f: nat :: RunBlocks(m, after, r, 0, s, [], f) == RunBlocks(m, between, r, 0, s, [], f)
    ensures RunMatched(m, g, before, r, after, 0, s, fuel)
  {
    hide RunBlocks, Detour, ValidGraph;
    var f := DetoursRun(m, g, before, r, between, 0, s, [], fuel);
  }

  /** Every run of `after` makes the calls of a run of `before` and ends alike. */
  ghost predicate Matched(g: Graph, before: seq<Body>, r: Graph, after: seq<Body>)
    requires 0 < |before| == |g.succ| && 0 < |after| == |r.succ|
  {
    forall m: Machine, s: Store, fuel: nat :: m.homes == map[] ==> RunMatched(m, g, before, r, after, 0, s, fuel)
  }

  /** With the versions' names still in place. */
  lemma VersionsMatched(g: Graph, before: seq<Body>, P: Problem, t: Parents, st: RenameState, e: Evidence, codes: seq<Body>, copies: seq<seq<EdgeKey>>)
    requires ValidGraph(g) && 0 < |before| == |g.succ| && Detoured(g, before, P.graph, P.codes)
    requires ConvertedWith(P, t, st, e) && CleanBlocks(P) && NoCritical(P.graph) && Destructed(P, st, st.sources.Keys, codes, copies)
    ensures 0 < |codes| == |P.graph.succ| && Matched(g, before, P.graph, codes)
  {
    hide *;
    SplitHasNoCriticalEdges(P, t, st, e);
    OutOfSsaIs(P, t, st, e, codes, copies);
    DestructedSize(P, st, codes, copies);
    DetourFacts(g, before, P.graph, P.codes);
    forall m: Machine, s: Store, fuel: nat | m.homes == map[] ensures RunMatched(m, g, before, P.graph, codes, 0, s, fuel) {
      forall f: nat ensures RunBlocks(m, codes, P.graph, 0, s, [], f) == RunBlocks(m, P.codes, P.graph, 0, s, [], f) {
        RoundTripRuns(P, t, e.po, e.df, e.definitions, st, e.owner, e.outs, codes, copies, m, s, f);
      }
      RoundTripReaches(g, before, P.graph, P.codes, codes, m, s, fuel);
    }
    MatchedIs(g, before, P.graph, codes);
  }

  /** Without suffixes, once every reachable block comes back. */
  lemma PlainMatched(g: Graph, before: seq<Body>, r: Graph, split: seq<Body>, after: seq<Body>)
    requires ValidGraph(g) && ValidGraph(r) && 0 < |before| == |g.succ| && Detoured(g, before, r, split) && StraightBlocks(split) && |after| == |split|
    requires forall b :: 0 <= b < |split| && Reachable(r, b) ==> Restored(after[b], split[b])
    ensures 0 < |after| == |r.succ| && Matched(g, before, r, after)
  {
    hide *;
    DetourFacts(g, before, r, split);
    EntryReachable(r);
    forall m: Machine, s: Store, fuel: nat | m.homes == map[] ensures RunMatched(m, g, before, r, after, 0, s, fuel) {
      AlikeItself(m, s);
      forall f: nat ensures RunBlocks(m, after, r, 0, s, [], f) == RunBlocks(m, split, r, 0, s, [], f) {
        RestoredRuns(m, r, split, after, 0, s, s, [], f);
      }
      RoundTripReaches(g, before, r, split, after, m, s, fuel);
    }
    MatchedIs(g, before, r, after);
  }

  lemma MatchedIs(g: Graph, before: seq<Body>, r: Graph, after: seq<Body>)
    requires 0 < |before| == |g.succ| && 0 < |after| == |r.succ|
    requires forall m: Machine, s: Store, fuel: nat :: m.homes == map[] ==> RunMatched(m, g, before, r, after, 0, s, fuel)
    ensures Matched(g, before, r, after)
  {
    hide RunMatched;
  }

  /** Splits the critical edges, converts to SSA form, leaves it again, and drops the
      suffixes.  `codes` is the result before the last step, `final` after it. */
  method ThroughSsa(codes0: seq<Body>, g: Graph, excluded: set<string>)
    returns (codes: seq<Body>, final: seq<Body>, r: Graph, ghost P: Problem, ghost idom: Parents, ghost st: RenameState)
    requires ValidGraph(g) && EdgesCounted(g) && |codes0| == |g.succ|
    requires StraightBlocks(codes0) && ("" in excluded || !DefinedSomewhere(codes0, ""))
    ensures 0 < |codes0| <= |codes| == |final| == |r.succ| && ValidGraph(r) && NoCritical(r)
    ensures P.graph == r && |P.codes| == |r.succ| && Detoured(g, codes0, r, P.codes) && final == DeversionAll(codes)
    ensures NamesStable(P, idom, st) <==> forall b :: 0 <= b < |r.succ| && Reachable(r, b) ==> Restored(final[b], P.codes[b])
    ensures NamesStable(P, idom, st) ==> Matched(g, codes0, r, final)
    ensures Presentable(codes0, excluded) ==> NamesStable(P, idom, st)
    ensures EntryOnce(g) && CleanNames(codes0, excluded) ==> Matched(g, codes0, r, codes)
  {
    hide *;
    GraphHasEntry(g);
    var split;
    split, r := SplitCriticalEdges(codes0, g);
    GraphHasEntry(r);
    DetourFacts(g, codes0, r, split);
    DetouredStraight(g, codes0, r, split);
    assert "" in excluded || !DefinedSomewhere(split, "") by { if DefinedSomewhere(split, "") { NoNewNames(g, codes0, r, split, ""); } }
    var p, tree, state;
    ghost var e;
    p, tree, state, e := ConvertToSsa(split, r, excluded);
    P, idom, st := p, tree, state;
    SourcesInside(P, idom, st, e);
    ghost var copies;
    codes, copies := ConvertFromSsa(p, state);
    DestructedSize(P, st, codes, copies);
    final := DeversionAll(codes);
    AllFinal(codes, final);
    CompleteFacts(r, idom, e.po);
    AllRestoredIff(P, idom, e.po, st, e.owner, e.outs, codes, copies);
    TreeBlocks(r, idom);
    if NamesStable(P, idom, st) { PlainMatched(g, codes0, r, split, final); }
    if Presentable(codes0, excluded) {
      DetouredPresentable(g, codes0, r, split, excluded);
      PresentableStable(P, idom, st, e, excluded);
    }
    if EntryOnce(g) && CleanNames(codes0, excluded) {
      EntryStillOnce(g, codes0, r, split);
      DetouredClean(g, codes0, r, split, excluded);
      CleanNamesAreClean(P, excluded);
      VersionsMatched(g, codes0, P, idom, st, e, codes, copies);
    }
  }

  lemma AllFinal(codes: seq<Body>, final: seq<Body>)
    requires final == DeversionAll(codes)
    ensures |final| == |codes| && forall b :: 0 <= b < |codes| ==> final[b] == DeversionCode(codes[b])
  {
    hide DeversionCode;
  }

  lemma DetourFacts(g: Graph, before: seq<Body>, r: Graph, after: seq<Body>)
    requires Detoured(g, before, r, after)
    ensures |before| == |g.succ| <= |r.succ| == |after| && forall b :: 0 <= b < |before| ==> after[b] == before[b]
  {
  }

  lemma DestructedSize(P: Problem, st: RenameState, codes: seq<Body>, copies: seq<seq<EdgeKey>>)
    requires Destructed(P, st, st.sources.Keys, codes, copies)
    ensures |codes| == |P.codes|
  {
  }

  lemma TreeBlocks(g: Graph, idom: Parents)
    requires DominatorTree(g, idom)
    ensures forall b :: b in idom <==> 0 <= b < |g.succ| && Reachable(g, b)
  {
    hide Reachable, ImmediateDominator;
  }

  // ----- For a whole body -----

  lemma BlockStraight(body: Body, g: ControlFlowGraph, cuts: seq<int>, k: int)
    requires InBlock(body, g, cuts, k)
    ensures |CodesOf(g.blocks)| == |g.blocks| && Straight(CodesOf(g.blocks)[k])
  {
    hide Wired, CodesOf;
    CodeIs(body, g, cuts, k);
    var code, at := CodesOf(g.blocks)[k], if body[cuts[k]].Label? then cuts[k] + 1 else cuts[k];
    forall i | 0 <= i < |code| - 1 ensures !IsTerminator(code[i]) { InsideFacts(body, g, cuts, k, at + i); }
  }

  lemma BodyStraight(body: Body, g: ControlFlowGraph, cuts: seq<int>)
    requires Wired(body, g, cuts)
    ensures StraightBlocks(CodesOf(g.blocks))
  {
    hide CodesOf, Wired, Straight;
    var codes := CodesOf(g.blocks);
    forall k | 0 <= k < |codes| ensures Straight(codes[k]) {
      WiredFacts(body, g, cuts, k);
      if body != [] { BlockStraight(body, g, cuts, k); } else { EmptyCode(body, g, cuts, k); NothingStraight(); }
    }
  }

  lemma NothingStraight()
    ensures Straight([])
  {
  }

  /** Flat code into blocks, into SSA form and out again. */
  method BodyThroughSsa(body: Body, excluded: set<string>)
    returns (codes: seq<Body>, final: seq<Body>, r: Graph, ghost g: ControlFlowGraph, ghost P: Problem, ghost idom: Parents, ghost st: RenameState)
    requires WellFormed(body) && "" in excluded
    ensures 0 < |codes| == |final| == |r.succ| && ValidGraph(r) && final == DeversionAll(codes)
    ensures NamesStable(P, idom, st) ==> forall m: Machine, s: Store, fuel: nat :: m.homes == map[] ==> BodyMatched(m, body, r, final, 0, s, fuel)
    ensures Presentable(CodesOf(g.blocks), excluded) ==> NamesStable(P, idom, st)
    ensures EntryStaysBehind(body) && CleanNames(CodesOf(g.blocks), excluded) ==>
      forall m: Machine, s: Store, fuel: nat :: m.homes == map[] ==> BodyMatched(m, body, r, codes, 0, s, fuel)
  {
    hide *;
    var cfg, cuts := BuildCfg(body);
    g := cfg;
    WiredIs(body, cfg, cuts);
    WiredSize(body, cfg, cuts);
    BodyStraight(body, cfg, cuts);
    codes, final, r, P, idom, st := ThroughSsa(CodesOf(cfg.blocks), cfg.graph, excluded);
    if NamesStable(P, idom, st) { BodyMatchedBy(body, cfg, cuts, r, final); }
    if EntryStaysBehind(body) && CleanNames(CodesOf(cfg.blocks), excluded) {
      EntryAlone(body, cfg, cuts);
      NoneBack(cfg.graph);
      BodyMatchedBy(body, cfg, cuts, r, codes);
    }
  }

  lemma NoneBack(g: Graph)
    requires |g.pred| > 0 && g.pred[0] == []
    ensures EntryOnce(g)
  {
  }

  lemma BodyMatchedBy(body: Body, g: ControlFlowGraph, cuts: seq<int>, r: Graph, codes: seq<Body>)
    requires Wired(body, g, cuts) && 0 < |codes| == |r.succ| && 0 < |CodesOf(g.blocks)| == |g.graph.succ|
    requires Matched(g.graph, CodesOf(g.blocks), r, codes)
    ensures forall m: Machine, s: Store, fuel: nat :: m.homes == map[] ==> BodyMatched(m, body, r, codes, 0, s, fuel)
  {
    hide Wired, CodesOf, RunMatched, BodyMatched;
    forall m: Machine, s: Store, fuel: nat | m.homes == map[] ensures BodyMatched(m, body, r, codes, 0, s, fuel) {
      BodyMatches(m, body, g, cuts, r, codes, 0, s, fuel);
    }
  }
}
