/** Conversion to SSA form (cc/ssa.py:766-810) is coherent: on every edge the
    version that leaves the predecessor is the one the successor starts with, or
    the one its phi records.  So the renamed blocks run like the original ones. */
module SsaForm {
  import opened Common
  import opened IR
  import opened Cfg
  import opened Dominance
  import opened Dominators
  import opened Frontiers
  import opened PhiPlacement
  import opened SsaNames
  import opened Renaming

  // ----- Where variables are defined -----

  predicate Assigns(code: Body, v: string) {
    code != [] && (DestinationOf(code[0]) == Some(v) || Assigns(code[1..], v))
  }

  /** Phis stand in a set of blocks that contains the frontiers of all
      definitions and of the phis themselves. */
  ghost predicate PhisPlaced(P: Problem, df: FrontierMap, definitions: map<string, set<int>>) {
    && definitions.Keys == P.phis.Keys
    && (forall v, b :: v in definitions && 0 <= b < |P.codes| && Assigns(P.codes[b], v) ==> b in definitions[v])
    && (forall v :: v in P.phis ==> ClosedUnder(df, definitions[v], P.phis[v]))
  }

  lemma {:induction false} UnassignedKept(before: Body, env: Env, after: Body, out: Env, v: string)
    requires CodeRenamed(before, env, after, out) && v in env && !Assigns(before, v)
    ensures v in out && out[v] == env[v]
    decreases |before|
  {
    if before != [] {
      var i, j := before[0], after[0];
      if DefinesRenamed(i, env) {
        UnassignedKept(before[1..], env[DestinationOf(i).value := DestinationOf(j).value], after[1..], out, v);
      } else {
        UnassignedKept(before[1..], env, after[1..], out, v);
      }
    }
  }

  // ----- Coherence -----

  /** The setting: finished dominators, exact frontiers, closed phi placement. */
  ghost predicate Setting(P: Problem, t: Parents, po: map<int, int>, df: FrontierMap, definitions: map<string, set<int>>) {
    && ValidProblem(P) && Complete(P.graph, t, po) && Tree(t, po)
    && ExactFrontiers(P.graph, t, df) && PhisPlaced(P, df, definitions)
    && EntryOnce(P.graph)
  }

  /** A block between a predecessor and the immediate dominator has the join in its
      frontier. */
  lemma BetweenInFrontier(P: Problem, t: Parents, po: map<int, int>, df: FrontierMap, definitions: map<string, set<int>>, b: int, p: int, x: int)
    requires Setting(P, t, po, df, definitions)
    requires b in t && b != 0 && IsBlock(P.graph, b) && p in P.graph.pred[b] && p in t
    requires x in t && Above(t, po, x, p) && Above(t, po, t[b], x) && x != t[b]
    ensures b in FrontierSet(df, x)
  {
    AboveIsDominates(P.graph, t, po, x, p);
    AboveIsHigher(t, po, t[b], x);
    if Above(t, po, x, t[b]) { AboveIsHigher(t, po, x, t[b]); }
    StrictlyAbove(P.graph, t, po, x, b);
    assert DominatesPredecessorOf(P.graph, t, x, b);
    assert FrontierOf(P.graph, t, x, b);
    assert InFrontier(df, x, b);
  }

  /** A block that neither defines `v` nor holds a phi for it passes its version on. */
  lemma PassesOn(P: Problem, t: Parents, st: RenameState, owner: map<string, Site>, outs: map<int, Env>, x: int, v: string)
    requires Renamed(P, t, st, owner, outs) && x in outs && v in P.phis
    requires !HasPhi(P, x, v) && 0 <= x < |P.codes| && !Assigns(P.codes[x], v)
    requires x != 0 ==> t[x] in outs && outs[t[x]].Keys == P.phis.Keys
    ensures v in outs[x] && v in InEnv(P, t, outs, x) && outs[x][v] == InEnv(P, t, outs, x)[v]
  {
    var env := InEnv(P, t, outs, x);
    assert BlockDone(P, st, owner, x, env, outs[x]);
    var top := TopEnv(P, st.destinations, x, env);
    assert v in env && top[v] == env[v];
    UnassignedKept(P.codes[x], top, st.code[x], outs[x], v);
  }

  lemma OutKeys(P: Problem, t: Parents, st: RenameState, owner: map<string, Site>, outs: map<int, Env>, x: int)
    requires Renamed(P, t, st, owner, outs) && x in t
    ensures x in outs && outs[x].Keys == P.phis.Keys && 0 <= x < |P.codes| && x < |P.graph.succ|
    ensures BlockDone(P, st, owner, x, InEnv(P, t, outs, x), outs[x])
    ensures x != 0 ==> t[x] in outs && t[x] in t
  {
    assert BlockDone(P, st, owner, x, InEnv(P, t, outs, x), outs[x]);
  }

  /** Without a phi at the join, nothing on the way up from a predecessor changes
      the version. */
  lemma {:induction false} ChainSame(P: Problem, t: Parents, po: map<int, int>, df: FrontierMap, definitions: map<string, set<int>>,
                                     st: RenameState, owner: map<string, Site>, outs: map<int, Env>, b: int, p: int, x: int, v: string)
    requires Setting(P, t, po, df, definitions) && Renamed(P, t, st, owner, outs)
    requires b in t && b != 0 && IsBlock(P.graph, b) && p in P.graph.pred[b] && p in t && v in P.phis && !HasPhi(P, b, v)
    requires x in t && Above(t, po, x, p) && Above(t, po, t[b], x)
    ensures x in outs && t[b] in outs && v in outs[x] && v in outs[t[b]] && outs[x][v] == outs[t[b]][v]
    decreases po[0] - po[x]
  {
    OutKeys(P, t, st, owner, outs, x);
    OutKeys(P, t, st, owner, outs, t[b]);
    if x != t[b] {
      BetweenInFrontier(P, t, po, df, definitions, b, p, x);
      NoDefinition(P, t, po, df, definitions, b, x, v);
      assert x != 0;
      OutKeys(P, t, st, owner, outs, t[x]);
      PassesOn(P, t, st, owner, outs, x, v);
      AboveTransitive(t, po, t[x], x, p);
      ChainSame(P, t, po, df, definitions, st, owner, outs, b, p, t[x], v);
    }
  }

  lemma NoDefinition(P: Problem, t: Parents, po: map<int, int>, df: FrontierMap, definitions: map<string, set<int>>, b: int, x: int, v: string)
    requires Setting(P, t, po, df, definitions) && b in FrontierSet(df, x) && v in P.phis && !HasPhi(P, b, v) && 0 <= x < |P.codes|
    ensures !HasPhi(P, x, v) && !Assigns(P.codes[x], v)
  {
    assert ClosedUnder(df, definitions[v], P.phis[v]);
  }

  /** On every edge between reachable blocks the version that leaves the
      predecessor is the one recorded by the phi, or the one the successor starts
      with. */
  lemma EdgeCoherent(P: Problem, t: Parents, po: map<int, int>, df: FrontierMap, definitions: map<string, set<int>>,
                     st: RenameState, owner: map<string, Site>, outs: map<int, Env>, p: int, b: int, v: string)
    requires Setting(P, t, po, df, definitions) && Renamed(P, t, st, owner, outs)
    requires p in t && p < |P.graph.succ| && 0 <= p && b in P.graph.succ[p] && v in P.phis
    ensures b in t && b != 0 && p in outs && v in outs[p] && v in InEnv(P, t, outs, b)
    ensures HasPhi(P, b, v) ==> SourceIs(st.sources, b, v, p, outs[p][v])
    ensures !HasPhi(P, b, v) ==> outs[p][v] == InEnv(P, t, outs, b)[v]
  {
    EdgeReaches(P, t, po, p, b);
    OutKeys(P, t, st, owner, outs, p);
    OutKeys(P, t, st, owner, outs, b);
    OutKeys(P, t, st, owner, outs, t[b]);
    if !HasPhi(P, b, v) {
      CompleteUnder(P.graph, t, po, b);
      ChainSame(P, t, po, df, definitions, st, owner, outs, b, p, p, v);
    }
    hide Setting, Complete, AllDone, CodeRenamed, CodeOwned, PhisNamed;
  }

  lemma EdgeReaches(P: Problem, t: Parents, po: map<int, int>, p: int, b: int)
    requires ValidProblem(P) && Complete(P.graph, t, po)
    requires p in t && 0 <= p < |P.graph.succ| && b in P.graph.succ[p]
    ensures b in t && IsBlock(P.graph, b) && b < |P.graph.pred| && p in P.graph.pred[b] && (EntryOnce(P.graph) ==> b != 0)
  {
    ReachableNext(P.graph, p, b);
    assert p in P.graph.pred[b];
  }
}
