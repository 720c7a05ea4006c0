/** Conversion to SSA form from end to end (cc/ssa.py:766-810): dominators,
    frontiers, phi placement and renaming put together. */
module SsaConversion {
  import opened Common
  import opened IR
  import opened Cfg
  import opened BlockRuns
  import opened Dominance
  import opened Dominators
  import opened Frontiers
  import opened PhiPlacement
  import opened SsaNames
  import opened Renaming
  import opened SsaForm
  import opened SsaMeaning

  // ----- Which variables, and where they are defined -----

  ghost predicate Defines(codes: seq<Body>, b: int, v: string) {
    0 <= b < |codes| && Assigns(codes[b], v)
  }

  ghost predicate DefinedSomewhere(codes: seq<Body>, v: string) {
    exists b :: Defines(codes, b, v)
  }

  /** For each variable written somewhere and not excluded, the blocks that write
      it. */
  ghost predicate DefinitionsOf(codes: seq<Body>, excluded: set<string>, definitions: map<string, set<int>>) {
    && (forall v :: v in definitions <==> v !in excluded && DefinedSomewhere(codes, v))
    && (forall v, b :: v in definitions ==> (b in definitions[v] <==> Defines(codes, b, v)))
  }

  /** Names written by one block's code. */
  method Destinations(code: Body) returns (names: set<string>)
    ensures forall v :: v in names <==> Assigns(code, v)
  {
    names := {};
    var n := |code|;
    assert code[n..] == [];
    while n > 0
      invariant 0 <= n <= |code|
      invariant forall v :: v in names <==> Assigns(code[n..], v)
    {
      n := n - 1;
      assert code[n..][0] == code[n] && code[n..][1..] == code[n + 1..];
      if DestinationOf(code[n]).Some? { names := names + {DestinationOf(code[n]).value}; }
    }
    assert code[0..] == code;
  }

  function AddBlock(definitions: map<string, set<int>>, names: set<string>, b: int): map<string, set<int>> {
    map v | v in definitions.Keys + names :: (if v in definitions then definitions[v] else {}) + (if v in names then {b} else {})
  }

  method FindDefinitions(codes: seq<Body>, excluded: set<string>) returns (definitions: map<string, set<int>>)
    ensures DefinitionsOf(codes, excluded, definitions)
  {
    definitions := map[];
    for n := 0 to |codes|
      invariant DefinitionsOf(codes[..n], excluded, definitions)
    {
      var names := Destinations(codes[n]);
      AddBlockDefines(codes, excluded, definitions, names, n);
      definitions := AddBlock(definitions, names - excluded, n);
    }
    assert codes[..|codes|] == codes;
  }

  lemma AddBlockDefines(codes: seq<Body>, excluded: set<string>, definitions: map<string, set<int>>, names: set<string>, n: nat)
    requires n < |codes| && DefinitionsOf(codes[..n], excluded, definitions)
    requires forall v :: v in names <==> Assigns(codes[n], v)
    ensures DefinitionsOf(codes[..n + 1], excluded, AddBlock(definitions, names - excluded, n))
  {
    var before, more := codes[..n], codes[..n + 1];
    forall v, b ensures Defines(more, b, v) <==> Defines(before, b, v) || (b == n && v in names) {
      if 0 <= b < n { assert more[b] == before[b]; }
      hide Assigns;
    }
    forall v ensures DefinedSomewhere(more, v) <==> DefinedSomewhere(before, v) || v in names {
      hide Defines;
      if v in names { assert Defines(more, n, v); }
      if DefinedSomewhere(before, v) {
        var b :| Defines(before, b, v);
        assert Defines(more, b, v);
      }
    }
    hide Defines, DefinedSomewhere;
  }

  // ----- One definition each -----

  /** The version that `site` defines. */
  ghost predicate DefinedAt(P: Problem, t: Parents, st: RenameState, site: Site, name: string) {
    match site
    case AtPhi(b, v) => b in t && HasPhi(P, b, v) && PhiKey(b, v) in st.destinations && st.destinations[PhiKey(b, v)] == name
    case AtCode(b, i) =>
      && b in t && b in st.code && 0 <= b < |P.codes| && 0 <= i < |P.codes[b]| && i < |st.code[b]|
      && DestinationOf(P.codes[b][i]).Some? && DestinationOf(P.codes[b][i]).value in P.phis
      && DestinationOf(st.code[b][i]) == Some(name)
  }

  lemma DefinedIsOwned(P: Problem, t: Parents, st: RenameState, owner: map<string, Site>, outs: map<int, Env>, site: Site, name: string)
    requires Renamed(P, t, st, owner, outs) && DefinedAt(P, t, st, site, name)
    ensures name in owner && owner[name] == site
  {
    match site
    case AtPhi(b, v) =>
      OutKeys(P, t, st, owner, outs, b);
      hide CodeRenamed, CodeOwned, SourcesFilled, AllDone;
      assert PhiNamed(st.destinations, owner, b, v);
    case AtCode(b, i) =>
      OutKeys(P, t, st, owner, outs, b);
      hide CodeRenamed, SourcesFilled, AllDone, PhisNamed;
      assert CodeNamed(st.code[b][i], owner, b, i);
  }

  /** No version is defined in two places. */
  lemma SingleDefinition(P: Problem, t: Parents, st: RenameState, owner: map<string, Site>, outs: map<int, Env>, x: Site, y: Site, name: string)
    requires Renamed(P, t, st, owner, outs) && DefinedAt(P, t, st, x, name) && DefinedAt(P, t, st, y, name)
    ensures x == y
  {
    DefinedIsOwned(P, t, st, owner, outs, x, name);
    DefinedIsOwned(P, t, st, owner, outs, y, name);
  }

  // ----- The entry -----

  /** An entry to which nothing leads back is in no frontier. */
  lemma EntryInNoFrontier(g: Graph, t: Parents, df: FrontierMap, b: int)
    requires ExactFrontiers(g, t, df) && EntryOnce(g) && forall p :: p in t ==> Reachable(g, p)
    ensures 0 !in FrontierSet(df, b)
  {
    hide Reachable, Dominates;
    assert 0 in FrontierSet(df, b) ==> InFrontier(df, b, 0);
  }

  lemma EntryHoldsNoPhi(g: Graph, t: Parents, df: FrontierMap, defs: set<int>)
    requires ExactFrontiers(g, t, df) && EntryOnce(g) && forall p :: p in t ==> Reachable(g, p)
    ensures !Iterated(df, defs, 0)
  {
    if Iterated(df, defs, 0) {
      var q :| FrontierChain(df, defs, q) && q[|q| - 1] == 0;
      EntryInNoFrontier(g, t, df, q[|q| - 2]);
    }
  }

  lemma StartsSynced(P: Problem, m: Machine, t: Parents, st: RenameState, outs: map<int, Env>, s: Store)
    requires m.homes == map[] && CleanVariables(P) && forall v :: !HasPhi(P, 0, v)
    ensures Synced(P, m, StartEnv(P, t, st, outs, 0), s, s)
  {
    assert StartEnv(P, t, st, outs, 0) == Identity(P);
    hide IsVersionOf, CleanVariables, Plain, Read;
  }

  /** On every run over the recorded edges the SSA form does what the original
      does. */
  ghost predicate KeepsMeaning(P: Problem, st: RenameState)
    requires 0 < |P.codes| == |P.graph.succ| && 0 in st.code
  {
    forall m: Machine, s: Store, fuel: nat :: m.homes == map[] ==> RunBlocks(m, P.codes, P.graph, 0, s, [], fuel) == RunSsa(m, P, st, 0, s, [], fuel)
  }

  lemma ConversionKeepsMeaning(P: Problem, t: Parents, po: map<int, int>, df: FrontierMap, definitions: map<string, set<int>>,
                               st: RenameState, owner: map<string, Site>, outs: map<int, Env>)
    requires Converted(P, t, po, df, definitions, st, owner, outs) && CleanBlocks(P) && forall v :: !HasPhi(P, 0, v)
    ensures 0 < |P.codes| == |P.graph.succ| && 0 in st.code && KeepsMeaning(P, st)
  {
    SameLength(P, t, po, df, definitions);
    BlockFacts(P, t, st, owner, outs, 0);
    hide Setting, Renamed, RunBlocks, RunSsa, HasPhi;
    forall m: Machine, s: Store, fuel: nat | m.homes == map[]
      ensures RunBlocks(m, P.codes, P.graph, 0, s, [], fuel) == RunSsa(m, P, st, 0, s, [], fuel)
    {
      StartsSynced(P, m, t, st, outs, s);
      RunsAgree(P, t, po, df, definitions, st, owner, outs, m, 0, s, s, [], fuel);
    }
  }

  // ----- The conversion -----

  lemma PlacedSetting(P: Problem, t: Parents, po: map<int, int>, df: FrontierMap, excluded: set<string>, definitions: map<string, set<int>>)
    requires ValidProblem(P) && Complete(P.graph, t, po) && ExactFrontiers(P.graph, t, df) && EntryOnce(P.graph)
    requires DefinitionsOf(P.codes, excluded, definitions) && P.phis.Keys == definitions.Keys
    requires forall v :: v in P.phis ==> ClosedUnder(df, definitions[v], P.phis[v])
    requires forall v, f :: v in P.phis ==> (f in P.phis[v] <==> Iterated(df, definitions[v], f))
    ensures Setting(P, t, po, df, definitions) && forall v :: !HasPhi(P, 0, v)
  {
    hide Complete, ExactFrontiers, ClosedUnder, Iterated, Assigns;
    CompleteRange(P.graph, t, po);
    CompleteReaches(P.graph, t, po);
    forall v | v in P.phis ensures 0 !in P.phis[v] { EntryHoldsNoPhi(P.graph, t, df, definitions[v]); }
    forall v, b | v in definitions && 0 <= b < |P.codes| && Assigns(P.codes[b], v) ensures b in definitions[v] {
      assert Defines(P.codes, b, v);
    }
  }

  lemma CompleteReaches(g: Graph, t: Parents, po: map<int, int>)
    requires Complete(g, t, po)
    ensures forall p :: p in t ==> Reachable(g, p)
  {
    hide AtRest, Settled, Reachable;
  }

  lemma ProblemIsValid(P: Problem, excluded: set<string>, definitions: map<string, set<int>>)
    requires ValidGraph(P.graph) && |P.codes| == |P.graph.succ| && ("" in excluded || !DefinedSomewhere(P.codes, ""))
    requires DefinitionsOf(P.codes, excluded, definitions) && P.phis.Keys == definitions.Keys
    ensures ValidProblem(P) && |P.graph.pred| > 0
    ensures forall v :: v in P.phis <==> v !in excluded && DefinedSomewhere(P.codes, v)
  {
    hide DefinedSomewhere;
    assert "" !in definitions;
  }

  lemma EveryBlockConverted(P: Problem, t: Parents, st: RenameState, owner: map<string, Site>, outs: map<int, Env>)
    requires Renamed(P, t, st, owner, outs)
    ensures forall b :: b in t ==> b in st.code
  {
    forall b | b in t ensures b in st.code { BlockFacts(P, t, st, owner, outs, b); }
  }

  lemma ConvertedIs(P: Problem, t: Parents, po: map<int, int>, df: FrontierMap, definitions: map<string, set<int>>,
                    st: RenameState, owner: map<string, Site>, outs: map<int, Env>)
    requires Setting(P, t, po, df, definitions) && Renamed(P, t, st, owner, outs)
    ensures Converted(P, t, po, df, definitions, st, owner, outs)
  {
  }

  /** What the conversion has found on its way: postorder numbers, frontiers, the
      blocks that define each variable, and for every version where it is defined
      and which versions leave each block. */
  datatype Evidence = Evidence(po: map<int, int>, df: FrontierMap, definitions: map<string, set<int>>, owner: map<string, Site>, outs: map<int, Env>)

  /** Phis stand exactly in the iterated frontiers. */
  ghost predicate PhisExact(P: Problem, e: Evidence) {
    && P.phis.Keys == e.definitions.Keys
    && (forall v, f :: v in P.phis ==> (f in P.phis[v] <==> Iterated(e.df, e.definitions[v], f)))
  }

  /** A finished conversion whose entry holds no phi. */
  ghost predicate ConvertedWith(P: Problem, t: Parents, st: RenameState, e: Evidence) {
    Converted(P, t, e.po, e.df, e.definitions, st, e.owner, e.outs) && PhisExact(P, e) && forall v :: !HasPhi(P, 0, v)
  }

  lemma ConvertedWithIs(P: Problem, t: Parents, st: RenameState, e: Evidence)
    requires Converted(P, t, e.po, e.df, e.definitions, st, e.owner, e.outs) && PhisExact(P, e) && forall v :: !HasPhi(P, 0, v)
    ensures ConvertedWith(P, t, st, e)
  {
    hide Converted, PhisExact, HasPhi;
  }

  lemma PhisExactIs(P: Problem, e: Evidence)
    requires P.phis.Keys == e.definitions.Keys
    requires forall v, f :: v in P.phis ==> (f in P.phis[v] <==> Iterated(e.df, e.definitions[v], f))
    ensures PhisExact(P, e)
  {
    hide Iterated;
  }

  /** Converts the variables that are written somewhere and not excluded.  Each
      version then has one definition, and if control never returns to the entry
      the converted blocks run as the original ones do. */
  method ConvertToSsa(codes: seq<Body>, g: Graph, excluded: set<string>) returns (P: Problem, idom: Parents, st: RenameState, ghost e: Evidence)
    requires ValidGraph(g) && |codes| == |g.succ| && ("" in excluded || !DefinedSomewhere(codes, ""))
    ensures P.codes == codes && P.graph == g && ValidProblem(P)
    ensures forall v :: v in P.phis <==> v !in excluded && DefinedSomewhere(codes, v)
    ensures DominatorTree(g, idom) && forall b :: b in idom ==> b in st.code
    ensures forall x, y, name :: DefinedAt(P, idom, st, x, name) && DefinedAt(P, idom, st, y, name) ==> x == y
    ensures Complete(g, idom, e.po) && ExactFrontiers(g, idom, e.df) && PhisExact(P, e) && Renamed(P, idom, st, e.owner, e.outs)
    ensures EntryOnce(g) ==> ConvertedWith(P, idom, st, e)
    ensures EntryOnce(g) && CleanBlocks(P) ==> 0 in st.code && KeepsMeaning(P, st)
  {
    hide *;
    ghost var po, owner, outs;
    var definitions := FindDefinitions(codes, excluded);
    idom, po := ComputeDominators(g);
    var df := ComputeDominanceFrontiers(g, idom, po);
    var phis := PlacePhiNodes(definitions, df);
    P := Problem(codes, g, phis);
    ProblemIsValid(P, excluded, definitions);
    st, owner, outs := RenameVariables(P, idom, po);
    EveryBlockConverted(P, idom, st, owner, outs);
    forall x, y, name | DefinedAt(P, idom, st, x, name) && DefinedAt(P, idom, st, y, name) ensures x == y {
      SingleDefinition(P, idom, st, owner, outs, x, y, name);
    }
    e := Evidence(po, df, definitions, owner, outs);
    PhisExactIs(P, e);
    if EntryOnce(g) {
      PlacedSetting(P, idom, po, df, excluded, definitions);
      ConvertedIs(P, idom, po, df, definitions, st, owner, outs);
      ConvertedWithIs(P, idom, st, e);
      if CleanBlocks(P) { ConversionKeepsMeaning(P, idom, po, df, definitions, st, owner, outs); }
    }
  }

  // ----- A loop at the entry -----

  /** `do x = x + 1; while (x != 2); return x;` with the loop as first block. */
  function LoopFirst(): seq<Body> {
    [LoopBlock(), [Return(Some(Name("x")))]]
  }

  function LoopBlock(): Body {
    [BinaryOperation("x", Name("x"), "+", Literal(1)), BranchFalse(Name("x"), "==", Literal(2), ".top")]
  }

  lemma LoopFirstFrontier(g: Graph, t: Parents, df: FrontierMap, b: int)
    requires g == Graph([[0, 1], []], [[0], [0]]) && ExactFrontiers(g, t, df)
    ensures 0 !in FrontierSet(df, b)
  {
    hide DominatesPredecessorOf, FrontierOf;
    assert 0 in FrontierSet(df, b) ==> InFrontier(df, b, 0);
  }

  lemma LoopFirstHasNoPhi(P: Problem, t: Parents, e: Evidence, v: string)
    requires P.graph == Graph([[0, 1], []], [[0], [0]]) && ExactFrontiers(P.graph, t, e.df) && PhisExact(P, e)
    ensures !HasPhi(P, 0, v)
  {
    hide ExactFrontiers, FrontierSet;
    if HasPhi(P, 0, v) {
      var q :| FrontierChain(e.df, e.definitions[v], q) && q[|q| - 1] == 0;
      LoopFirstFrontier(P.graph, t, e.df, q[|q| - 2]);
    }
  }

  lemma LoopBlockRenamed(env: Env, after: Body, out: Env) returns (d: string)
    requires CodeRenamed(LoopBlock(), env, after, out) && "x" in env && env["x"] == "x"
    ensures d != "x" && after == [BinaryOperation(d, Name("x"), "+", Literal(1)), BranchFalse(Name(d), "==", Literal(2), ".top")]
  {
    hide IsVersionOf, CodeRenamed;
    var code := LoopBlock();
    CodeRenamedIs(code, env, after, out);
    d := DestinationOf(after[0]).value;
    VersionDiffers(d, "x");
    var env' := env["x" := d];
    CodeRenamedIs(code[1..], env', after[1..], out);
    CodeRenamedIs(code[1..][1..], env', after[1..][1..], out);
    assert code[1..] == [code[1]] && code[1..][1..] == [];
    assert after == [after[0], after[1]];
  }

  lemma CodeRenamedIs(before: Body, env: Env, after: Body, out: Env)
    requires CodeRenamed(before, env, after, out)
    ensures before == [] ==> after == [] && out == env
    ensures before != [] ==> after != []
    ensures before != [] && DefinesRenamed(before[0], env) ==> (
      && DestinationOf(after[0]).Some? && IsVersionOf(DestinationOf(after[0]).value, DestinationOf(before[0]).value)
      && DestinationOf(RenameUses(before[0], env)).Some? && after[0] == WithDestination(RenameUses(before[0], env), DestinationOf(after[0]).value)
      && CodeRenamed(before[1..], env[DestinationOf(before[0]).value := DestinationOf(after[0]).value], after[1..], out))
    ensures before != [] && !DefinesRenamed(before[0], env) ==> after[0] == RenameUses(before[0], env) && CodeRenamed(before[1..], env, after[1..], out)
  {
    if before != [] { RenameUsesKeepsDestination(before[0], env); }
    hide IsVersionOf, RenameUses, WithDestination;
  }

  /** The renamed loop reads the value that `x` had at the start. */
  lemma LoopFirstRenamed(P: Problem, t: Parents, st: RenameState, e: Evidence) returns (d: string)
    requires P.graph == Graph([[0, 1], []], [[0], [0]]) && P.codes == LoopFirst() && "x" in P.phis && ValidProblem(P)
    requires 0 in t && ExactFrontiers(P.graph, t, e.df) && PhisExact(P, e) && Renamed(P, t, st, e.owner, e.outs)
    ensures d != "x" && 0 in st.code
    ensures st.code[0] == [BinaryOperation(d, Name("x"), "+", Literal(1)), BranchFalse(Name(d), "==", Literal(2), ".top")]
  {
    hide Renamed, AllPhisReady, PhisExact, ExactFrontiers, HasPhi, CodeRenamed;
    BlockFacts(P, t, st, e.owner, e.outs, 0);
    LoopFirstHasNoPhi(P, t, e, "x");
    var env := StartEnv(P, t, st, e.outs, 0);
    assert env["x"] == "x";
    assert P.codes[0] == LoopBlock();
    d := LoopBlockRenamed(env, st.code[0], e.outs[0]);
  }

  lemma VersionDiffers(d: string, v: string)
    ensures IsVersionOf(d, v) ==> d != v
  {
  }

  lemma {:induction false} LoopsForEver(m: Machine, P: Problem, st: RenameState, d: string, s: Store, fuel: nat)
    requires P.graph == Graph([[0, 1], []], [[0], [0]]) && |P.codes| == 2 && (forall v :: !HasPhi(P, 0, v)) && d != "x" && 0 in st.code
    requires st.code[0] == [BinaryOperation(d, Name("x"), "+", Literal(1)), BranchFalse(Name(d), "==", Literal(2), ".top")]
    requires m.homes == map[] && m.arithmetic("+", 0, 1) == 1 && Read(m, s, "x") == 0
    ensures RunSsa(m, P, st, 0, s, [], fuel) == Ran([])
    decreases fuel
  {
    var code := st.code[0];
    var u := Write(m, s, d, 1);
    assert code[1..] == [code[1]];
    assert RunCode(m, code, s, []) == Leave(true, u, []);
    assert ApplyPhis(m, P, st, 0, 0, u) == u by { NoPhis(m, P, st, u); }
    if fuel > 0 { LoopsForEver(m, P, st, d, u, fuel - 1); }
  }

  lemma NoPhis(m: Machine, P: Problem, st: RenameState, u: Store)
    requires forall v :: !HasPhi(P, 0, v)
    ensures ApplyPhis(m, P, st, 0, 0, u) == u
  {
  }

  /** The code returns 2 when `x` starts at 0; its SSA form never ends. */
  lemma EntryLoopDiffers(P: Problem, t: Parents, st: RenameState, e: Evidence, m: Machine, s: Store)
    requires P.graph == Graph([[0, 1], []], [[0], [0]]) && P.codes == LoopFirst() && "x" in P.phis && ValidProblem(P)
    requires 0 in t && ExactFrontiers(P.graph, t, e.df) && PhisExact(P, e) && Renamed(P, t, st, e.owner, e.outs)
    requires m.homes == map[] && m.arithmetic("+", 0, 1) == 1 && m.arithmetic("+", 1, 1) == 2 && Read(m, s, "x") == 0
    ensures 0 in st.code && RunBlocks(m, P.codes, P.graph, 0, s, [], 2) == Ended(Some(2), [])
    ensures forall fuel: nat :: RunSsa(m, P, st, 0, s, [], fuel) == Ran([])
  {
    hide Renamed, PhisExact, ExactFrontiers, HasPhi;
    var d := LoopFirstRenamed(P, t, st, e);
    forall v ensures !HasPhi(P, 0, v) { LoopFirstHasNoPhi(P, t, e, v); }
    forall fuel: nat ensures RunSsa(m, P, st, 0, s, [], fuel) == Ran([]) { LoopsForEver(m, P, st, d, s, fuel); }
    LoopFirstEnds(m, P, s);
  }

  lemma LoopFirstEnds(m: Machine, P: Problem, s: Store)
    requires P.graph == Graph([[0, 1], []], [[0], [0]]) && P.codes == LoopFirst()
    requires m.homes == map[] && m.arithmetic("+", 0, 1) == 1 && m.arithmetic("+", 1, 1) == 2 && Read(m, s, "x") == 0
    ensures RunBlocks(m, P.codes, P.graph, 0, s, [], 2) == Ended(Some(2), [])
  {
    var code := LoopFirst()[0];
    assert code[1..] == [code[1]] && code[1..][1..] == [];
    var u := Write(m, s, "x", 1);
    assert RunCode(m, code, s, []) == Leave(true, u, []);
    var w := Write(m, u, "x", 2);
    assert RunCode(m, code[1..], w, []) == RunCode(m, [], w, []) == Leave(false, w, []);
    assert RunCode(m, code, u, []) == Leave(false, w, []);
    var last := LoopFirst()[1];
    assert RunCode(m, last, w, []) == End(Some(2), []);
  }
}
