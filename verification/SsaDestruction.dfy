/** Leaving SSA form (cc/ssa.py:747-763): phis become copies at the end of the
    predecessors. */
module SsaDestruction {
  import opened Common
  import opened IR
  import opened Cfg
  import opened BlockRuns
  import opened Dominance
  import opened Dominators
  import opened Frontiers
  import opened SsaNames
  import opened Renaming
  import opened SsaForm
  import opened SsaMeaning
  import opened SsaConversion

  // ----- Destruction -----

  function Target(st: RenameState, k: EdgeKey): string {
    if PhiKey(k.block, k.name) in st.destinations then st.destinations[PhiKey(k.block, k.name)] else k.name
  }

  function CopyFor(st: RenameState, k: EdgeKey): Instruction {
    Copy(Target(st, k), Name(if k in st.sources then st.sources[k] else k.name))
  }

  function CopiesFor(st: RenameState, ks: seq<EdgeKey>): (r: Body)
    ensures |r| == |ks| && AllPlain(r)
  {
    seq(|ks|, i requires 0 <= i < |ks| => CopyFor(st, ks[i]))
  }

  function RenamedCode(P: Problem, st: RenameState, b: int): Body
    requires 0 <= b < |P.codes|
  {
    if b in st.code then st.code[b] else P.codes[b]
  }

  ghost predicate Distinct(ks: seq<EdgeKey>) {
    forall i, j :: 0 <= i < j < |ks| ==> ks[i] != ks[j]
  }

  /** The copies of block `p`: one for every operand recorded for an edge from `p`. */
  ghost predicate CopiesAre(st: RenameState, done: set<EdgeKey>, p: int, ks: seq<EdgeKey>) {
    Distinct(ks) && forall k :: k in ks <==> k in done && k.pred == p
  }

  ghost predicate Destructed(P: Problem, st: RenameState, done: set<EdgeKey>, codes: seq<Body>, copies: seq<seq<EdgeKey>>) {
    && |codes| == |copies| == |P.codes|
    && forall p :: 0 <= p < |codes| ==> BlockDestructed(P, st, done, codes[p], copies[p], p)
  }

  ghost predicate BlockDestructed(P: Problem, st: RenameState, done: set<EdgeKey>, code: Body, ks: seq<EdgeKey>, p: int) {
    0 <= p < |P.codes| && CopiesAre(st, done, p, ks) && code == WithCopies(RenamedCode(P, st, p), CopiesFor(st, ks))
  }

  lemma BlockMore(P: Problem, st: RenameState, done: set<EdgeKey>, code: Body, ks: seq<EdgeKey>, p: int, k: EdgeKey)
    requires BlockDestructed(P, st, done, code, ks, p) && k !in done
    ensures k.pred != p ==> BlockDestructed(P, st, done + {k}, code, ks, p)
    ensures k.pred == p ==> BlockDestructed(P, st, done + {k}, WithCopies(code, [CopyFor(st, k)]), ks + [k], p)
  {
    if k.pred == p {
      OneMoreCopy(RenamedCode(P, st, p), CopiesFor(st, ks), CopyFor(st, k));
      assert CopiesFor(st, ks + [k]) == CopiesFor(st, ks) + [CopyFor(st, k)];
      hide WithCopies, CopiesFor, CopyFor;
      assert forall x :: x in ks + [k] <==> x in ks || x == k;
    }
  }

  lemma DestructedMore(P: Problem, st: RenameState, done: set<EdgeKey>, codes: seq<Body>, copies: seq<seq<EdgeKey>>, k: EdgeKey)
    requires Destructed(P, st, done, codes, copies) && k !in done && 0 <= k.pred < |codes|
    ensures Destructed(P, st, done + {k}, codes[k.pred := WithCopies(codes[k.pred], [CopyFor(st, k)])], copies[k.pred := copies[k.pred] + [k]])
  {
    hide BlockDestructed;
    forall p | 0 <= p < |codes|
      ensures k.pred != p ==> BlockDestructed(P, st, done + {k}, codes[p], copies[p], p)
      ensures k.pred == p ==> BlockDestructed(P, st, done + {k}, WithCopies(codes[p], [CopyFor(st, k)]), copies[p] + [k], p)
    {
      BlockMore(P, st, done, codes[p], copies[p], p, k);
    }
  }

  lemma DestructedStarts(P: Problem, st: RenameState, codes: seq<Body>, copies: seq<seq<EdgeKey>>)
    requires |codes| == |copies| == |P.codes|
    requires forall p :: 0 <= p < |codes| ==> codes[p] == RenamedCode(P, st, p) && copies[p] == []
    ensures Destructed(P, st, {}, codes, copies)
  {
    forall p | 0 <= p < |codes| ensures BlockDestructed(P, st, {}, codes[p], copies[p], p) {
      assert CopiesFor(st, []) == [];
      assert WithCopies(codes[p], []) == codes[p];
    }
  }

  /** Turns each phi operand into a copy at the end of its predecessor. */
  method ConvertFromSsa(P: Problem, st: RenameState) returns (codes: seq<Body>, ghost copies: seq<seq<EdgeKey>>)
    requires forall k: EdgeKey :: k in st.sources ==> 0 <= k.pred < |P.codes|
    ensures Destructed(P, st, st.sources.Keys, codes, copies)
  {
    hide Destructed, WithCopies, CopyFor;
    codes := seq(|P.codes|, b requires 0 <= b < |P.codes| => RenamedCode(P, st, b));
    copies := seq(|P.codes|, b requires 0 <= b < |P.codes| => []);
    DestructedStarts(P, st, codes, copies);
    var left := st.sources.Keys;
    ghost var done := {};
    while left != {}
      invariant |codes| == |copies| == |P.codes| && left <= st.sources.Keys && done == st.sources.Keys - left
      invariant Destructed(P, st, done, codes, copies)
    {
      var k :| k in left;
      DestructedMore(P, st, done, codes, copies, k);
      codes := codes[k.pred := WithCopies(codes[k.pred], [CopyFor(st, k)])];
      copies := copies[k.pred := copies[k.pred] + [k]];
      left := left - {k};
      done := done + {k};
    }
    assert done == st.sources.Keys;
  }

  // ----- Every current version is a version of its own variable -----

  lemma {:induction false} CodeKeepsOwn(P: Problem, before: Body, env: Env, after: Body, out: Env)
    requires CodeRenamed(before, env, after, out) && OwnVersions(P, env)
    ensures OwnVersions(P, out)
    decreases |before|
  {
    if before != [] {
      var i, j := before[0], after[0];
      hide IsVersionOf, RenameUses, WithDestination;
      CodeKeepsOwn(P, before[1..], if DefinesRenamed(i, env) then env[DestinationOf(i).value := DestinationOf(j).value] else env, after[1..], out);
    }
  }

  lemma {:induction false} OutsOwn(P: Problem, t: Parents, po: map<int, int>, st: RenameState, owner: map<string, Site>, outs: map<int, Env>, b: int)
    requires Renamed(P, t, st, owner, outs) && Tree(t, po) && b in t
    ensures b in outs && OwnVersions(P, outs[b])
    decreases po[0] - po[b]
  {
    hide Renamed, CodeRenamed, IsVersionOf, AllPhisReady, StartEnv;
    BlockFacts(P, t, st, owner, outs, b);
    if b != 0 { OutsOwn(P, t, po, st, owner, outs, t[b]); }
    StartsOwn(P, t, st, outs, b);
    CodeKeepsOwn(P, P.codes[b], StartEnv(P, t, st, outs, b), st.code[b], outs[b]);
  }

  lemma StartsOwn(P: Problem, t: Parents, st: RenameState, outs: map<int, Env>, b: int)
    requires AllPhisReady(P, st, b) && (b != 0 && b in t && t[b] in outs ==> OwnVersions(P, outs[t[b]]))
    ensures OwnVersions(P, StartEnv(P, t, st, outs, b))
  {
    hide IsVersionOf;
    var env := InEnv(P, t, outs, b);
    forall v | v in env ensures StartEnv(P, t, st, outs, b)[v] == v || IsVersionOf(StartEnv(P, t, st, outs, b)[v], v) {
      if HasPhi(P, b, v) { assert PhiReady(P, st, b, v); }
    }
  }

  // ----- Copies one after another do what the phis do at once -----

  /** The operands for one edge, each a version of the phi's own variable. */
  ghost predicate EdgeOperands(P: Problem, st: RenameState, p: int, c: int, ks: seq<EdgeKey>) {
    && Distinct(ks)
    && forall k :: k in ks ==> k.block == c && k.pred == p && OperandReady(P, st, k)
  }

  ghost predicate OperandReady(P: Problem, st: RenameState, k: EdgeKey) {
    && PhiReady(P, st, k.block, k.name) && k in st.sources
    && (st.sources[k] == k.name || IsVersionOf(st.sources[k], k.name))
  }

  /** `r` is `u` with the destinations of `ks` set to what their operands hold in `u`. */
  ghost predicate AllAtOnce(m: Machine, st: RenameState, ks: seq<EdgeKey>, u: Store, r: Store) {
    && (forall l :: Untouched(st, ks, l) ==> SameAt(u, r, l))
    && (forall k :: k in ks ==> k in st.sources && Slot(Target(st, k)) in r && r[Slot(Target(st, k))] == Read(m, u, st.sources[k]))
  }

  ghost predicate Untouched(st: RenameState, ks: seq<EdgeKey>, l: Location) {
    forall k :: k in ks ==> Slot(Target(st, k)) != l
  }

  predicate SameAt(u: Store, r: Store, l: Location) {
    (l in u <==> l in r) && (l in u ==> u[l] == r[l])
  }

  /** A phi's operand is no other phi's destination. */
  lemma OperandUntouched(P: Problem, st: RenameState, p: int, c: int, ks: seq<EdgeKey>, k: EdgeKey)
    requires CleanVariables(P) && EdgeOperands(P, st, p, c, ks + [k])
    ensures k in st.sources && Untouched(st, ks, Slot(st.sources[k])) && Untouched(st, ks, Slot(Target(st, k)))
  {
    var all := ks + [k];
    assert all[|ks|] == k;
    assert OperandReady(P, st, k);
    forall x | x in ks ensures Target(st, x) != st.sources[k] && Target(st, x) != Target(st, k) {
      var i :| 0 <= i < |ks| && ks[i] == x;
      assert all[i] == x && all[i] != all[|ks|];
      assert OperandReady(P, st, x);
      assert x.name != k.name;
    }
  }

  lemma OneMoreAtOnce(m: Machine, st: RenameState, ks: seq<EdgeKey>, k: EdgeKey, u: Store, r: Store)
    requires m.homes == map[] && AllAtOnce(m, st, ks, u, r) && k in st.sources
    requires Untouched(st, ks, Slot(st.sources[k])) && Untouched(st, ks, Slot(Target(st, k)))
    ensures AllAtOnce(m, st, ks + [k], u, Effect(m, CopyFor(st, k), r, []))
  {
    var r' := Effect(m, CopyFor(st, k), r, []);
    assert SameAt(u, r, Slot(st.sources[k]));
    assert r' == r[Slot(Target(st, k)) := Read(m, u, st.sources[k])];
    hide Effect, CopyFor, Target, Read;
    forall l | Untouched(st, ks + [k], l) ensures SameAt(u, r', l) {
      assert k in ks + [k];
      assert forall x :: x in ks ==> x in ks + [k];
      assert Untouched(st, ks, l);
    }
    forall x | x in ks + [k] ensures x in st.sources && Slot(Target(st, x)) in r' && r'[Slot(Target(st, x))] == Read(m, u, st.sources[x]) {
      assert x in ks || x == k;
    }
  }

  lemma {:induction false} CopiesRunAtOnce(m: Machine, P: Problem, st: RenameState, p: int, c: int, ks: seq<EdgeKey>, u: Store)
    requires m.homes == map[] && CleanVariables(P) && EdgeOperands(P, st, p, c, ks)
    ensures AllAtOnce(m, st, ks, u, RunCopies(m, CopiesFor(st, ks), u))
    decreases |ks|
  {
    hide CleanVariables, OperandReady, Effect, CopyFor, Target, Read, AllAtOnce;
    if ks != [] {
      var n := |ks| - 1;
      var front, k := ks[..n], ks[n];
      assert ks == front + [k];
      CopiesRunAtOnce(m, P, st, p, c, front, u);
      OperandUntouched(P, st, p, c, front, k);
      OneMoreAtOnce(m, st, front, k, u, RunCopies(m, CopiesFor(st, front), u));
      assert CopiesFor(st, ks)[..n] == CopiesFor(st, front) && CopiesFor(st, ks)[n] == CopyFor(st, k);
    } else {
      NoneAtOnce(m, st, u);
    }
  }

  lemma NoneAtOnce(m: Machine, st: RenameState, u: Store)
    ensures AllAtOnce(m, st, [], u, u)
  {
  }

  /** All operands of the edge from `p` to `c`, and no others. */
  ghost predicate WholeEdge(P: Problem, p: int, c: int, ks: seq<EdgeKey>) {
    forall v :: EdgeKey(c, v, p) in ks <==> HasPhi(P, c, v)
  }

  lemma AtOnceIsPhis(m: Machine, P: Problem, st: RenameState, p: int, c: int, ks: seq<EdgeKey>, u: Store, r: Store)
    requires m.homes == map[] && EdgeOperands(P, st, p, c, ks) && WholeEdge(P, p, c, ks) && AllPhisReady(P, st, c) && AllAtOnce(m, st, ks, u, r)
    ensures r == ApplyPhis(m, P, st, p, c, u)
  {
    var w := ApplyPhis(m, P, st, p, c, u);
    forall l ensures SameAt(w, r, l) {
      if Untouched(st, ks, l) {
        assert SameAt(u, r, l);
        NoPhiAt(m, P, st, p, c, ks, u, l);
      } else {
        var k :| k in ks && Slot(Target(st, k)) == l;
        assert OperandReady(P, st, k);
        PhiAt(m, P, st, p, c, u, k.name);
      }
      hide ApplyPhis, Read;
    }
    SameEverywhere(w, r);
    hide ApplyPhis;
  }

  lemma SameEverywhere(u: Store, r: Store)
    requires forall l :: SameAt(u, r, l)
    ensures u == r
  {
    forall l ensures l in u <==> l in r { assert SameAt(u, r, l); }
    forall l | l in u ensures u[l] == r[l] { assert SameAt(u, r, l); }
  }

  lemma NoPhiAt(m: Machine, P: Problem, st: RenameState, p: int, c: int, ks: seq<EdgeKey>, u: Store, l: Location)
    requires WholeEdge(P, p, c, ks) && Untouched(st, ks, l)
    ensures SameAt(u, ApplyPhis(m, P, st, p, c, u), l)
  {
    forall v | v in P.phis && PhiReady(P, st, c, v) ensures Slot(st.destinations[PhiKey(c, v)]) != l {
      assert EdgeKey(c, v, p) in ks;
      assert Target(st, EdgeKey(c, v, p)) == st.destinations[PhiKey(c, v)];
    }
  }

  lemma PhiAt(m: Machine, P: Problem, st: RenameState, p: int, c: int, u: Store, v: string)
    requires v in P.phis && PhiReady(P, st, c, v) && EdgeKey(c, v, p) in st.sources
    ensures var l := Slot(st.destinations[PhiKey(c, v)]); var r := ApplyPhis(m, P, st, p, c, u);
      l in r && r[l] == Read(m, u, st.sources[EdgeKey(c, v, p)])
  {
    var written := map v | v in P.phis && PhiReady(P, st, c, v) :: Slot(st.destinations[PhiKey(c, v)]) := PhiValue(m, st, p, c, v, u);
    assert Slot(st.destinations[PhiKey(c, v)]) in written;
  }

  // ----- Whole runs -----

  /** Every block that leads to a phi leads nowhere else, as once critical edges
      have been split. */
  ghost predicate NoCriticalEdges(P: Problem) {
    forall p, c, v :: 0 <= p < |P.graph.succ| && c in P.graph.succ[p] && HasPhi(P, c, v) ==> P.graph.succ[p] == [c]
  }

  /** Renaming keeps the shape of a block. */
  lemma {:induction false} SameShape(before: Body, env: Env, after: Body, out: Env)
    requires CodeRenamed(before, env, after, out)
    ensures |after| == |before| && forall k :: 0 <= k < |before| ==> SameKind(before[k], after[k])
    decreases |before|
  {
    if before != [] {
      var i, j := before[0], after[0];
      var env' := if DefinesRenamed(i, env) then env[DestinationOf(i).value := DestinationOf(j).value] else env;
      SameShape(before[1..], env', after[1..], out);
      assert SameKind(i, j) by {
        if DefinesRenamed(i, env) { RenameUsesKeepsDestination(i, env); }
      }
      hide RenameUses, WithDestination, CodeRenamed, SameKind;
      forall k | 0 <= k < |before| ensures SameKind(before[k], after[k]) {
        if k > 0 { assert before[k] == before[1..][k - 1] && after[k] == after[1..][k - 1]; }
      }
    }
  }

  predicate SameKind(i: Instruction, j: Instruction) {
    IsTerminator(i) == IsTerminator(j) && i.Jump? == j.Jump? && i.BranchFalse? == j.BranchFalse?
  }

  lemma ShapeCarries(P: Problem, before: Body, after: Body)
    requires CleanCode(P, before) && |after| == |before| && forall k :: 0 <= k < |before| ==> SameKind(before[k], after[k])
    ensures Straight(after) && EndsInTerminator(after) == EndsInTerminator(before) && EndsInBranch(after) == EndsInBranch(before)
  {
    if before != [] { assert SameKind(before[|before| - 1], after[|after| - 1]); }
    hide CleanInstruction;
  }

  /** What is recorded for the only edge from `p`. */
  lemma EdgeIsWhole(P: Problem, t: Parents, po: map<int, int>, df: FrontierMap, definitions: map<string, set<int>>,
                    st: RenameState, owner: map<string, Site>, outs: map<int, Env>, p: int, c: int, ks: seq<EdgeKey>)
    requires Converted(P, t, po, df, definitions, st, owner, outs) && CopiesAre(st, st.sources.Keys, p, ks)
    requires p in t && 0 <= p < |P.graph.succ| && P.graph.succ[p] == [c]
    ensures EdgeOperands(P, st, p, c, ks) && WholeEdge(P, p, c, ks) && AllPhisReady(P, st, c)
  {
    hide Setting, Renamed, AllPhisReady, IsVersionOf, CodeRenamed;
    assert c in P.graph.succ[p];
    ReachesFrom(P, t, po, df, definitions, p, c);
    BlockFacts(P, t, st, owner, outs, c);
    SettingTree(P, t, po, df, definitions);
    OutsOwn(P, t, po, st, owner, outs, p);
    forall v | HasPhi(P, c, v) ensures EdgeKey(c, v, p) in ks && PhiReady(P, st, c, v) && SourceIs(st.sources, c, v, p, outs[p][v]) {
      EdgeCoherent(P, t, po, df, definitions, st, owner, outs, p, c, v);
      ReadyAt(P, st, c, v);
    }
    forall k | k in ks ensures k.block == c && k.pred == p && OperandReady(P, st, k) {
      KnownSource(P, t, st, owner, outs, k);
      assert k == EdgeKey(c, k.name, p);
      assert HasPhi(P, c, k.name);
    }
  }

  lemma ReadyAt(P: Problem, st: RenameState, c: int, v: string)
    requires AllPhisReady(P, st, c) && HasPhi(P, c, v)
    ensures PhiReady(P, st, c, v)
  {
  }

  lemma KnownSource(P: Problem, t: Parents, st: RenameState, owner: map<string, Site>, outs: map<int, Env>, k: EdgeKey)
    requires Renamed(P, t, st, owner, outs) && k in st.sources
    ensures OnEdge(P, k)
  {
    hide BlockDone;
  }

  lemma SettingTree(P: Problem, t: Parents, po: map<int, int>, df: FrontierMap, definitions: map<string, set<int>>)
    requires Setting(P, t, po, df, definitions)
    ensures Tree(t, po)
  {
  }

  // ----- What a terminator reads, the copies leave alone -----

  /** A terminator reads the versions that leave the block. */
  lemma {:induction false} LastRenamed(before: Body, env: Env, after: Body, out: Env)
    requires CodeRenamed(before, env, after, out) && EndsInTerminator(before)
    ensures |after| == |before| && after[|after| - 1] == RenameUses(before[|before| - 1], out)
    decreases |before|
  {
    var i, j := before[0], after[0];
    var env' := if DefinesRenamed(i, env) then env[DestinationOf(i).value := DestinationOf(j).value] else env;
    hide RenameUses, WithDestination, IsVersionOf;
    if |before| > 1 {
      assert before[1..][|before| - 2] == before[|before| - 1];
      LastRenamed(before[1..], env', after[1..], out);
    } else {
      assert before[1..] == [];
    }
  }

  lemma RenamedUses(i: Instruction, env: Env, x: string) returns (v: string)
    requires x in Uses(RenameUses(i, env))
    ensures v in Uses(i) && x == if v in env then env[v] else v
  {
    v := x;
    if u :| u in Uses(i) && x == if u in env then env[u] else u {
      v := u;
    } else if i.Call? {
      v := RenamedOperands(i.args, env, x);
    } else if i.TailCall? {
      v := RenamedOperands(i.args, env, x);
    }
  }

  lemma RenamedOperands(vs: seq<Value>, env: Env, x: string) returns (v: string)
    requires x in NamesOfAll(RenameValues(vs, env))
    ensures v in NamesOfAll(vs) && x == if v in env then env[v] else v
  {
    var k :| 0 <= k < |vs| && RenameValues(vs, env)[k] == Name(x);
    v := vs[k].id;
  }

  /** A phi's destination that is current is its own operand. */
  lemma CurrentIsOperand(P: Problem, env: Env, v: string, k: EdgeKey, d: string)
    requires CleanVariables(P) && OwnVersions(P, env) && IsVersionOf(d, k.name) && k.name in P.phis
    requires v in P.phis || Plain(P, v)
    requires d == if v in env then env[v] else v
    ensures v == k.name && v in env
  {
  }

  lemma TerminatorUnmoved(P: Problem, t: Parents, po: map<int, int>, df: FrontierMap, definitions: map<string, set<int>>,
                          st: RenameState, owner: map<string, Site>, outs: map<int, Env>, m: Machine, p: int, c: int, ks: seq<EdgeKey>, w: Store, x: string)
    requires Converted(P, t, po, df, definitions, st, owner, outs) && CleanVariables(P) && m.homes == map[] && CopiesAre(st, st.sources.Keys, p, ks)
    requires p in t && 0 <= p < |P.graph.succ| && P.graph.succ[p] == [c] && p in st.code && p < |P.codes| && CleanCode(P, P.codes[p])
    requires EndsInTerminator(P.codes[p]) && |st.code[p]| == |P.codes[p]| && x in Uses(st.code[p][|st.code[p]| - 1])
    ensures Read(m, RunCopies(m, CopiesFor(st, ks), w), x) == Read(m, w, x)
  {
    hide Setting, Renamed, CodeRenamed, StartEnv, CleanVariables, CopiesFor, RunCopies, Read, CopiesAre, AllPhisReady, RenameUses, Uses, IsVersionOf, OwnVersions, Plain;
    SettingTree(P, t, po, df, definitions);
    BlockFacts(P, t, st, owner, outs, p);
    OutsOwn(P, t, po, st, owner, outs, p);
    LastRenamed(P.codes[p], StartEnv(P, t, st, outs, p), st.code[p], outs[p]);
    EdgeIsWhole(P, t, po, df, definitions, st, owner, outs, p, c, ks);
    CopiesRunAtOnce(m, P, st, p, c, ks, w);
    var last := P.codes[p][|P.codes[p]| - 1];
    var v := RenamedUses(last, outs[p], x);
    CleanUse(P, last, v);
    if k :| k in ks && Target(st, k) == x {
      ReadyTarget(P, st, k);
      CurrentIsOperand(P, outs[p], v, k, x);
      assert c in P.graph.succ[p];
      EdgeCoherent(P, t, po, df, definitions, st, owner, outs, p, c, v);
      OperandReads(m, st, ks, k, w, RunCopies(m, CopiesFor(st, ks), w));
    } else {
      UntouchedReads(m, st, ks, x, w, RunCopies(m, CopiesFor(st, ks), w));
    }
  }

  lemma CleanUse(P: Problem, i: Instruction, v: string)
    requires CleanInstruction(P, i) && v in Uses(i)
    ensures v in P.phis || Plain(P, v)
  {
    hide Plain;
  }

  lemma ReadyTarget(P: Problem, st: RenameState, k: EdgeKey)
    requires OperandReady(P, st, k)
    ensures k.name in P.phis && IsVersionOf(Target(st, k), k.name)
  {
    hide IsVersionOf;
  }

  lemma OperandReads(m: Machine, st: RenameState, ks: seq<EdgeKey>, k: EdgeKey, w: Store, r: Store)
    requires m.homes == map[] && AllAtOnce(m, st, ks, w, r) && k in ks && k in st.sources && st.sources[k] == Target(st, k)
    ensures Read(m, r, Target(st, k)) == Read(m, w, Target(st, k))
  {
    hide Target;
  }

  lemma UntouchedReads(m: Machine, st: RenameState, ks: seq<EdgeKey>, x: string, w: Store, r: Store)
    requires m.homes == map[] && AllAtOnce(m, st, ks, w, r) && forall k :: k in ks ==> Target(st, k) != x
    ensures Read(m, r, x) == Read(m, w, x)
  {
    hide Target;
    assert Untouched(st, ks, Slot(x));
    assert SameAt(w, r, Slot(x));
  }

  /** A block with the copies for its edge leaves what the phis would set. */
  lemma BlockRunsPhis(P: Problem, t: Parents, po: map<int, int>, df: FrontierMap, definitions: map<string, set<int>>,
                      st: RenameState, owner: map<string, Site>, outs: map<int, Env>, m: Machine, p: int, c: int, ks: seq<EdgeKey>, code: Body, u: Store, trace: seq<Event>)
    requires Converted(P, t, po, df, definitions, st, owner, outs) && CleanVariables(P) && m.homes == map[]
    requires p in t && 0 <= p < |P.graph.succ| && P.graph.succ[p] == [c] && p in st.code && p < |P.codes| && CleanCode(P, P.codes[p])
    requires |st.code[p]| == |P.codes[p]| && EndsInTerminator(st.code[p]) == EndsInTerminator(P.codes[p])
    requires Straight(st.code[p]) && BlockDestructed(P, st, st.sources.Keys, code, ks, p)
    ensures var x, y := RunCode(m, st.code[p], u, trace), RunCode(m, code, u, trace);
      if x.End? then y == x else y == Leave(x.branch, ApplyPhis(m, P, st, p, c, x.store), x.trace)
  {
    hide Converted, CleanVariables, RunCode, WithCopies, CopiesFor, RunCopies, ApplyPhis, AllAtOnce, EdgeOperands, WholeEdge, AllPhisReady, CopiesAre, CleanCode, Uses, Straight, EndsInTerminator;
    EdgeIsWhole(P, t, po, df, definitions, st, owner, outs, p, c, ks);
    var copies := CopiesFor(st, ks);
    if EndsInTerminator(st.code[p]) {
      NotEmpty(st.code[p]);
      var names := Uses(st.code[p][|st.code[p]| - 1]);
      forall w: Store, x | x in names ensures Read(m, RunCopies(m, copies, w), x) == Read(m, w, x) {
        TerminatorUnmoved(P, t, po, df, definitions, st, owner, outs, m, p, c, ks, w, x);
      }
      IndifferentFrom(m, copies, names);
    }
    CopiesRunLast(m, st.code[p], copies, u, trace);
    var x := RunCode(m, st.code[p], u, trace);
    if x.Leave? {
      CopiesRunAtOnce(m, P, st, p, c, ks, x.store);
      AtOnceIsPhis(m, P, st, p, c, ks, x.store, RunCopies(m, copies, x.store));
    }
  }

  lemma NotEmpty(code: Body)
    requires EndsInTerminator(code)
    ensures code != []
  {
  }

  lemma IndifferentFrom(m: Machine, copies: Body, names: set<string>)
    requires forall w: Store, x :: x in names ==> Read(m, RunCopies(m, copies, w), x) == Read(m, w, x)
    ensures Indifferent(m, copies, names)
  {
    hide RunCopies, Read;
  }

  /** A block without a phi behind it stays as it is. */
  lemma NoCopies(P: Problem, t: Parents, st: RenameState, owner: map<string, Site>, outs: map<int, Env>, p: int, ks: seq<EdgeKey>, code: Body)
    requires Renamed(P, t, st, owner, outs) && BlockDestructed(P, st, st.sources.Keys, code, ks, p) && p in st.code && p < |P.graph.succ|
    requires forall c, v :: c in P.graph.succ[p] ==> !HasPhi(P, c, v)
    ensures code == st.code[p]
  {
    hide Renamed, HasPhi;
    if ks != [] {
      assert ks[0] in ks;
      KnownSource(P, t, st, owner, outs, ks[0]);
      assert false;
    }
    assert WithCopies(st.code[p], []) == st.code[p];
  }

  lemma NoPhiChange(m: Machine, P: Problem, st: RenameState, p: int, c: int, u: Store)
    requires forall v :: !HasPhi(P, c, v)
    ensures ApplyPhis(m, P, st, p, c, u) == u
  {
  }

  /** The conversion, and the blocks that came of leaving SSA form. */
  ghost predicate OutOfSsa(P: Problem, t: Parents, po: map<int, int>, df: FrontierMap, definitions: map<string, set<int>>,
                           st: RenameState, owner: map<string, Site>, outs: map<int, Env>, codes: seq<Body>, copies: seq<seq<EdgeKey>>)
  {
    && Converted(P, t, po, df, definitions, st, owner, outs) && CleanBlocks(P) && NoCriticalEdges(P)
    && Destructed(P, st, st.sources.Keys, codes, copies)
  }

  /** How block `b` is left in both forms. */
  ghost predicate LeftAlike(m: Machine, P: Problem, st: RenameState, b: int, code: Body, u: Store, trace: seq<Event>)
    requires b in st.code && 0 <= b < |P.graph.succ|
  {
    var x, y := RunCode(m, st.code[b], u, trace), RunCode(m, code, u, trace);
    if x.End? then y == x
    else
      && y.Leave? && y.trace == x.trace
      && NextBlock(code, P.graph.succ[b], y.branch) == NextBlock(st.code[b], P.graph.succ[b], x.branch)
      && (forall c :: c in P.graph.succ[b] ==> y.store == ApplyPhis(m, P, st, b, c, x.store))
  }

  lemma BlockLeftAlike(P: Problem, t: Parents, po: map<int, int>, df: FrontierMap, definitions: map<string, set<int>>,
                       st: RenameState, owner: map<string, Site>, outs: map<int, Env>, codes: seq<Body>, copies: seq<seq<EdgeKey>>,
                       m: Machine, b: int, u: Store, trace: seq<Event>)
    requires OutOfSsa(P, t, po, df, definitions, st, owner, outs, codes, copies) && m.homes == map[] && b in t
    ensures |codes| == |P.codes| == |P.graph.succ| && 0 <= b < |codes| && b in st.code
    ensures LeftAlike(m, P, st, b, codes[b], u, trace)
  {
    hide Setting, Renamed, CleanCode, CleanVariables, CodeRenamed, StartEnv, ApplyPhis, RunCode, AllPhisReady, EndsInBranch, OneWay, Straight,
      WithCopies, CopiesAre, HasPhi, SameKind;
    SameLength(P, t, po, df, definitions);
    BlockFacts(P, t, st, owner, outs, b);
    SameShape(P.codes[b], StartEnv(P, t, st, outs, b), st.code[b], outs[b]);
    ShapeCarries(P, P.codes[b], st.code[b]);
    assert BlockDestructed(P, st, st.sources.Keys, codes[b], copies[b], b);
    if c, v :| c in P.graph.succ[b] && HasPhi(P, c, v) {
      assert P.graph.succ[b] == [c];
      BlockRunsPhis(P, t, po, df, definitions, st, owner, outs, m, b, c, copies[b], codes[b], u, trace);
      CopiesKeepEnding(st.code[b], CopiesFor(st, copies[b]));
    } else {
      NoCopies(P, t, st, owner, outs, b, copies[b], codes[b]);
      forall c, s: Store | c in P.graph.succ[b] ensures ApplyPhis(m, P, st, b, c, s) == s { NoPhiChange(m, P, st, b, c, s); }
    }
  }

  /** The blocks with copies run as the SSA form does. */
  lemma {:induction false} DestructionRuns(P: Problem, t: Parents, po: map<int, int>, df: FrontierMap, definitions: map<string, set<int>>,
                                           st: RenameState, owner: map<string, Site>, outs: map<int, Env>, codes: seq<Body>, copies: seq<seq<EdgeKey>>,
                                           m: Machine, b: int, u: Store, trace: seq<Event>, fuel: nat)
    requires OutOfSsa(P, t, po, df, definitions, st, owner, outs, codes, copies) && m.homes == map[] && b in t
    ensures |codes| == |P.codes| == |P.graph.succ| && 0 <= b < |codes| && b in st.code
    ensures RunBlocks(m, codes, P.graph, b, u, trace, fuel) == RunSsa(m, P, st, b, u, trace, fuel)
    decreases fuel
  {
    hide Setting, Renamed, CleanBlocks, NoCriticalEdges, Destructed, ApplyPhis, RunCode, EndsInBranch;
    BlockLeftAlike(P, t, po, df, definitions, st, owner, outs, codes, copies, m, b, u, trace);
    var x := RunCode(m, st.code[b], u, trace);
    if x.Leave? {
      var next := NextBlock(st.code[b], P.graph.succ[b], x.branch);
      if next.Some? {
        var c := next.value;
        assert c in P.graph.succ[b];
        ReachesFrom(P, t, po, df, definitions, b, c);
        BlockFacts(P, t, st, owner, outs, c);
        if fuel > 0 {
          DestructionRuns(P, t, po, df, definitions, st, owner, outs, codes, copies, m, c, ApplyPhis(m, P, st, b, c, x.store), x.trace, fuel - 1);
        }
      }
    }
  }

  /** Into SSA form and out again: every run is as before. */
  lemma RoundTripRuns(P: Problem, t: Parents, po: map<int, int>, df: FrontierMap, definitions: map<string, set<int>>,
                      st: RenameState, owner: map<string, Site>, outs: map<int, Env>, codes: seq<Body>, copies: seq<seq<EdgeKey>>,
                      m: Machine, s: Store, fuel: nat)
    requires OutOfSsa(P, t, po, df, definitions, st, owner, outs, codes, copies) && m.homes == map[] && forall v :: !HasPhi(P, 0, v)
    ensures 0 < |codes| == |P.codes| == |P.graph.succ|
    ensures RunBlocks(m, codes, P.graph, 0, s, [], fuel) == RunBlocks(m, P.codes, P.graph, 0, s, [], fuel)
  {
    hide Setting, Renamed, CleanBlocks, NoCriticalEdges, Destructed, HasPhi, RunBlocks, RunSsa;
    SameLength(P, t, po, df, definitions);
    ConversionKeepsMeaning(P, t, po, df, definitions, st, owner, outs);
    DestructionRuns(P, t, po, df, definitions, st, owner, outs, codes, copies, m, 0, s, [], fuel);
    assert RunBlocks(m, P.codes, P.graph, 0, s, [], fuel) == RunSsa(m, P, st, 0, s, [], fuel);
  }
}
