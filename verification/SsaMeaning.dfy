/** Running blocks along the recorded edges, before and after conversion to SSA
    form: every renamed use reads the last value assigned to the original
    variable, so both runs take the same branches, make the same calls and return
    the same value. */
module SsaMeaning {
  import opened Common
  import opened IR
  import opened Cfg
  import opened BlockRuns
  import opened Dominance
  import opened Dominators
  import opened Frontiers
  import opened SsaNames
  import opened Renaming
  import opened SsaForm

  // ----- Runs over blocks -----

  /** The value of each phi of `c` when it is entered from `p`; all phis read
      before any writes. */
  function PhiValue(m: Machine, st: RenameState, p: int, c: int, v: string, s: Store): int {
    if EdgeKey(c, v, p) in st.sources then Read(m, s, st.sources[EdgeKey(c, v, p)]) else 0
  }

  predicate PhiReady(P: Problem, st: RenameState, c: int, v: string) {
    HasPhi(P, c, v) && PhiKey(c, v) in st.destinations && IsVersionOf(st.destinations[PhiKey(c, v)], v)
  }

  function ApplyPhis(m: Machine, P: Problem, st: RenameState, p: int, c: int, s: Store): Store {
    s + map v | v in P.phis && PhiReady(P, st, c, v) :: Slot(st.destinations[PhiKey(c, v)]) := PhiValue(m, st, p, c, v, s)
  }

  /** The blocks in SSA form; the phis of `b` have been applied already. */
  function RunSsa(m: Machine, P: Problem, st: RenameState, b: int, s: Store, trace: seq<Event>, fuel: nat): Outcome
    requires 0 <= b < |P.codes| && |P.codes| == |P.graph.succ| && b in st.code
    decreases fuel
  {
    match RunCode(m, st.code[b], s, trace)
    case End(v, tr) => Ended(v, tr)
    case Leave(branch, s', tr) =>
      match NextBlock(st.code[b], P.graph.succ[b], branch)
      case None => Ended(None, tr)
      case Some(c) =>
        if fuel == 0 || !(0 <= c < |P.codes|) || c !in st.code then Ran(tr)
        else RunSsa(m, P, st, c, ApplyPhis(m, P, st, b, c, s'), tr, fuel - 1)
  }

  // ----- Agreement -----

  /** A name that is neither renamed nor a version of a renamed one. */
  ghost predicate Plain(P: Problem, n: string) {
    n !in P.phis && forall v :: v in P.phis ==> !IsVersionOf(n, v)
  }

  /** No renamed variable looks like a version of another. */
  ghost predicate CleanVariables(P: Problem) {
    forall v, w :: v in P.phis && w in P.phis ==> !IsVersionOf(v, w)
  }

  ghost predicate CleanInstruction(P: Problem, i: Instruction) {
    forall n :: n in Uses(i) + Defs(i) ==> n in P.phis || Plain(P, n)
  }

  /** Code as blocks hold it: clean names, and only the last instruction may
      transfer control. */
  ghost predicate CleanCode(P: Problem, code: Body) {
    && (forall k :: 0 <= k < |code| ==> CleanInstruction(P, code[k]))
    && (forall k :: 0 <= k < |code| - 1 ==> !IsTerminator(code[k]))
  }

  ghost predicate OwnVersions(P: Problem, env: Env) {
    env.Keys == P.phis.Keys && forall v :: v in env ==> env[v] == v || IsVersionOf(env[v], v)
  }

  /** The current version of each variable holds the variable's value. */
  ghost predicate Agrees(P: Problem, m: Machine, env: Env, s: Store, u: Store) {
    && (forall v :: v in env ==> Read(m, s, v) == Read(m, u, env[v]))
    && (forall n :: Plain(P, n) ==> Read(m, s, n) == Read(m, u, n))
  }

  lemma ValueAgrees(P: Problem, m: Machine, env: Env, s: Store, u: Store, x: Value)
    requires Agrees(P, m, env, s, u) && env.Keys == P.phis.Keys && forall n :: n in NamesOf(x) ==> n in P.phis || Plain(P, n)
    ensures ValueOf(m, s, x) == ValueOf(m, u, RenameValue(x, env))
  {
    if x.Name? { assert x.id in NamesOf(x); }
    hide Plain;
  }

  lemma ValuesAgree(P: Problem, m: Machine, env: Env, s: Store, u: Store, xs: seq<Value>)
    requires Agrees(P, m, env, s, u) && env.Keys == P.phis.Keys && forall n :: n in NamesOfAll(xs) ==> n in P.phis || Plain(P, n)
    ensures ValuesOf(m, s, xs) == ValuesOf(m, u, RenameValues(xs, env))
  {
    hide Plain, Agrees;
    forall k | 0 <= k < |xs| ensures ValueOf(m, s, xs[k]) == ValueOf(m, u, RenameValue(xs[k], env)) {
      assert NamesOf(xs[k]) <= NamesOfAll(xs);
      ValueAgrees(P, m, env, s, u, xs[k]);
    }
  }

  /** Writing a variable and a fresh version of it keeps the agreement. */
  lemma WriteVersion(P: Problem, m: Machine, env: Env, s: Store, u: Store, d: string, name: string, x: int)
    requires m.homes == map[] && CleanVariables(P) && OwnVersions(P, env) && Agrees(P, m, env, s, u)
    requires d in env && IsVersionOf(name, d)
    ensures OwnVersions(P, env[d := name])
    ensures Agrees(P, m, env[d := name], Write(m, s, d, x), Write(m, u, name, x))
  {
    var env' := env[d := name];
    forall v | v in env' ensures Read(m, Write(m, s, d, x), v) == Read(m, Write(m, u, name, x), env'[v]) {
      if v != d { assert env[v] != name; }
    }
    hide IsVersionOf;
  }

  /** Writing a name that is not renamed keeps the agreement. */
  lemma WritePlain(P: Problem, m: Machine, env: Env, s: Store, u: Store, d: string, x: int)
    requires m.homes == map[] && OwnVersions(P, env) && Agrees(P, m, env, s, u) && Plain(P, d)
    ensures Agrees(P, m, env, Write(m, s, d, x), Write(m, u, d, x))
  {
    forall v | v in env ensures Read(m, Write(m, s, d, x), v) == Read(m, Write(m, u, d, x), env[v]) {
      assert env[v] != d;
    }
    hide IsVersionOf;
  }

  /** The value an instruction writes, if any. */
  function Written(m: Machine, i: Instruction, s: Store, trace: seq<Event>): int {
    match i
    case Copy(_, v) => ValueOf(m, s, v)
    case BinaryOperation(_, l, op, r) => m.arithmetic(op, ValueOf(m, s, l), ValueOf(m, s, r))
    case Call(_, _, _) => m.answer(Calls(m, i, s, trace))
    case _ => 0
  }

  lemma EffectIsWrite(m: Machine, i: Instruction, s: Store, trace: seq<Event>)
    ensures DestinationOf(i).Some? ==> Effect(m, i, s, trace) == Write(m, s, DestinationOf(i).value, Written(m, i, s, trace))
    ensures DestinationOf(i).None? ==> Effect(m, i, s, trace) == s
  {
  }

  /** A renamed instruction computes the same value and makes the same call. */
  lemma SameWritten(P: Problem, m: Machine, env: Env, s: Store, u: Store, i: Instruction, trace: seq<Event>)
    requires Agrees(P, m, env, s, u) && env.Keys == P.phis.Keys && CleanInstruction(P, i)
    ensures Written(m, i, s, trace) == Written(m, RenameUses(i, env), u, trace)
    ensures Calls(m, i, s, trace) == Calls(m, RenameUses(i, env), u, trace)
  {
    hide Agrees, Plain;
    match i
    case Copy(_, v) => ValueAgrees(P, m, env, s, u, v);
    case BinaryOperation(_, l, _, r) =>
      ValueAgrees(P, m, env, s, u, l);
      ValueAgrees(P, m, env, s, u, r);
    case Call(_, args, _) => ValuesAgree(P, m, env, s, u, args);
    case TailCall(_, args) => ValuesAgree(P, m, env, s, u, args);
    case _ =>
  }

  lemma WithDestinationSame(m: Machine, i: Instruction, d: string, s: Store, trace: seq<Event>)
    requires DestinationOf(i).Some?
    ensures Written(m, WithDestination(i, d), s, trace) == Written(m, i, s, trace)
    ensures Calls(m, WithDestination(i, d), s, trace) == Calls(m, i, s, trace)
  {
  }

  // ----- One block -----

  /** Everything that holds between the two runs at a point. */
  ghost predicate Synced(P: Problem, m: Machine, env: Env, s: Store, u: Store) {
    m.homes == map[] && CleanVariables(P) && OwnVersions(P, env) && Agrees(P, m, env, s, u)
  }

  ghost predicate ExitsAgree(P: Problem, m: Machine, out: Env, a: Exit, b: Exit) {
    match a
    case End(v, tr) => b == End(v, tr)
    case Leave(branch, s, tr) => b.Leave? && b.branch == branch && b.trace == tr && Synced(P, m, out, s, b.store)
  }

  lemma DefsOfDestination(i: Instruction)
    ensures DestinationOf(i).Some? ==> DestinationOf(i).value in Defs(i)
  {
  }

  /** One straight-line instruction and its renamed form. */
  lemma StepSynced(P: Problem, m: Machine, env: Env, i: Instruction, j: Instruction, env': Env, s: Store, u: Store, trace: seq<Event>)
    requires Synced(P, m, env, s, u) && CleanInstruction(P, i) && !IsTerminator(i)
    requires if DefinesRenamed(i, env)
      then DestinationOf(j).Some? && IsVersionOf(DestinationOf(j).value, DestinationOf(i).value)
           && j == WithDestination(RenameUses(i, env), DestinationOf(j).value) && env' == env[DestinationOf(i).value := DestinationOf(j).value]
      else j == RenameUses(i, env) && env' == env
    ensures Synced(P, m, env', Effect(m, i, s, trace), Effect(m, j, u, trace))
    ensures Calls(m, i, s, trace) == Calls(m, j, u, trace)
  {
    SameWritten(P, m, env, s, u, i, trace);
    RenameUsesKeepsDestination(i, env);
    EffectIsWrite(m, i, s, trace);
    EffectIsWrite(m, j, u, trace);
    DefsOfDestination(i);
    hide Agrees, IsVersionOf, RenameUses, WithDestination, Effect, Calls, Written, DestinationOf, Plain, CleanVariables;
    if DefinesRenamed(i, env) {
      var d, name := DestinationOf(i).value, DestinationOf(j).value;
      WithDestinationSame(m, RenameUses(i, env), name, u, trace);
      WriteVersion(P, m, env, s, u, d, name, Written(m, i, s, trace));
    } else if DestinationOf(i).Some? {
      WritePlain(P, m, env, s, u, DestinationOf(i).value, Written(m, i, s, trace));
    }
  }

  /** A block's last instruction decides alike. */
  lemma LastSynced(P: Problem, m: Machine, env: Env, i: Instruction, s: Store, u: Store, trace: seq<Event>)
    requires Synced(P, m, env, s, u) && CleanInstruction(P, i) && IsTerminator(i)
    ensures ExitsAgree(P, m, env, RunCode(m, [i], s, trace), RunCode(m, [RenameUses(i, env)], u, trace))
  {
    SameWritten(P, m, env, s, u, i, trace);
    hide Agrees, Plain, CleanVariables;
    if i.BranchFalse? {
      ValueAgrees(P, m, env, s, u, i.left);
      ValueAgrees(P, m, env, s, u, i.right);
      assert Holds(m, s, i) == Holds(m, u, RenameUses(i, env));
      assert [i][1..] == [] && [RenameUses(i, env)][1..] == [];
    } else if i.Return? && i.value.Some? {
      ValueAgrees(P, m, env, s, u, i.value.value);
    }
  }

  lemma RenameUsesKind(i: Instruction, env: Env)
    ensures IsTerminator(RenameUses(i, env)) == IsTerminator(i)
    ensures RenameUses(i, env).BranchFalse? == i.BranchFalse?
    ensures DestinationOf(i).Some? ==> !IsTerminator(i)
  {
  }

  lemma WithDestinationKind(i: Instruction, d: string)
    requires DestinationOf(i).Some?
    ensures !IsTerminator(WithDestination(i, d))
  {
  }

  /** Renamed code keeps in step with the original. */
  lemma {:induction false} CodeSynced(P: Problem, m: Machine, before: Body, env: Env, after: Body, out: Env, s: Store, u: Store, trace: seq<Event>)
    requires CodeRenamed(before, env, after, out) && CleanCode(P, before) && Synced(P, m, env, s, u)
    ensures ExitsAgree(P, m, out, RunCode(m, before, s, trace), RunCode(m, after, u, trace))
    decreases |before|
  {
    hide Synced, RenameUses, WithDestination, IsVersionOf, Effect, Calls, CleanInstruction;
    if before != [] {
      var i, j := before[0], after[0];
      RenameUsesKind(i, env);
      RenameUsesKeepsDestination(i, env);
      SyncedKeys(P, m, env, s, u);
      if IsTerminator(i) {
        assert |before| == 1;
        assert before == [i] && before[1..] == [];
        assert after == [j];
        LastSynced(P, m, env, i, s, u, trace);
      } else {
        var env' := if DefinesRenamed(i, env) then env[DestinationOf(i).value := DestinationOf(j).value] else env;
        if DefinesRenamed(i, env) { WithDestinationKind(RenameUses(i, env), DestinationOf(j).value); }
        StepSynced(P, m, env, i, j, env', s, u, trace);
        TailClean(P, before);
        RunCodeStep(m, before, s, trace);
        RunCodeStep(m, after, u, trace);
        CodeSynced(P, m, before[1..], env', after[1..], out, Effect(m, i, s, trace), Effect(m, j, u, trace), Calls(m, i, s, trace));
      }
    }
  }

  lemma SyncedKeys(P: Problem, m: Machine, env: Env, s: Store, u: Store)
    requires Synced(P, m, env, s, u)
    ensures env.Keys == P.phis.Keys
  {
  }

  lemma TailClean(P: Problem, code: Body)
    requires CleanCode(P, code) && code != []
    ensures CleanCode(P, code[1..])
  {
    hide CleanInstruction;
    var tail := code[1..];
    forall k | 0 <= k < |tail| ensures CleanInstruction(P, tail[k]) { assert tail[k] == code[k + 1]; }
    forall k | 0 <= k < |tail| - 1 ensures !IsTerminator(tail[k]) { assert tail[k] == code[k + 1]; }
  }

  lemma {:induction false} SameEnding(before: Body, env: Env, after: Body, out: Env)
    requires CodeRenamed(before, env, after, out)
    ensures |after| == |before| && EndsInBranch(after) == EndsInBranch(before)
    decreases |before|
  {
    if before != [] {
      var i, j := before[0], after[0];
      RenameUsesKind(i, env);
      if DefinesRenamed(i, env) {
        RenameUsesKeepsDestination(i, env);
        WithDestinationKind(RenameUses(i, env), DestinationOf(j).value);
        SameEnding(before[1..], env[DestinationOf(i).value := DestinationOf(j).value], after[1..], out);
      } else {
        SameEnding(before[1..], env, after[1..], out);
      }
      hide CodeRenamed, RenameUses, WithDestination;
    }
  }

  // ----- One edge -----

  ghost predicate AllPhisReady(P: Problem, st: RenameState, c: int) {
    forall v :: HasPhi(P, c, v) ==> PhiReady(P, st, c, v)
  }

  /** A slot that belongs to no phi of `c` keeps its value. */
  lemma OtherSlots(m: Machine, P: Problem, st: RenameState, p: int, c: int, u: Store, n: string)
    requires m.homes == map[]
    requires forall v :: v in P.phis && PhiReady(P, st, c, v) ==> st.destinations[PhiKey(c, v)] != n
    ensures Read(m, ApplyPhis(m, P, st, p, c, u), n) == Read(m, u, n)
  {
  }

  lemma PhiSlot(m: Machine, P: Problem, st: RenameState, p: int, c: int, u: Store, v: string)
    requires m.homes == map[] && v in P.phis && PhiReady(P, st, c, v)
    ensures Read(m, ApplyPhis(m, P, st, p, c, u), st.destinations[PhiKey(c, v)]) == PhiValue(m, st, p, c, v, u)
  {
    var written := map v | v in P.phis && PhiReady(P, st, c, v) :: Slot(st.destinations[PhiKey(c, v)]) := PhiValue(m, st, p, c, v, u);
    assert Slot(st.destinations[PhiKey(c, v)]) in written;
  }

  lemma PhiAgrees(P: Problem, m: Machine, st: RenameState, p: int, c: int, out: Env, s: Store, u: Store, v: string)
    requires m.homes == map[] && v in P.phis && v in out && PhiReady(P, st, c, v) && SourceIs(st.sources, c, v, p, out[v])
    requires Read(m, s, v) == Read(m, u, out[v])
    ensures Read(m, s, v) == Read(m, ApplyPhis(m, P, st, p, c, u), st.destinations[PhiKey(c, v)])
  {
    PhiSlot(m, P, st, p, c, u, v);
    hide ApplyPhis, Read;
  }

  /** A current version of a variable without a phi is no phi's destination. */
  lemma NotAPhi(P: Problem, st: RenameState, c: int, v: string, n: string)
    requires CleanVariables(P) && v in P.phis && !HasPhi(P, c, v) && (n == v || IsVersionOf(n, v))
    ensures forall w :: w in P.phis && PhiReady(P, st, c, w) ==> st.destinations[PhiKey(c, w)] != n
  {
  }

  lemma PlainNotAPhi(P: Problem, st: RenameState, c: int, n: string)
    requires Plain(P, n)
    ensures forall w :: w in P.phis && PhiReady(P, st, c, w) ==> st.destinations[PhiKey(c, w)] != n
  {
  }

  ghost predicate SyncedAt(m: Machine, s: Store, u: Store, v: string, n: string) {
    (n == v || IsVersionOf(n, v)) && Read(m, s, v) == Read(m, u, n)
  }

  lemma SyncedFacts(P: Problem, m: Machine, env: Env, s: Store, u: Store)
    requires Synced(P, m, env, s, u)
    ensures m.homes == map[] && CleanVariables(P) && env.Keys == P.phis.Keys
    ensures forall v :: v in env ==> SyncedAt(m, s, u, v, env[v])
    ensures forall n :: Plain(P, n) ==> Read(m, s, n) == Read(m, u, n)
  {
    hide CleanVariables, Plain, IsVersionOf, Read;
  }

  lemma SyncedIs(P: Problem, m: Machine, env: Env, s: Store, u: Store)
    requires m.homes == map[] && CleanVariables(P) && env.Keys == P.phis.Keys
    requires forall v :: v in env ==> SyncedAt(m, s, u, v, env[v])
    requires forall n :: Plain(P, n) ==> Read(m, s, n) == Read(m, u, n)
    ensures Synced(P, m, env, s, u)
  {
    hide CleanVariables, Plain, IsVersionOf, Read;
  }

  /** One variable across an edge. */
  lemma VariableSynced(P: Problem, m: Machine, st: RenameState, p: int, c: int, out: Env, s: Store, u: Store, v: string, n: string)
    requires m.homes == map[] && CleanVariables(P) && v in P.phis && v in out && SyncedAt(m, s, u, v, out[v])
    requires HasPhi(P, c, v) ==> PhiReady(P, st, c, v) && SourceIs(st.sources, c, v, p, out[v]) && n == st.destinations[PhiKey(c, v)]
    requires !HasPhi(P, c, v) ==> n == out[v]
    ensures SyncedAt(m, s, ApplyPhis(m, P, st, p, c, u), v, n)
  {
    hide ApplyPhis, Read, IsVersionOf, CleanVariables;
    if HasPhi(P, c, v) {
      PhiAgrees(P, m, st, p, c, out, s, u, v);
    } else {
      NotAPhi(P, st, c, v, n);
      OtherSlots(m, P, st, p, c, u, n);
    }
  }

  /** Crossing an edge keeps the agreement. */
  lemma EdgeSynced(P: Problem, m: Machine, st: RenameState, p: int, c: int, out: Env, env: Env, s: Store, u: Store)
    requires Synced(P, m, out, s, u) && AllPhisReady(P, st, c) && env.Keys == P.phis.Keys
    requires forall v :: v in P.phis && HasPhi(P, c, v) ==> SourceIs(st.sources, c, v, p, out[v])
    requires forall v :: v in P.phis && !HasPhi(P, c, v) ==> env[v] == out[v]
    ensures Synced(P, m, TopEnv(P, st.destinations, c, env), s, ApplyPhis(m, P, st, p, c, u))
  {
    hide ApplyPhis, Read, IsVersionOf, CleanVariables, Plain, Synced, SyncedAt, PhiReady;
    SyncedFacts(P, m, out, s, u);
    var top := TopEnv(P, st.destinations, c, env);
    var u' := ApplyPhis(m, P, st, p, c, u);
    forall v | v in top ensures SyncedAt(m, s, u', v, top[v]) {
      if HasPhi(P, c, v) { PhiReadyKey(P, st, c, v); }
      VariableSynced(P, m, st, p, c, out, s, u, v, top[v]);
    }
    forall n | Plain(P, n) ensures Read(m, s, n) == Read(m, u', n) {
      PlainNotAPhi(P, st, c, n);
      OtherSlots(m, P, st, p, c, u, n);
    }
    SyncedIs(P, m, top, s, u');
  }

  lemma PhiReadyKey(P: Problem, st: RenameState, c: int, v: string)
    requires PhiReady(P, st, c, v)
    ensures PhiKey(c, v) in st.destinations
  {
  }

  // ----- Whole runs -----

  /** What the blocks of the original hold. */
  ghost predicate CleanBlocks(P: Problem) {
    CleanVariables(P) && forall b :: 0 <= b < |P.codes| ==> CleanCode(P, P.codes[b])
  }

  /** A finished conversion of `P`. */
  ghost predicate Converted(P: Problem, t: Parents, po: map<int, int>, df: FrontierMap, definitions: map<string, set<int>>,
                            st: RenameState, owner: map<string, Site>, outs: map<int, Env>)
  {
    Setting(P, t, po, df, definitions) && Renamed(P, t, st, owner, outs)
  }

  /** What is current once the phis of `b` have run. */
  function StartEnv(P: Problem, t: Parents, st: RenameState, outs: map<int, Env>, b: int): Env {
    TopEnv(P, st.destinations, b, InEnv(P, t, outs, b))
  }

  lemma BlockFacts(P: Problem, t: Parents, st: RenameState, owner: map<string, Site>, outs: map<int, Env>, b: int)
    requires Renamed(P, t, st, owner, outs) && b in t
    ensures b in st.code && b in outs && 0 <= b < |P.codes| && b < |P.graph.succ|
    ensures CodeRenamed(P.codes[b], StartEnv(P, t, st, outs, b), st.code[b], outs[b])
    ensures AllPhisReady(P, st, b)
    ensures InEnv(P, t, outs, b).Keys == P.phis.Keys
  {
    OutKeys(P, t, st, owner, outs, b);
    if b != 0 { OutKeys(P, t, st, owner, outs, t[b]); }
    hide CodeRenamed, CodeOwned, SourcesFilled, IsVersionOf, AllDone, TopEnv;
    forall v | HasPhi(P, b, v) ensures PhiReady(P, st, b, v) { assert PhiNamed(st.destinations, owner, b, v); }
  }

  /** Crossing a recorded edge between the two runs. */
  lemma CrossEdge(P: Problem, t: Parents, po: map<int, int>, df: FrontierMap, definitions: map<string, set<int>>,
                  st: RenameState, owner: map<string, Site>, outs: map<int, Env>, m: Machine, p: int, c: int, s: Store, u: Store)
    requires Converted(P, t, po, df, definitions, st, owner, outs)
    requires p in t && 0 <= p < |P.graph.succ| && c in P.graph.succ[p] && p in outs && Synced(P, m, outs[p], s, u)
    ensures c in t && Synced(P, m, StartEnv(P, t, st, outs, c), s, ApplyPhis(m, P, st, p, c, u))
  {
    hide Setting, Renamed, Synced, HasPhi, SourceIs, TopEnv, ApplyPhis, AllPhisReady, CodeRenamed, InEnv;
    ReachesFrom(P, t, po, df, definitions, p, c);
    BlockFacts(P, t, st, owner, outs, c);
    SyncedKeys(P, m, outs[p], s, u);
    forall v | v in P.phis
      ensures HasPhi(P, c, v) ==> SourceIs(st.sources, c, v, p, outs[p][v])
      ensures !HasPhi(P, c, v) ==> InEnv(P, t, outs, c)[v] == outs[p][v]
    {
      EdgeCoherent(P, t, po, df, definitions, st, owner, outs, p, c, v);
    }
    EdgeSynced(P, m, st, p, c, outs[p], InEnv(P, t, outs, c), s, u);
  }

  lemma ReachesFrom(P: Problem, t: Parents, po: map<int, int>, df: FrontierMap, definitions: map<string, set<int>>, p: int, c: int)
    requires Setting(P, t, po, df, definitions) && p in t && 0 <= p < |P.graph.succ| && c in P.graph.succ[p]
    ensures c in t
  {
    EdgeReaches(P, t, po, p, c);
  }

  /** Both runs, from any reachable block on. */
  lemma {:induction false} RunsAgree(P: Problem, t: Parents, po: map<int, int>, df: FrontierMap, definitions: map<string, set<int>>,
                                     st: RenameState, owner: map<string, Site>, outs: map<int, Env>, m: Machine, b: int, s: Store, u: Store, trace: seq<Event>, fuel: nat)
    requires Converted(P, t, po, df, definitions, st, owner, outs) && CleanBlocks(P)
    requires b in t && Synced(P, m, StartEnv(P, t, st, outs, b), s, u)
    ensures 0 <= b < |P.codes| && |P.codes| == |P.graph.succ| && b in st.code
    ensures RunBlocks(m, P.codes, P.graph, b, s, trace, fuel) == RunSsa(m, P, st, b, u, trace, fuel)
    decreases fuel
  {
    hide Setting, Renamed, Synced, CleanCode, CodeRenamed, StartEnv, ApplyPhis, RunCode, AllPhisReady, EndsInBranch, InEnv, CleanVariables;
    SameLength(P, t, po, df, definitions);
    BlockFacts(P, t, st, owner, outs, b);
    var env := StartEnv(P, t, st, outs, b);
    CodeSynced(P, m, P.codes[b], env, st.code[b], outs[b], s, u, trace);
    SameEnding(P.codes[b], env, st.code[b], outs[b]);
    var x, y := RunCode(m, P.codes[b], s, trace), RunCode(m, st.code[b], u, trace);
    if x.Leave? {
      var next := NextBlock(P.codes[b], P.graph.succ[b], x.branch);
      assert next == NextBlock(st.code[b], P.graph.succ[b], y.branch);
      if next.Some? {
        var c := next.value;
        assert c in P.graph.succ[b];
        CrossEdge(P, t, po, df, definitions, st, owner, outs, m, b, c, x.store, y.store);
        BlockFacts(P, t, st, owner, outs, c);
        if fuel > 0 {
          RunsAgree(P, t, po, df, definitions, st, owner, outs, m, c, x.store, ApplyPhis(m, P, st, b, c, y.store), x.trace, fuel - 1);
        }
      }
    }
  }

  lemma SameLength(P: Problem, t: Parents, po: map<int, int>, df: FrontierMap, definitions: map<string, set<int>>)
    requires Setting(P, t, po, df, definitions)
    ensures |P.codes| == |P.graph.succ| && |P.graph.succ| > 0 && 0 in t
  {
  }
}
