/** SSA renaming over the dominator tree (cc/ssa.py:569-629): fresh versions,
    version stacks, and phi operands. */
module Renaming {
  import opened Common
  import opened IR
  import opened Cfg
  import opened Dominance
  import opened Dominators
  import opened SsaNames

  /** Code and edges of the blocks, and for each renamed variable the blocks that
      hold a phi for it. */
  datatype Problem = Problem(codes: seq<Body>, graph: Graph, phis: map<string, set<int>>)

  ghost predicate ValidProblem(P: Problem) {
    ValidGraph(P.graph) && |P.codes| == |P.graph.succ| && "" !in P.phis
  }

  predicate HasPhi(P: Problem, b: int, v: string) { v in P.phis && b in P.phis[v] }

  /** The current version of every renamed variable. */
  type Env = map<string, string>

  // ----- Renaming one instruction -----

  function RenameValue(v: Value, env: Env): Value {
    if v.Name? && v.id in env then Name(env[v.id]) else v
  }

  function RenameValues(vs: seq<Value>, env: Env): seq<Value> {
    seq(|vs|, i requires 0 <= i < |vs| => RenameValue(vs[i], env))
  }

  function RenameUses(i: Instruction, env: Env): Instruction {
    match i
    case Copy(d, s) => Copy(d, RenameValue(s, env))
    case BinaryOperation(d, l, op, r) => BinaryOperation(d, RenameValue(l, env), op, RenameValue(r, env))
    case BranchFalse(l, op, r, t) => BranchFalse(RenameValue(l, env), op, RenameValue(r, env), t)
    case Call(f, args, d) => Call(f, RenameValues(args, env), d)
    case TailCall(f, args) => TailCall(f, RenameValues(args, env))
    case Return(v) => Return(if v.Some? then Some(RenameValue(v.value, env)) else None)
    case _ => i
  }

  function WithDestination(i: Instruction, d: string): Instruction
    requires DestinationOf(i).Some?
  {
    match i
    case Copy(_, s) => Copy(d, s)
    case BinaryOperation(_, l, op, r) => BinaryOperation(d, l, op, r)
    case Call(f, args, _) => Call(f, args, Some(d))
  }

  /** The instruction defines a renamed variable. */
  predicate DefinesRenamed(i: Instruction, env: Env) {
    DestinationOf(i).Some? && DestinationOf(i).value in env
  }

  predicate IsVersionOf(name: string, base: string) {
    base != "" && Deversion(name) == base && name != base
  }

  lemma VersionedIsVersion(base: string, k: nat)
    requires base != ""
    ensures IsVersionOf(Versioned(base, k), base)
  {
    DeversionUndoes(base, k);
    assert |Versioned(base, k)| > |base|;
  }

  /** `after` is `before` with operands replaced by current versions and each
      definition given a version of its own; `out` is what is current at the end. */
  predicate CodeRenamed(before: Body, env: Env, after: Body, out: Env)
    decreases |before|
  {
    if before == [] then after == [] && out == env
    else
      && after != []
      && var i := before[0];
      var j := after[0];
      if DefinesRenamed(i, env) then
        && DestinationOf(j).Some? && IsVersionOf(DestinationOf(j).value, DestinationOf(i).value)
        && j == WithDestination(RenameUses(i, env), DestinationOf(j).value)
        && CodeRenamed(before[1..], env[DestinationOf(i).value := DestinationOf(j).value], after[1..], out)
      else
        j == RenameUses(i, env) && CodeRenamed(before[1..], env, after[1..], out)
  }

  lemma RenameUsesKeepsDestination(i: Instruction, env: Env)
    ensures DestinationOf(RenameUses(i, env)) == DestinationOf(i)
  {
  }

  lemma WithDestinationHas(i: Instruction, d: string)
    requires DestinationOf(i).Some?
    ensures DestinationOf(WithDestination(i, d)) == Some(d)
  {
  }

  /** Renaming one more instruction at the end. */
  lemma {:induction false} CodeRenamedMore(before: Body, env: Env, after: Body, out: Env, i: Instruction, j: Instruction, out': Env)
    requires CodeRenamed(before, env, after, out)
    requires if DefinesRenamed(i, out)
      then DestinationOf(j).Some? && IsVersionOf(DestinationOf(j).value, DestinationOf(i).value)
           && j == WithDestination(RenameUses(i, out), DestinationOf(j).value) && out' == out[DestinationOf(i).value := DestinationOf(j).value]
      else j == RenameUses(i, out) && out' == out
    ensures CodeRenamed(before + [i], env, after + [j], out')
    decreases |before|
  {
    hide IsVersionOf, WithDestination, RenameUses;
    if before == [] {
      assert (before + [i])[1..] == [] && (after + [j])[1..] == [];
      assert (before + [i])[0] == i && (after + [j])[0] == j;
    } else {
      var h := before[0];
      var env' := if DefinesRenamed(h, env) then env[DestinationOf(h).value := DestinationOf(after[0]).value] else env;
      CodeRenamedMore(before[1..], env', after[1..], out, i, j, out');
      assert (before + [i])[1..] == before[1..] + [i] && (after + [j])[1..] == after[1..] + [j];
      assert (before + [i])[0] == h && (after + [j])[0] == after[0];
    }
  }

  // ----- Version stacks -----

  type Stacks = map<string, seq<string>>

  function TopOf(stack: Stacks, v: string): string
    requires v in stack
  {
    if stack[v] == [] then v else stack[v][|stack[v]| - 1]
  }

  function EnvOf(stack: Stacks): Env {
    map v | v in stack :: TopOf(stack, v)
  }

  function PushOn(stack: Stacks, v: string, name: string): Stacks
    requires v in stack
  {
    stack[v := stack[v] + [name]]
  }

  lemma PushEnv(stack: Stacks, v: string, name: string)
    requires v in stack
    ensures EnvOf(PushOn(stack, v, name)) == EnvOf(stack)[v := name]
  {
  }

  /** `stack` is `base` with `pushed[v]` more versions on each stack. */
  ghost predicate Grown(base: Stacks, stack: Stacks, pushed: map<string, int>) {
    && base.Keys == stack.Keys
    && forall v :: v in base ==> CountPushed(pushed, v) >= 0 && |stack[v]| == |base[v]| + CountPushed(pushed, v) && stack[v][..|base[v]|] == base[v]
  }

  function CountPushed(pushed: map<string, int>, v: string): int {
    if v in pushed then pushed[v] else 0
  }

  lemma GrownMore(base: Stacks, stack: Stacks, pushed: map<string, int>, v: string, name: string)
    requires Grown(base, stack, pushed) && v in stack
    ensures Grown(base, PushOn(stack, v, name), pushed[v := CountPushed(pushed, v) + 1])
  {
    var next := PushOn(stack, v, name);
    assert next[v][..|base[v]|] == stack[v][..|base[v]|];
  }

  /** Drops what was pushed. */
  method Pop(stack: Stacks, pushed: map<string, int>, ghost base: Stacks) returns (r: Stacks)
    requires Grown(base, stack, pushed)
    ensures r == base
  {
    r := map v | v in stack :: if CountPushed(pushed, v) > 0 && CountPushed(pushed, v) <= |stack[v]| then stack[v][..|stack[v]| - CountPushed(pushed, v)] else stack[v];
    forall v | v in base ensures v in r && r[v] == base[v] {
      assert stack[v][..|stack[v]|] == stack[v];
    }
  }

  // ----- Fresh versions -----

  /** Where a version is defined. */
  datatype Site = AtPhi(block: int, name: string) | AtCode(at: int, index: int)

  ghost predicate Issued(counter: map<string, int>, name: string) {
    exists v, k: nat :: v in counter && k < counter[v] && v != "" && name == Versioned(v, k)
  }

  /** The versions of each name handed out so far are numbered from 0 without a gap, and
      each has one place of definition. */
  ghost predicate Ledger(counter: map<string, int>, owner: map<string, Site>) {
    && "" !in counter
    && (forall v :: v in counter ==> counter[v] >= 0)
    && (forall n :: n in owner <==> Issued(counter, n))
  }

  lemma FreshIsNew(counter: map<string, int>, owner: map<string, Site>, v: string, site: Site)
    requires Ledger(counter, owner) && v in counter
    ensures Versioned(v, counter[v]) !in owner
    ensures Ledger(counter[v := counter[v] + 1], owner[Versioned(v, counter[v]) := site])
  {
    var name := Versioned(v, counter[v]);
    var next := counter[v := counter[v] + 1];
    hide Versioned;
    if Issued(counter, name) {
      var w, k: nat :| w in counter && k < counter[w] && w != "" && name == Versioned(w, k);
      VersionedInjective(v, counter[v], w, k);
    }
    assert Issued(next, name);
    forall n | n in owner ensures Issued(next, n) {
      var w, k: nat :| w in counter && k < counter[w] && w != "" && n == Versioned(w, k);
      assert w in next && k < next[w];
    }
    forall n | Issued(next, n) ensures n in owner || n == name {
      var w, k: nat :| w in next && k < next[w] && w != "" && n == Versioned(w, k);
      if !(w == v && k == counter[v]) { assert w in counter && k < counter[w]; }
    }
  }

  // ----- The renamer's state -----

  datatype PhiKey = PhiKey(block: int, name: string)

  /** The operand of the phi for `name` in `block` on the edge from `pred`. */
  datatype EdgeKey = EdgeKey(block: int, name: string, pred: int)

  datatype RenameState = RenameState(
    counter: map<string, int>,
    stack: Stacks,
    code: map<int, Body>,
    destinations: map<PhiKey, string>,
    sources: map<EdgeKey, string>)

  /** Only the counters and the stacks, and what was defined, can change while a
      block's own definitions are renamed. */
  ghost predicate Counting(P: Problem, st: RenameState, owner: map<string, Site>) {
    && st.counter.Keys == st.stack.Keys == P.phis.Keys
    && Ledger(st.counter, owner)
  }

  ghost predicate OwnerGrows(owner: map<string, Site>, owner': map<string, Site>) {
    forall n :: n in owner ==> n in owner' && owner'[n] == owner[n]
  }

  function Bumped(st: RenameState, v: string, name: string): RenameState
    requires v in st.stack && v in st.counter
  {
    st.(counter := st.counter[v := st.counter[v] + 1], stack := PushOn(st.stack, v, name))
  }

  /** Hands out the next version of `v`. */
  method Fresh(P: Problem, st0: RenameState, v: string, site: Site, ghost owner0: map<string, Site>)
    returns (st: RenameState, name: string, ghost owner: map<string, Site>)
    requires Counting(P, st0, owner0) && v in P.phis
    ensures v in st0.stack && v in st0.counter && st == Bumped(st0, v, name)
    ensures 0 <= st0.counter[v] && name == Versioned(v, st0.counter[v]) && st.counter == st0.counter[v := st0.counter[v] + 1]
    ensures Counting(P, st, owner) && OwnerGrows(owner0, owner) && IsVersionOf(name, v)
    ensures name !in owner0 && owner == owner0[name := site]
  {
    name := Versioned(v, st0.counter[v]);
    FreshIsNew(st0.counter, owner0, v, site);
    VersionedIsVersion(v, st0.counter[v]);
    hide Versioned, Issued;
    owner := owner0[name := site];
    st := Bumped(st0, v, name);
  }

  /** What is current after the phis of block `b`. */
  function TopEnv(P: Problem, destinations: map<PhiKey, string>, b: int, env: Env): Env {
    map v | v in env :: if HasPhi(P, b, v) && PhiKey(b, v) in destinations then destinations[PhiKey(b, v)] else env[v]
  }

  /** The phis of block `b` for the names in `names` have their versions. */
  ghost predicate PhisNamed(P: Problem, destinations: map<PhiKey, string>, owner: map<string, Site>, b: int, names: set<string>) {
    forall v :: v in names && HasPhi(P, b, v) ==> PhiNamed(destinations, owner, b, v)
  }

  ghost predicate PhiNamed(destinations: map<PhiKey, string>, owner: map<string, Site>, b: int, v: string) {
    && PhiKey(b, v) in destinations && IsVersionOf(destinations[PhiKey(b, v)], v)
    && destinations[PhiKey(b, v)] in owner && owner[destinations[PhiKey(b, v)]] == AtPhi(b, v)
  }

  lemma PhisNamedMore(P: Problem, destinations: map<PhiKey, string>, owner: map<string, Site>, b: int, names: set<string>, v: string, name: string)
    requires PhisNamed(P, destinations, owner, b, names) && v !in names && name !in owner && IsVersionOf(name, v)
    ensures PhisNamed(P, destinations[PhiKey(b, v) := name], owner[name := AtPhi(b, v)], b, names + {v})
  {
    hide IsVersionOf;
    forall w | w in names && HasPhi(P, b, w) ensures PhiNamed(destinations[PhiKey(b, v) := name], owner[name := AtPhi(b, v)], b, w) {
      assert PhiNamed(destinations, owner, b, w);
    }
  }

  lemma KeptMore(before: map<PhiKey, string>, after: map<PhiKey, string>, b: int, v: string, name: string)
    requires OtherDestinationsKept(before, after, b)
    ensures OtherDestinationsKept(before, after[PhiKey(b, v) := name], b)
  {
  }

  lemma OwnerGrowsTransitive(a: map<string, Site>, b: map<string, Site>, c: map<string, Site>)
    requires OwnerGrows(a, b) && OwnerGrows(b, c)
    ensures OwnerGrows(a, c)
  {
  }

  /** Entries that belong to other blocks are left alone. */
  ghost predicate OtherDestinationsKept(before: map<PhiKey, string>, after: map<PhiKey, string>, b: int) {
    forall k: PhiKey :: k.block != b ==> (k in after <==> k in before) && (k in before ==> after[k] == before[k])
  }

  method RenamePhis(P: Problem, st0: RenameState, b: int, ghost owner0: map<string, Site>)
    returns (st: RenameState, pushed: map<string, int>, ghost owner: map<string, Site>)
    requires Counting(P, st0, owner0) && forall v :: PhiKey(b, v) !in st0.destinations
    ensures Counting(P, st, owner) && OwnerGrows(owner0, owner)
    ensures st.code == st0.code && st.sources == st0.sources
    ensures OtherDestinationsKept(st0.destinations, st.destinations, b)
    ensures PhisNamed(P, st.destinations, owner, b, P.phis.Keys)
    ensures EnvOf(st.stack) == TopEnv(P, st.destinations, b, EnvOf(st0.stack))
    ensures Grown(st0.stack, st.stack, pushed)
  {
    hide IsVersionOf, Ledger, Grown, OwnerGrows, PhisNamed, OtherDestinationsKept, TopEnv, EnvOf, PushOn;
    st, pushed, owner := st0, map[], owner0;
    var left := set v | v in P.phis && b in P.phis[v];
    PhisStart(P, st0, b, owner0, left);
    while left != {}
      invariant Counting(P, st, owner) && OwnerGrows(owner0, owner)
      invariant st.code == st0.code && st.sources == st0.sources
      invariant OtherDestinationsKept(st0.destinations, st.destinations, b)
      invariant forall v :: v in left ==> HasPhi(P, b, v) && PhiKey(b, v) !in st.destinations
      invariant PhisNamed(P, st.destinations, owner, b, P.phis.Keys - left)
      invariant EnvOf(st.stack) == TopEnv(P, st.destinations, b, EnvOf(st0.stack))
      invariant Grown(st0.stack, st.stack, pushed)
    {
      var v :| v in left;
      ghost var before, owned, remaining := st, owner, left;
      left := left - {v};
      var name;
      st, name, owner := Fresh(P, st, v, AtPhi(b, v), owner);
      PhisNamedMore(P, before.destinations, owned, b, P.phis.Keys - remaining, v, name);
      assert P.phis.Keys - remaining + {v} == P.phis.Keys - left;
      KeptMore(st0.destinations, before.destinations, b, v, name);
      OwnerGrowsTransitive(owner0, owned, owner);
      PushEnv(before.stack, v, name);
      GrownMore(st0.stack, before.stack, pushed, v, name);
      st := st.(destinations := st.destinations[PhiKey(b, v) := name]);
      pushed := pushed[v := CountPushed(pushed, v) + 1];
      EnvKeys(st0.stack);
      TopEnvMore(P, before.destinations, b, v, name, EnvOf(st0.stack));
    }
    assert P.phis.Keys - left == P.phis.Keys;
  }

  lemma EnvKeys(stack: Stacks)
    ensures EnvOf(stack).Keys == stack.Keys
  {
  }

  lemma PhisStart(P: Problem, st: RenameState, b: int, owner: map<string, Site>, left: set<string>)
    requires left == set v | v in P.phis && b in P.phis[v]
    requires forall v :: PhiKey(b, v) !in st.destinations
    ensures OwnerGrows(owner, owner) && OtherDestinationsKept(st.destinations, st.destinations, b)
    ensures PhisNamed(P, st.destinations, owner, b, P.phis.Keys - left)
    ensures EnvOf(st.stack) == TopEnv(P, st.destinations, b, EnvOf(st.stack))
    ensures Grown(st.stack, st.stack, map[])
    ensures forall v :: v in left ==> HasPhi(P, b, v) && PhiKey(b, v) !in st.destinations
  {
  }

  lemma TopEnvMore(P: Problem, destinations: map<PhiKey, string>, b: int, v: string, name: string, env: Env)
    requires HasPhi(P, b, v) && v in env
    ensures TopEnv(P, destinations[PhiKey(b, v) := name], b, env) == TopEnv(P, destinations, b, env)[v := name]
  {
  }

  // ----- A block's own code -----

  /** Each version defined in the renamed code belongs to that place. */
  ghost predicate CodeOwned(P: Problem, before: Body, after: Body, owner: map<string, Site>, b: int) {
    && |after| == |before|
    && forall i :: 0 <= i < |before| && DestinationOf(before[i]).Some? && DestinationOf(before[i]).value in P.phis ==>
         CodeNamed(after[i], owner, b, i)
  }

  ghost predicate CodeNamed(j: Instruction, owner: map<string, Site>, b: int, i: int) {
    DestinationOf(j).Some? && DestinationOf(j).value in owner && owner[DestinationOf(j).value] == AtCode(b, i)
  }

  lemma CodeOwnedMore(P: Problem, before: Body, after: Body, owner: map<string, Site>, b: int, i: Instruction, j: Instruction, owner': map<string, Site>)
    requires CodeOwned(P, before, after, owner, b) && OwnerGrows(owner, owner')
    requires DestinationOf(i).Some? && DestinationOf(i).value in P.phis ==> CodeNamed(j, owner', b, |before|)
    ensures CodeOwned(P, before + [i], after + [j], owner', b)
  {
    forall n | 0 <= n < |before| && DestinationOf(before[n]).Some? && DestinationOf(before[n]).value in P.phis
      ensures CodeNamed(after[n], owner', b, n)
    {
      assert CodeNamed(after[n], owner, b, n);
    }
  }

  method RenameCode(P: Problem, st0: RenameState, b: int, code: Body, pushed0: map<string, int>, ghost base: Stacks, ghost owner0: map<string, Site>)
    returns (st: RenameState, after: Body, pushed: map<string, int>, ghost owner: map<string, Site>)
    requires Counting(P, st0, owner0) && Grown(base, st0.stack, pushed0)
    ensures Counting(P, st, owner) && OwnerGrows(owner0, owner)
    ensures st.code == st0.code && st.sources == st0.sources && st.destinations == st0.destinations
    ensures CodeRenamed(code, EnvOf(st0.stack), after, EnvOf(st.stack))
    ensures CodeOwned(P, code, after, owner, b)
    ensures Grown(base, st.stack, pushed)
  {
    hide IsVersionOf, Ledger, Grown, OwnerGrows, EnvOf, PushOn, CodeRenamed, CodeOwned, WithDestination, RenameUses, DestinationOf;
    st, after, pushed, owner := st0, [], pushed0, owner0;
    CodeStart(P, st0.stack, b, owner0);
    assert code[..0] == [];
    for n := 0 to |code|
      invariant Counting(P, st, owner) && OwnerGrows(owner0, owner)
      invariant st.code == st0.code && st.sources == st0.sources && st.destinations == st0.destinations
      invariant CodeRenamed(code[..n], EnvOf(st0.stack), after, EnvOf(st.stack))
      invariant CodeOwned(P, code[..n], after, owner, b) && |after| == n
      invariant Grown(base, st.stack, pushed)
    {
      var i := code[n];
      assert code[..n + 1] == code[..n] + [i];
      ghost var before, owned, done := st, owner, after;
      EnvKeys(st.stack);
      var j := RenameUses(i, EnvOf(st.stack));
      RenameUsesKeepsDestination(i, EnvOf(st.stack));
      if DestinationOf(j).Some? && DestinationOf(j).value in P.phis {
        var v := DestinationOf(j).value;
        var name;
        st, name, owner := Fresh(P, st, v, AtCode(b, n), owner);
        WithDestinationHas(j, name);
        PushEnv(before.stack, v, name);
        GrownMore(base, before.stack, pushed, v, name);
        OwnerGrowsTransitive(owner0, owned, owner);
        j := WithDestination(j, name);
        pushed := pushed[v := CountPushed(pushed, v) + 1];
      } else {
        OwnerGrowsSelf(owner);
      }
      CodeRenamedMore(code[..n], EnvOf(st0.stack), done, EnvOf(before.stack), i, j, EnvOf(st.stack));
      CodeOwnedMore(P, code[..n], done, owned, b, i, j, owner);
      after := after + [j];
    }
    assert code[..|code|] == code;
  }

  lemma OwnerGrowsSelf(owner: map<string, Site>)
    ensures OwnerGrows(owner, owner)
  {
  }

  lemma CodeStart(P: Problem, stack: Stacks, b: int, owner: map<string, Site>)
    ensures CodeRenamed([], EnvOf(stack), [], EnvOf(stack)) && CodeOwned(P, [], [], owner, b) && OwnerGrows(owner, owner)
  {
  }

  // ----- Phi operands -----

  /** Every phi in a successor of `b` has its operand for the edge from `b`. */
  ghost predicate SourcesFilled(P: Problem, sources: map<EdgeKey, string>, b: int, targets: seq<int>, env: Env) {
    forall s, v :: s in targets && HasPhi(P, s, v) && v in env ==> SourceIs(sources, s, v, b, env[v])
  }

  predicate SourceIs(sources: map<EdgeKey, string>, s: int, v: string, b: int, name: string) {
    EdgeKey(s, v, b) in sources && sources[EdgeKey(s, v, b)] == name
  }

  ghost predicate OtherSourcesKept(before: map<EdgeKey, string>, after: map<EdgeKey, string>, b: int) {
    forall k: EdgeKey :: k.pred != b && k in before ==> k in after && after[k] == before[k]
  }

  /** Nothing is recorded but the operands for edges that leave `b`. */
  ghost predicate SourcesAdded(P: Problem, before: map<EdgeKey, string>, after: map<EdgeKey, string>, b: int, targets: seq<int>) {
    forall k: EdgeKey :: k in after ==> k in before || (k.pred == b && k.block in targets && HasPhi(P, k.block, k.name))
  }

  lemma NoSourcesYet(P: Problem, sources: map<EdgeKey, string>, b: int, targets: seq<int>, env: Env)
    ensures SourcesFilled(P, sources, b, targets[..0], env) && OtherSourcesKept(sources, sources, b) && SourcesAdded(P, sources, sources, b, targets)
  {
  }

  lemma SourcesMore(P: Problem, sources0: map<EdgeKey, string>, before: map<EdgeKey, string>, sources: map<EdgeKey, string>, b: int,
                    targets: seq<int>, n: int, env: Env, added: map<string, string>)
    requires 0 <= n < |targets| && env.Keys == P.phis.Keys && added == map v | v in env && HasPhi(P, targets[n], v) :: env[v]
    requires sources == before + map v | v in added :: EdgeKey(targets[n], v, b) := added[v]
    requires SourcesFilled(P, before, b, targets[..n], env) && OtherSourcesKept(sources0, before, b) && SourcesAdded(P, sources0, before, b, targets)
    ensures SourcesFilled(P, sources, b, targets[..n + 1], env) && OtherSourcesKept(sources0, sources, b) && SourcesAdded(P, sources0, sources, b, targets)
  {
    var s := targets[n];
    forall s', v | s' in targets[..n + 1] && HasPhi(P, s', v) && v in env ensures SourceIs(sources, s', v, b, env[v]) {
      if s' in targets[..n] { assert SourceIs(before, s', v, b, env[v]); }
      if s' == s { assert v in added; }
    }
  }

  method FillSources(P: Problem, sources0: map<EdgeKey, string>, b: int, targets: seq<int>, env: Env) returns (sources: map<EdgeKey, string>)
    requires env.Keys == P.phis.Keys
    ensures SourcesFilled(P, sources, b, targets, env) && OtherSourcesKept(sources0, sources, b)
    ensures SourcesAdded(P, sources0, sources, b, targets)
  {
    hide SourcesFilled, SourcesAdded, OtherSourcesKept;
    sources := sources0;
    NoSourcesYet(P, sources0, b, targets, env);
    for n := 0 to |targets|
      invariant SourcesFilled(P, sources, b, targets[..n], env) && OtherSourcesKept(sources0, sources, b)
      invariant SourcesAdded(P, sources0, sources, b, targets)
    {
      var s := targets[n];
      var added := map v | v in env && HasPhi(P, s, v) :: env[v];
      ghost var before := sources;
      sources := sources + map v | v in added :: EdgeKey(s, v, b) := added[v];
      SourcesMore(P, sources0, before, sources, b, targets, n, env, added);
    }
    assert targets[..|targets|] == targets;
  }

  // ----- The whole walk -----

  function Identity(P: Problem): Env { map v | v in P.phis :: v }

  /** What is current when a block is entered. */
  function InEnv(P: Problem, t: Parents, outs: map<int, Env>, b: int): Env {
    if b != 0 && b in t && t[b] in outs then outs[t[b]] else Identity(P)
  }

  /** Block `b` has been renamed, from `env` at its start to `out` at its end. */
  ghost predicate BlockDone(P: Problem, st: RenameState, owner: map<string, Site>, b: int, env: Env, out: Env) {
    && 0 <= b < |P.codes| && b < |P.graph.succ| && b in st.code
    && PhisNamed(P, st.destinations, owner, b, P.phis.Keys)
    && CodeRenamed(P.codes[b], TopEnv(P, st.destinations, b, env), st.code[b], out)
    && CodeOwned(P, P.codes[b], st.code[b], owner, b)
    && SourcesFilled(P, st.sources, b, P.graph.succ[b], out)
    && out.Keys == P.phis.Keys
  }

  ghost predicate AllDone(P: Problem, t: Parents, st: RenameState, owner: map<string, Site>, outs: map<int, Env>) {
    && (forall b :: b in outs ==> b in t && (b != 0 ==> t[b] in outs) && BlockDone(P, st, owner, b, InEnv(P, t, outs, b), outs[b]))
    && (forall b, v :: b !in outs ==> PhiKey(b, v) !in st.destinations)
    && SourcesKnown(P, st.sources, outs)
  }

  /** Operands are recorded only for phis, on edges that leave finished blocks. */
  ghost predicate SourcesKnown(P: Problem, sources: map<EdgeKey, string>, outs: map<int, Env>) {
    forall k: EdgeKey :: k in sources ==> k.pred in outs && OnEdge(P, k)
  }

  predicate OnEdge(P: Problem, k: EdgeKey) {
    0 <= k.pred < |P.graph.succ| && k.block in P.graph.succ[k.pred] && HasPhi(P, k.block, k.name)
  }

  lemma SourcesKnownMore(P: Problem, before: map<EdgeKey, string>, after: map<EdgeKey, string>, outs: map<int, Env>, b: int, out: Env)
    requires SourcesKnown(P, before, outs) && 0 <= b < |P.graph.succ| && SourcesAdded(P, before, after, b, P.graph.succ[b])
    ensures SourcesKnown(P, after, outs[b := out])
  {
  }

  /** What was recorded for other blocks stays valid while `b` is renamed. */
  lemma BlockDoneKept(P: Problem, st: RenameState, st': RenameState, owner: map<string, Site>, owner': map<string, Site>, b: int, x: int, env: Env, out: Env)
    requires BlockDone(P, st, owner, x, env, out) && x != b
    requires OwnerGrows(owner, owner') && OtherDestinationsKept(st.destinations, st'.destinations, b) && OtherSourcesKept(st.sources, st'.sources, b)
    requires x in st'.code && st'.code[x] == st.code[x]
    ensures BlockDone(P, st', owner', x, env, out)
  {
    forall v | v in P.phis && HasPhi(P, x, v) ensures PhiNamed(st'.destinations, owner', x, v) {
      assert PhiNamed(st.destinations, owner, x, v);
    }
    assert TopEnv(P, st'.destinations, x, env) == TopEnv(P, st.destinations, x, env);
    CodeOwnedKept(P, P.codes[x], st.code[x], owner, owner', x);
    forall s, v | s in P.graph.succ[x] && HasPhi(P, s, v) && v in out ensures SourceIs(st'.sources, s, v, x, out[v]) {
      assert SourceIs(st.sources, s, v, x, out[v]);
    }
    hide CodeRenamed, CodeOwned, TopEnv, IsVersionOf;
  }

  lemma CodeOwnedKept(P: Problem, before: Body, after: Body, owner: map<string, Site>, owner': map<string, Site>, b: int)
    requires CodeOwned(P, before, after, owner, b) && OwnerGrows(owner, owner')
    ensures CodeOwned(P, before, after, owner', b)
  {
    forall n | 0 <= n < |before| && DestinationOf(before[n]).Some? && DestinationOf(before[n]).value in P.phis
      ensures CodeNamed(after[n], owner', b, n)
    {
      assert CodeNamed(after[n], owner, b, n);
    }
  }

  lemma AllDoneMore(P: Problem, t: Parents, st: RenameState, st': RenameState, owner: map<string, Site>, owner': map<string, Site>, outs: map<int, Env>, b: int, out: Env)
    requires AllDone(P, t, st, owner, outs) && b !in outs && b in t && (b != 0 ==> t[b] in outs && t[b] != b)
    requires OwnerGrows(owner, owner') && OtherDestinationsKept(st.destinations, st'.destinations, b) && OtherSourcesKept(st.sources, st'.sources, b)
    requires forall x :: x in st.code && x != b ==> x in st'.code && st'.code[x] == st.code[x]
    requires BlockDone(P, st', owner', b, InEnv(P, t, outs, b), out)
    requires 0 <= b < |P.graph.succ| && SourcesAdded(P, st.sources, st'.sources, b, P.graph.succ[b])
    ensures AllDone(P, t, st', owner', outs[b := out])
  {
    var outs' := outs[b := out];
    SourcesKnownMore(P, st.sources, st'.sources, outs, b, out);
    hide BlockDone, OwnerGrows, SourcesKnown, SourcesAdded;
    forall x | x in outs' ensures x in t && (x != 0 ==> t[x] in outs') && BlockDone(P, st', owner', x, InEnv(P, t, outs', x), outs'[x]) {
      if x != b {
        assert BlockDone(P, st, owner, x, InEnv(P, t, outs, x), outs[x]);
        BlockDoneCode(P, st, owner, x, InEnv(P, t, outs, x), outs[x]);
        BlockDoneKept(P, st, st', owner, owner', b, x, InEnv(P, t, outs, x), outs[x]);
        assert InEnv(P, t, outs', x) == InEnv(P, t, outs, x);
      } else {
        assert InEnv(P, t, outs', b) == InEnv(P, t, outs, b);
      }
    }
  }

  lemma BlockDoneCode(P: Problem, st: RenameState, owner: map<string, Site>, b: int, env: Env, out: Env)
    requires BlockDone(P, st, owner, b, env, out)
    ensures b in st.code
  {
  }

  predicate IsChild(t: Parents, b: int, c: int) { c in t && c != 0 && t[c] == b }

  lemma {:induction false} AboveLinear(t: Parents, po: map<int, int>, a: int, b: int, x: int)
    requires Tree(t, po) && x in t && Above(t, po, a, x) && Above(t, po, b, x)
    ensures a in t && b in t && (Above(t, po, a, b) || Above(t, po, b, a))
    decreases po[0] - po[x]
  {
    AboveIsHigher(t, po, a, x);
    AboveIsHigher(t, po, b, x);
    if a != x && b != x { AboveLinear(t, po, a, b, t[x]); }
  }

  /** The subtrees of different children do not meet. */
  lemma Siblings(t: Parents, po: map<int, int>, b: int, c: int, c': int, x: int)
    requires Tree(t, po) && b in t && IsChild(t, b, c) && IsChild(t, b, c') && x in t && Above(t, po, c, x) && Above(t, po, c', x)
    ensures c == c'
  {
    AboveLinear(t, po, c, c', x);
    if c != c' {
      if Above(t, po, c, c') { AboveIsHigher(t, po, c, b); } else { AboveIsHigher(t, po, c', b); }
    }
  }

  /** Below a block, everything is below one of its children. */
  lemma {:induction false} ThroughChild(t: Parents, po: map<int, int>, b: int, x: int) returns (c: int)
    requires Tree(t, po) && b in t && x in t && Above(t, po, b, x) && x != b
    ensures IsChild(t, b, c) && Above(t, po, c, x)
    decreases po[0] - po[x]
  {
    if t[x] == b { c := x; } else { c := ThroughChild(t, po, b, t[x]); }
  }

  /** The blocks finished once the children below `n` have been walked. */
  ghost predicate Covered(t: Parents, po: map<int, int>, b: int, n: int, x: int)
    requires Tree(t, po) && b in t
  {
    x in t && (x == b || exists c :: 0 <= c < n && IsChild(t, b, c) && Above(t, po, c, x))
  }

  ghost predicate Reaches(t: Parents, po: map<int, int>, outs0: map<int, Env>, outs: map<int, Env>, b: int, n: int)
    requires Tree(t, po) && b in t
  {
    && (forall x :: x in outs0 ==> x in outs && outs[x] == outs0[x])
    && (forall x :: x in outs <==> x in outs0 || Covered(t, po, b, n, x))
  }

  lemma CoveredMore(t: Parents, po: map<int, int>, b: int, n: int, x: int)
    requires Tree(t, po) && b in t && 0 <= n && x in t
    ensures Covered(t, po, b, n + 1, x) <==> Covered(t, po, b, n, x) || (IsChild(t, b, n) && Above(t, po, n, x))
  {
    hide Above;
  }

  /** A child's subtree has not been touched yet. */
  lemma ChildUntouched(t: Parents, po: map<int, int>, b: int, c: int, outs0: map<int, Env>, outs: map<int, Env>)
    requires Tree(t, po) && b in t && IsChild(t, b, c) && Reaches(t, po, outs0, outs, b, c)
    requires forall x :: x in t && Above(t, po, b, x) ==> x !in outs0
    ensures forall x :: x in t && Above(t, po, c, x) ==> x !in outs
  {
    forall x | x in t && Above(t, po, c, x) ensures x !in outs {
      assert Above(t, po, b, c);
      AboveTransitive(t, po, b, c, x);
      AboveIsHigher(t, po, c, x);
      if Covered(t, po, b, c, x) {
        if x != b {
          var c' :| 0 <= c' < c && IsChild(t, b, c') && Above(t, po, c', x);
          Siblings(t, po, b, c, c', x);
        }
      }
    }
  }

  lemma ReachesMore(t: Parents, po: map<int, int>, outs0: map<int, Env>, before: map<int, Env>, outs: map<int, Env>, b: int, n: int)
    requires Tree(t, po) && b in t && 0 <= n && Reaches(t, po, outs0, before, b, n)
    requires forall x :: x in before ==> x in outs && outs[x] == before[x]
    requires IsChild(t, b, n) ==> forall x :: x in outs <==> x in before || (x in t && Above(t, po, n, x))
    requires !IsChild(t, b, n) ==> outs == before
    ensures Reaches(t, po, outs0, outs, b, n + 1)
  {
    forall x ensures x in outs <==> x in outs0 || Covered(t, po, b, n + 1, x) {
      if x in t { CoveredMore(t, po, b, n, x); }
    }
  }

  lemma ReachesEnd(t: Parents, po: map<int, int>, outs0: map<int, Env>, outs: map<int, Env>, b: int, n: int)
    requires Tree(t, po) && b in t && Reaches(t, po, outs0, outs, b, n) && forall c :: c in t ==> 0 <= c < n
    ensures forall x :: x in outs <==> x in outs0 || (x in t && Above(t, po, b, x))
  {
    forall x | x in t ensures Covered(t, po, b, n, x) <==> Above(t, po, b, x) {
      if Above(t, po, b, x) && x != b { var c := ThroughChild(t, po, b, x); }
      if Covered(t, po, b, n, x) && x != b {
        var c :| 0 <= c < n && IsChild(t, b, c) && Above(t, po, c, x);
        assert Above(t, po, b, c);
        AboveTransitive(t, po, b, c, x);
      }
    }
  }

  lemma ReachesStart(t: Parents, po: map<int, int>, outs0: map<int, Env>, b: int, out: Env)
    requires Tree(t, po) && b in t && b !in outs0
    ensures Reaches(t, po, outs0, outs0[b := out], b, 0)
  {
  }

  /** Renames what block `b` itself holds. */
  method RenameOwn(P: Problem, t: Parents, b: int, st0: RenameState, ghost owner0: map<string, Site>, ghost outs0: map<int, Env>)
    returns (st: RenameState, pushed: map<string, int>, ghost owner: map<string, Site>)
    requires ValidProblem(P) && IsBlock(P.graph, b) && Counting(P, st0, owner0) && AllDone(P, t, st0, owner0, outs0)
    requires b in t && b !in outs0 && (b != 0 ==> t[b] in outs0 && t[b] != b)
    requires EnvOf(st0.stack) == InEnv(P, t, outs0, b)
    ensures Counting(P, st, owner) && AllDone(P, t, st, owner, outs0[b := EnvOf(st.stack)])
    ensures Grown(st0.stack, st.stack, pushed)
  {
    hide IsVersionOf, Ledger, Grown, EnvOf, CodeRenamed, CodeOwned, TopEnv, BlockDone, PhisNamed, SourcesFilled, InEnv;
    var phis;
    phis, pushed, owner := RenamePhis(P, st0, b, owner0);
    ghost var owned := owner;
    var own, after;
    own, after, pushed, owner := RenameCode(P, phis, b, P.codes[b], pushed, st0.stack, owner);
    OwnerGrowsTransitive(owner0, owned, owner);
    PhisNamedKept(P, phis.destinations, owned, owner, b);
    EnvKeys(own.stack);
    var sources := FillSources(P, own.sources, b, P.graph.succ[b], EnvOf(own.stack));
    st := own.(code := own.code[b := after], sources := sources);
    BlockDoneIs(P, st, owner, b, InEnv(P, t, outs0, b), EnvOf(st.stack));
    hide OwnerGrows, OtherDestinationsKept, OtherSourcesKept, SourcesAdded, AllDone;
    AllDoneMore(P, t, st0, st, owner0, owner, outs0, b, EnvOf(st.stack));
  }

  lemma PhisNamedKept(P: Problem, destinations: map<PhiKey, string>, owner: map<string, Site>, owner': map<string, Site>, b: int)
    requires PhisNamed(P, destinations, owner, b, P.phis.Keys) && OwnerGrows(owner, owner')
    ensures PhisNamed(P, destinations, owner', b, P.phis.Keys)
  {
    forall v | v in P.phis && HasPhi(P, b, v) ensures PhiNamed(destinations, owner', b, v) {
      assert PhiNamed(destinations, owner, b, v);
    }
  }

  lemma BlockDoneIs(P: Problem, st: RenameState, owner: map<string, Site>, b: int, env: Env, out: Env)
    requires ValidProblem(P) && IsBlock(P.graph, b) && b in st.code
    requires PhisNamed(P, st.destinations, owner, b, P.phis.Keys)
    requires CodeRenamed(P.codes[b], TopEnv(P, st.destinations, b, env), st.code[b], out)
    requires CodeOwned(P, P.codes[b], st.code[b], owner, b)
    requires SourcesFilled(P, st.sources, b, P.graph.succ[b], out) && out.Keys == P.phis.Keys
    ensures BlockDone(P, st, owner, b, env, out)
  {
  }

  /** Everything a call of the walk may rely on. */
  ghost predicate Ready(P: Problem, t: Parents, po: map<int, int>, b: int, st: RenameState, owner: map<string, Site>, outs: map<int, Env>) {
    && ValidProblem(P) && Tree(t, po) && (forall c :: c in t ==> 0 <= c < |P.graph.succ| && po[c] >= 0)
    && Counting(P, st, owner) && AllDone(P, t, st, owner, outs)
    && b in t && (b != 0 ==> t[b] in outs && t[b] != b)
    && (forall x :: x in t && Above(t, po, b, x) ==> x !in outs)
    && EnvOf(st.stack) == InEnv(P, t, outs, b)
  }

  /** What a call of the walk has done: the whole subtree, and nothing else. */
  ghost predicate Walked(P: Problem, t: Parents, po: map<int, int>, b: int, st0: RenameState, st: RenameState,
                         owner: map<string, Site>, outs0: map<int, Env>, outs: map<int, Env>)
    requires Tree(t, po)
  {
    && Counting(P, st, owner) && AllDone(P, t, st, owner, outs) && st.stack == st0.stack
    && (forall x :: x in outs0 ==> x in outs && outs[x] == outs0[x])
    && (forall x :: x in outs <==> x in outs0 || (x in t && Above(t, po, b, x)))
  }

  lemma ReadyFacts(P: Problem, t: Parents, po: map<int, int>, b: int, st: RenameState, owner: map<string, Site>, outs: map<int, Env>)
    requires Ready(P, t, po, b, st, owner, outs)
    ensures ValidProblem(P) && Tree(t, po) && b in t && IsBlock(P.graph, b) && b !in outs && b in po && po[b] >= 0
    ensures forall c :: c in t ==> c in po && 0 <= c < |P.graph.succ| && po[c] >= 0
    ensures Counting(P, st, owner) && AllDone(P, t, st, owner, outs) && EnvOf(st.stack) == InEnv(P, t, outs, b)
    ensures b != 0 ==> t[b] in outs && t[b] != b
    ensures forall x :: x in t && Above(t, po, b, x) ==> x !in outs
  {
    assert Above(t, po, b, b);
  }

  lemma ChildReady(P: Problem, t: Parents, po: map<int, int>, b: int, c: int, st: RenameState, owner: map<string, Site>, outs0: map<int, Env>, outs: map<int, Env>)
    requires ValidProblem(P) && Tree(t, po) && (forall c :: c in t ==> c in po && 0 <= c < |P.graph.succ| && po[c] >= 0)
    requires Counting(P, st, owner) && AllDone(P, t, st, owner, outs)
    requires b in t && IsChild(t, b, c) && Reaches(t, po, outs0, outs, b, c)
    requires forall x :: x in t && Above(t, po, b, x) ==> x !in outs0
    requires b in outs && EnvOf(st.stack) == outs[b]
    ensures Ready(P, t, po, c, st, owner, outs) && c in po && po[c] < po[b]
  {
    ChildUntouched(t, po, b, c, outs0, outs);
    hide AllDone, Counting, Reaches, EnvOf;
  }

  /** Walks the dominator tree below `b`, leaving the stacks as it found them. */
  method RenameBlock(P: Problem, t: Parents, b: int, st0: RenameState, ghost po: map<int, int>, ghost owner0: map<string, Site>, ghost outs0: map<int, Env>)
    returns (st: RenameState, ghost owner: map<string, Site>, ghost outs: map<int, Env>)
    requires Ready(P, t, po, b, st0, owner0, outs0)
    ensures Tree(t, po) && Walked(P, t, po, b, st0, st, owner, outs0, outs)
    decreases if b in po then po[b] else 0
  {
    hide *;
    ReadyFacts(P, t, po, b, st0, owner0, outs0);
    var pushed;
    st, pushed, owner := RenameOwn(P, t, b, st0, owner0, outs0);
    var stack := st.stack;
    outs := outs0[b := EnvOf(stack)];
    ReachesStart(t, po, outs0, b, EnvOf(stack));
    for c := 0 to |P.graph.succ|
      invariant Counting(P, st, owner) && AllDone(P, t, st, owner, outs) && st.stack == stack
      invariant Reaches(t, po, outs0, outs, b, c) && b in outs && outs[b] == EnvOf(stack)
    {
      ghost var before := outs;
      if IsChild(t, b, c) {
        ChildReady(P, t, po, b, c, st, owner, outs0, outs);
        ghost var entry := st;
        st, owner, outs := RenameBlock(P, t, c, st, po, owner, outs);
        WalkedFacts(P, t, po, c, entry, st, owner, before, outs);
      }
      ReachesMore(t, po, outs0, before, outs, b, c);
    }
    ReachesEnd(t, po, outs0, outs, b, |P.graph.succ|);
    StackKeys(P, st0, owner0);
    var restored := Pop(st.stack, pushed, st0.stack);
    WalkedIs(P, t, po, b, st0, st, owner, outs0, outs);
    st := st.(stack := restored);
  }

  lemma StackKeys(P: Problem, st: RenameState, owner: map<string, Site>)
    requires Counting(P, st, owner)
    ensures st.stack.Keys == P.phis.Keys
  {
  }

  lemma WalkedFacts(P: Problem, t: Parents, po: map<int, int>, b: int, st0: RenameState, st: RenameState, owner: map<string, Site>, outs0: map<int, Env>, outs: map<int, Env>)
    requires Tree(t, po) && Walked(P, t, po, b, st0, st, owner, outs0, outs)
    ensures Counting(P, st, owner) && AllDone(P, t, st, owner, outs) && st.stack == st0.stack
    ensures forall x :: x in outs0 ==> x in outs && outs[x] == outs0[x]
    ensures forall x :: x in outs <==> x in outs0 || (x in t && Above(t, po, b, x))
  {
  }

  lemma BlockDoneStack(P: Problem, st: RenameState, st': RenameState, owner: map<string, Site>, b: int, env: Env, out: Env)
    requires BlockDone(P, st, owner, b, env, out) && st'.code == st.code && st'.destinations == st.destinations && st'.sources == st.sources
    ensures BlockDone(P, st', owner, b, env, out)
  {
    hide CodeRenamed, CodeOwned, PhisNamed, SourcesFilled;
  }

  /** What is done does not depend on the stacks. */
  lemma AllDoneStack(P: Problem, t: Parents, st: RenameState, st': RenameState, owner: map<string, Site>, outs: map<int, Env>)
    requires AllDone(P, t, st, owner, outs) && st'.code == st.code && st'.destinations == st.destinations && st'.sources == st.sources
    ensures AllDone(P, t, st', owner, outs)
  {
    hide BlockDone, SourcesKnown;
    forall x | x in outs ensures BlockDone(P, st', owner, x, InEnv(P, t, outs, x), outs[x]) {
      BlockDoneStack(P, st, st', owner, x, InEnv(P, t, outs, x), outs[x]);
    }
  }

  lemma CountingStack(P: Problem, st: RenameState, st': RenameState, owner: map<string, Site>)
    requires Counting(P, st, owner) && st'.stack.Keys == P.phis.Keys && st' == st.(stack := st'.stack)
    ensures Counting(P, st', owner)
  {
    hide Ledger;
  }

  lemma WalkedIs(P: Problem, t: Parents, po: map<int, int>, b: int, st0: RenameState, st: RenameState, owner: map<string, Site>, outs0: map<int, Env>, outs: map<int, Env>)
    requires Tree(t, po) && b in t && Counting(P, st, owner) && AllDone(P, t, st, owner, outs) && st0.stack.Keys == P.phis.Keys
    requires Reaches(t, po, outs0, outs, b, |P.graph.succ|)
    requires forall x :: x in outs <==> x in outs0 || (x in t && Above(t, po, b, x))
    ensures Walked(P, t, po, b, st0, st.(stack := st0.stack), owner, outs0, outs)
  {
    var st' := st.(stack := st0.stack);
    AllDoneStack(P, t, st, st', owner, outs);
    CountingStack(P, st, st', owner);
    hide AllDone, Counting, Above;
  }

  /** Every reachable block is renamed from what its immediate dominator leaves
      current, each phi knows what each predecessor leaves current, and each
      version is defined in one place. */
  ghost predicate Renamed(P: Problem, t: Parents, st: RenameState, owner: map<string, Site>, outs: map<int, Env>) {
    outs.Keys == t.Keys && AllDone(P, t, st, owner, outs) && st.counter.Keys == P.phis.Keys && Ledger(st.counter, owner)
  }

  lemma NothingIssued(counter: map<string, int>)
    requires forall v :: v in counter ==> counter[v] == 0
    ensures forall n :: !Issued(counter, n)
  {
  }

  lemma RenameStarts(P: Problem, t: Parents, po: map<int, int>, st: RenameState)
    requires ValidProblem(P) && Tree(t, po) && forall c :: c in t ==> 0 <= c < |P.graph.succ| && po[c] >= 0
    requires st == RenameState(map v | v in P.phis :: 0, map v | v in P.phis :: [], map[], map[], map[])
    ensures Ready(P, t, po, 0, st, map[], map[])
  {
    NothingIssued(st.counter);
    hide Above, Issued, ValidGraph;
    assert EnvOf(st.stack) == Identity(P);
  }

  lemma CompleteRange(g: Graph, t: Parents, po: map<int, int>)
    requires Complete(g, t, po)
    ensures Tree(t, po) && forall c :: c in t ==> 0 <= c < |g.succ| && po[c] >= 0
  {
  }

  lemma RenameEnds(P: Problem, t: Parents, po: map<int, int>, st0: RenameState, st: RenameState, owner: map<string, Site>, outs: map<int, Env>)
    requires Tree(t, po) && Walked(P, t, po, 0, st0, st, owner, map[], outs)
    ensures Renamed(P, t, st, owner, outs)
  {
    forall b | b in t ensures b in outs { EntryAbove(t, po, b); }
    assert forall b :: b in outs <==> b in t;
    hide AllDone, Above, Ledger;
    assert outs.Keys == t.Keys;
  }

  method RenameVariables(P: Problem, t: Parents, ghost po: map<int, int>)
    returns (st: RenameState, ghost owner: map<string, Site>, ghost outs: map<int, Env>)
    requires ValidProblem(P) && Complete(P.graph, t, po)
    ensures Renamed(P, t, st, owner, outs)
  {
    hide *;
    var start := RenameState(map v | v in P.phis :: 0, map v | v in P.phis :: [], map[], map[], map[]);
    CompleteRange(P.graph, t, po);
    RenameStarts(P, t, po, start);
    st, owner, outs := RenameBlock(P, t, 0, start, po, map[], map[]);
    RenameEnds(P, t, po, start, st, owner, outs);
  }
}
