/** Versions lose their suffixes again (cc/ssa.py:133-169): which blocks are the
    original ones afterwards, and that they run like them. */
module SsaSuffixes {
  import opened Common
  import opened IR
  import opened Cfg
  import opened BlockRuns
  import opened Dominance
  import opened Dominators
  import opened SsaNames
  import opened Renaming
  import opened SsaForm
  import opened SsaMeaning
  import opened SsaDestruction

  // ----- Dropping the suffixes -----

  function DeversionValue(v: Value): Value {
    if v.Name? then Name(Deversion(v.id)) else v
  }

  function DeversionValues(vs: seq<Value>): seq<Value> {
    seq(|vs|, i requires 0 <= i < |vs| => DeversionValue(vs[i]))
  }

  function DeversionInstruction(i: Instruction): Instruction {
    match i
    case Copy(d, s) => Copy(Deversion(d), DeversionValue(s))
    case BinaryOperation(d, l, op, r) => BinaryOperation(Deversion(d), DeversionValue(l), op, DeversionValue(r))
    case BranchFalse(l, op, r, t) => BranchFalse(DeversionValue(l), op, DeversionValue(r), t)
    case Call(f, args, d) => Call(f, DeversionValues(args), if d.Some? then Some(Deversion(d.value)) else None)
    case TailCall(f, args) => TailCall(f, DeversionValues(args))
    case Return(v) => Return(if v.Some? then Some(DeversionValue(v.value)) else None)
    case _ => i
  }

  function DeversionCode(code: Body): (r: Body)
    ensures |r| == |code|
  {
    seq(|code|, i requires 0 <= i < |code| => DeversionInstruction(code[i]))
  }

  function DeversionAll(codes: seq<Body>): (r: seq<Body>)
    ensures |r| == |codes|
  {
    seq(|codes|, b requires 0 <= b < |codes| => DeversionCode(codes[b]))
  }

  // ----- Names that are left as they are -----

  /** What an instruction reads, in order. */
  function Operands(i: Instruction): seq<Value> {
    match i
    case Copy(_, s) => [s]
    case BinaryOperation(_, l, _, r) => [l, r]
    case BranchFalse(l, _, r, _) => [l, r]
    case Call(_, args, _) => args
    case TailCall(_, args) => args
    case Return(v) => if v.Some? then [v.value] else []
    case _ => []
  }

  /** Renaming `i` to `j` has left the name as it is somewhere. */
  ghost predicate StaysBare(i: Instruction, j: Instruction, n: string) {
    || (exists k :: 0 <= k < |Operands(i)| && k < |Operands(j)| && Operands(i)[k] == Name(n) && Operands(j)[k] == Name(n))
    || (DestinationOf(i) == Some(n) && DestinationOf(j) == Some(n))
  }

  ghost predicate InstructionStable(i: Instruction, j: Instruction) {
    forall n :: StaysBare(i, j, n) ==> Deversion(n) == n
  }

  /** Every name left as it is in block `b`, or in a phi's operand for an edge from
      it, keeps itself when suffixes are dropped. */
  ghost predicate BlockStable(P: Problem, st: RenameState, b: int) {
    && 0 <= b < |P.codes| && b in st.code && |st.code[b]| == |P.codes[b]|
    && (forall k :: 0 <= k < |P.codes[b]| ==> InstructionStable(P.codes[b][k], st.code[b][k]))
    && (forall e: EdgeKey :: e in st.sources && e.pred == b ==> OperandStable(st, e))
  }

  predicate OperandStable(st: RenameState, e: EdgeKey)
    requires e in st.sources
  {
    st.sources[e] == e.name ==> Deversion(e.name) == e.name
  }

  /** `n` is left as it is in some reachable block, or as an operand of its own phi. */
  ghost predicate LeftBare(P: Problem, t: Parents, st: RenameState, n: string) {
    || (exists b, k :: BareAt(P, t, st, n, b, k))
    || (exists e: EdgeKey :: e in st.sources && e.name == n && st.sources[e] == n)
  }

  ghost predicate BareAt(P: Problem, t: Parents, st: RenameState, n: string, b: int, k: int) {
    b in t && b in st.code && 0 <= b < |P.codes| && 0 <= k < |P.codes[b]| && k < |st.code[b]| && StaysBare(P.codes[b][k], st.code[b][k], n)
  }

  ghost predicate NamesStable(P: Problem, t: Parents, st: RenameState) {
    forall n :: LeftBare(P, t, st, n) ==> Deversion(n) == n
  }

  // ----- One name -----

  /** A name comes back if and only if it has been renamed or does not look like a
      version. */
  lemma NameComesBackIff(P: Problem, env: Env, n: string)
    requires OwnVersions(P, env)
    ensures DeversionValue(RenameValue(Name(n), env)) == Name(n) <==> (RenameValue(Name(n), env) != Name(n) || Deversion(n) == n)
  {
    hide Deversion;
  }

  // ----- One instruction -----

  predicate SameFrame(i: Instruction, j: Instruction) {
    match i
    case Copy(_, _) => j.Copy?
    case BinaryOperation(_, _, op, _) => j.BinaryOperation? && j.operation == op
    case BranchFalse(_, op, _, t) => j.BranchFalse? && j.operation == op && j.target == t
    case Call(f, _, d) => j.Call? && j.callee == f && DestinationOf(j).Some? == d.Some?
    case TailCall(f, _) => j.TailCall? && j.callee == f
    case Return(v) => j.Return? && j.value.Some? == v.Some?
    case _ => j == i
  }

  lemma ByParts(i: Instruction, j: Instruction)
    requires SameFrame(i, j) && Operands(i) == Operands(j) && DestinationOf(i) == DestinationOf(j)
    ensures i == j
  {
    if i.BinaryOperation? || i.BranchFalse? {
      assert Operands(i)[0] == Operands(j)[0] && Operands(i)[1] == Operands(j)[1];
    } else if i.Copy? || (i.Return? && i.value.Some?) {
      assert Operands(i)[0] == Operands(j)[0];
    }
  }

  lemma RenamedParts(i: Instruction, env: Env)
    ensures SameFrame(i, RenameUses(i, env)) && Operands(RenameUses(i, env)) == RenameValues(Operands(i), env)
    ensures DestinationOf(RenameUses(i, env)) == DestinationOf(i)
  {
  }

  lemma DestinationParts(i: Instruction, d: string)
    requires DestinationOf(i).Some?
    ensures SameFrame(i, WithDestination(i, d)) && Operands(WithDestination(i, d)) == Operands(i) && DestinationOf(WithDestination(i, d)) == Some(d)
  {
  }

  lemma DeversionParts(i: Instruction)
    ensures SameFrame(i, DeversionInstruction(i)) && Operands(DeversionInstruction(i)) == DeversionValues(Operands(i))
    ensures DestinationOf(DeversionInstruction(i)) == (if DestinationOf(i).Some? then Some(Deversion(DestinationOf(i).value)) else None)
    ensures IsTerminator(DeversionInstruction(i)) == IsTerminator(i)
  {
    hide Deversion;
  }

  lemma FrameThrough(i: Instruction, j: Instruction, k: Instruction)
    requires SameFrame(i, j) && SameFrame(j, k)
    ensures SameFrame(i, k)
  {
  }

  /** `j` is `i` with operands and destination renamed, as in `CodeRenamed`. */
  ghost predicate StepRenamed(i: Instruction, env: Env, j: Instruction) {
    if DefinesRenamed(i, env) then
      && DestinationOf(j).Some? && IsVersionOf(DestinationOf(j).value, DestinationOf(i).value)
      && j == WithDestination(RenameUses(i, env), DestinationOf(j).value)
    else j == RenameUses(i, env)
  }

  lemma StepParts(i: Instruction, env: Env, j: Instruction)
    requires StepRenamed(i, env, j)
    ensures SameFrame(i, j) && Operands(j) == RenameValues(Operands(i), env)
    ensures DestinationOf(i).Some? == DestinationOf(j).Some?
    ensures DestinationOf(i).Some? ==>
      if DestinationOf(i).value in env then IsVersionOf(DestinationOf(j).value, DestinationOf(i).value) else DestinationOf(j) == DestinationOf(i)
  {
    RenamedParts(i, env);
    hide RenameUses, Operands, RenameValues, IsVersionOf;
    if DefinesRenamed(i, env) {
      DestinationParts(RenameUses(i, env), DestinationOf(j).value);
      hide WithDestination, DestinationOf;
      FrameThrough(i, RenameUses(i, env), j);
    }
  }

  lemma InstructionBackIff(P: Problem, env: Env, i: Instruction, j: Instruction)
    requires OwnVersions(P, env) && StepRenamed(i, env, j)
    ensures DeversionInstruction(j) == i <==> InstructionStable(i, j)
  {
    StepParts(i, env, j);
    DeversionParts(j);
    var r := DeversionInstruction(j);
    hide StepRenamed, DeversionInstruction, Operands, DestinationOf, Deversion, RenameValue, SameFrame;
    FrameThrough(i, j, r);
    if InstructionStable(i, j) {
      OperandsBack(P, env, i, j);
      if DestinationOf(i).Some? { DestinationBack(env, i, j); }
      FrameTurns(i, r);
      ByParts(r, i);
    }
    if r == i {
      forall n | StaysBare(i, j, n) ensures Deversion(n) == n {
        if DestinationOf(i) == Some(n) && DestinationOf(j) == Some(n) {
        } else {
          var k :| 0 <= k < |Operands(i)| && k < |Operands(j)| && Operands(i)[k] == Name(n) && Operands(j)[k] == Name(n);
          assert Operands(r)[k] == DeversionValue(Operands(j)[k]);
        }
      }
    }
  }

  lemma FrameTurns(i: Instruction, j: Instruction)
    requires SameFrame(i, j)
    ensures SameFrame(j, i)
  {
  }

  lemma OperandsBack(P: Problem, env: Env, i: Instruction, j: Instruction)
    requires OwnVersions(P, env) && InstructionStable(i, j) && Operands(j) == RenameValues(Operands(i), env)
    ensures DeversionValues(Operands(j)) == Operands(i)
  {
    hide Deversion, Operands, OwnVersions, RenameValue;
    forall k | 0 <= k < |Operands(i)| ensures DeversionValue(Operands(j)[k]) == Operands(i)[k] {
      var x := Operands(i)[k];
      assert Operands(j)[k] == RenameValue(x, env);
      if x.Name? {
        NameComesBackIff(P, env, x.id);
        if Operands(j)[k] == x { assert StaysBare(i, j, x.id); }
      } else {
        LiteralStays(x, env);
      }
    }
  }

  lemma LiteralStays(x: Value, env: Env)
    ensures !x.Name? ==> DeversionValue(RenameValue(x, env)) == x
  {
  }

  lemma DestinationBack(env: Env, i: Instruction, j: Instruction)
    requires InstructionStable(i, j) && DestinationOf(i).Some? && DestinationOf(j).Some?
    requires if DestinationOf(i).value in env then IsVersionOf(DestinationOf(j).value, DestinationOf(i).value) else DestinationOf(j) == DestinationOf(i)
    ensures Deversion(DestinationOf(j).value) == DestinationOf(i).value
  {
    hide Deversion, Operands, DestinationOf;
    if DestinationOf(j) == DestinationOf(i) { assert StaysBare(i, j, DestinationOf(i).value); }
  }

  // ----- One block -----

  lemma OwnAfter(P: Problem, i: Instruction, j: Instruction, env: Env)
    requires OwnVersions(P, env)
    ensures DefinesRenamed(i, env) && DestinationOf(j).Some? && IsVersionOf(DestinationOf(j).value, DestinationOf(i).value)
      ==> OwnVersions(P, env[DestinationOf(i).value := DestinationOf(j).value])
  {
    hide IsVersionOf;
  }

  /** Dropping the suffixes undoes renaming if and only if the names left as they are
      do not look like versions. */
  lemma {:induction false} CodeBackIff(P: Problem, before: Body, env: Env, after: Body, out: Env)
    requires CodeRenamed(before, env, after, out) && OwnVersions(P, env)
    ensures |after| == |before|
    ensures DeversionCode(after) == before <==> forall k :: 0 <= k < |before| ==> InstructionStable(before[k], after[k])
    decreases |before|
  {
    hide Deversion, RenameUses, WithDestination, DeversionInstruction, InstructionStable, OwnVersions, IsVersionOf;
    if before != [] {
      var i, j := before[0], after[0];
      var env' := if DefinesRenamed(i, env) then env[DestinationOf(i).value := DestinationOf(j).value] else env;
      assert StepRenamed(i, env, j);
      InstructionBackIff(P, env, i, j);
      OwnAfter(P, i, j, env);
      CodeBackIff(P, before[1..], env', after[1..], out);
      hide StepRenamed, CodeRenamed, DefinesRenamed;
      assert DeversionCode(after) == [DeversionInstruction(j)] + DeversionCode(after[1..]);
      assert before == [i] + before[1..] && after == [j] + after[1..];
      forall k | 0 <= k < |before| && (forall q :: 0 <= q < |before[1..]| ==> InstructionStable(before[1..][q], after[1..][q])) && InstructionStable(i, j)
        ensures InstructionStable(before[k], after[k])
      {
        if k > 0 { assert before[k] == before[1..][k - 1] && after[k] == after[1..][k - 1]; }
      }
      forall q | 0 <= q < |before[1..]| && (forall k :: 0 <= k < |before| ==> InstructionStable(before[k], after[k]))
        ensures InstructionStable(before[1..][q], after[1..][q])
      {
        assert before[1..][q] == before[q + 1] && after[1..][q] == after[q + 1];
      }
    }
  }

  predicate SelfCopy(i: Instruction) {
    i.Copy? && i.source == Name(i.destination)
  }

  /** `code` is the original, with copies of variables to themselves in front of its
      terminator. */
  ghost predicate Restored(code: Body, original: Body) {
    exists selves :: code == WithCopies(original, selves) && AllSelf(selves)
  }

  ghost predicate AllSelf(selves: Body) {
    forall k :: 0 <= k < |selves| ==> SelfCopy(selves[k])
  }

  lemma SelfCopyIff(P: Problem, st: RenameState, k: EdgeKey)
    requires OperandReady(P, st, k)
    ensures SelfCopy(DeversionInstruction(CopyFor(st, k))) <==> OperandStable(st, k)
  {
    hide Deversion;
  }

  lemma DeversionFront(code: Body)
    ensures FrontOf(DeversionCode(code)) == FrontOf(code)
  {
    if code != [] { DeversionParts(code[|code| - 1]); }
    hide DeversionInstruction, IsTerminator;
  }

  lemma DeversionWithCopies(code: Body, copies: Body)
    ensures DeversionCode(WithCopies(code, copies)) == WithCopies(DeversionCode(code), DeversionCode(copies))
  {
    DeversionFront(code);
    hide DeversionInstruction, FrontOf;
  }

  /** Code with copies at a known place gives both back. */
  lemma CopiesApart(a: Body, c: Body, b: Body, d: Body)
    requires WithCopies(a, c) == WithCopies(b, d) && |a| == |b| && FrontOf(a) == FrontOf(b)
    ensures a == b && c == d
  {
    hide FrontOf;
    var k := FrontOf(a);
    var x, y := WithCopies(a, c), WithCopies(b, d);
    assert |c| == |d|;
    assert x[..k] == a[..k] && y[..k] == b[..k];
    assert x[k..][..|c|] == c && y[k..][..|c|] == d;
    assert x[k + |c|..] == a[k..] && y[k + |c|..] == b[k..];
    assert a == a[..k] + a[k..] && b == b[..k] + b[k..];
  }

  lemma SameFront(before: Body, env: Env, after: Body, out: Env)
    requires CodeRenamed(before, env, after, out)
    ensures FrontOf(after) == FrontOf(before)
  {
    SameShape(before, env, after, out);
    hide CodeRenamed;
    if before != [] { assert SameKind(before[|before| - 1], after[|after| - 1]); }
  }

  lemma StartEnvOwn(P: Problem, t: Parents, po: map<int, int>, st: RenameState, owner: map<string, Site>, outs: map<int, Env>, b: int)
    requires Renamed(P, t, st, owner, outs) && Tree(t, po) && b in t
    ensures OwnVersions(P, StartEnv(P, t, st, outs, b))
  {
    hide Renamed, CodeRenamed, IsVersionOf, AllPhisReady, StartEnv, OwnVersions;
    BlockFacts(P, t, st, owner, outs, b);
    if b != 0 { OutsOwn(P, t, po, st, owner, outs, t[b]); }
    StartsOwn(P, t, st, outs, b);
  }

  lemma SourceRecorded(P: Problem, t: Parents, st: RenameState, owner: map<string, Site>, outs: map<int, Env>, k: EdgeKey)
    requires Renamed(P, t, st, owner, outs) && k in st.sources
    ensures k.pred in t && k.pred in outs && OnEdge(P, k) && k.name in outs[k.pred] && st.sources[k] == outs[k.pred][k.name]
  {
    hide CodeRenamed, CodeOwned, PhisNamed;
    KnownSource(P, t, st, owner, outs, k);
    assert k.pred in outs;
    OutKeys(P, t, st, owner, outs, k.pred);
    assert SourceIs(st.sources, k.block, k.name, k.pred, outs[k.pred][k.name]);
    assert k == EdgeKey(k.block, k.name, k.pred);
  }

  lemma OperandOwn(P: Problem, t: Parents, po: map<int, int>, st: RenameState, owner: map<string, Site>, outs: map<int, Env>, k: EdgeKey)
    requires ValidProblem(P) && Complete(P.graph, t, po) && Tree(t, po) && Renamed(P, t, st, owner, outs) && k in st.sources
    ensures OperandReady(P, st, k)
  {
    hide Renamed, AllPhisReady, IsVersionOf, CodeRenamed, Complete, Tree, ValidProblem;
    SourceRecorded(P, t, st, owner, outs, k);
    EdgeReaches(P, t, po, k.pred, k.block);
    BlockFacts(P, t, st, owner, outs, k.block);
    OutsOwn(P, t, po, st, owner, outs, k.pred);
    ReadyAt(P, st, k.block, k.name);
  }

  /** Out of SSA form and without suffixes, a block is the original again, but for
      copies of variables to themselves, if and only if the names left as they are
      do not look like versions. */
  lemma BlockRestoredIff(P: Problem, t: Parents, po: map<int, int>, st: RenameState, owner: map<string, Site>, outs: map<int, Env>,
                         code: Body, ks: seq<EdgeKey>, b: int)
    requires ValidProblem(P) && Complete(P.graph, t, po) && Tree(t, po) && Renamed(P, t, st, owner, outs)
    requires BlockDestructed(P, st, st.sources.Keys, code, ks, b) && b in t
    ensures Restored(DeversionCode(code), P.codes[b]) <==> BlockStable(P, st, b)
  {
    hide Complete, Tree, ValidProblem, Renamed, CodeRenamed, StartEnv, IsVersionOf, Deversion, AllPhisReady, OwnVersions, InstructionStable,
      DeversionCode, DeversionInstruction, WithCopies, FrontOf, CopyFor, SelfCopy, OperandReady, OperandStable;
    BlockFacts(P, t, st, owner, outs, b);
    var start := StartEnv(P, t, st, outs, b);
    StartEnvOwn(P, t, po, st, owner, outs, b);
    CodeBackIff(P, P.codes[b], start, st.code[b], outs[b]);
    SameFront(P.codes[b], start, st.code[b], outs[b]);
    var copies := CopiesFor(st, ks);
    DeversionWithCopies(st.code[b], copies);
    DeversionFront(st.code[b]);
    var plain, selves := DeversionCode(st.code[b]), DeversionCode(copies);
    forall k | 0 <= k < |ks| ensures SelfCopy(selves[k]) <==> OperandStable(st, ks[k]) {
      assert ks[k] in ks;
      OperandOwn(P, t, po, st, owner, outs, ks[k]);
      SelfCopyIff(P, st, ks[k]);
      CopyAt(st, ks, k);
    }
    if Restored(DeversionCode(code), P.codes[b]) {
      var others :| DeversionCode(code) == WithCopies(P.codes[b], others) && AllSelf(others);
      CopiesApart(plain, selves, P.codes[b], others);
      forall e: EdgeKey | e in st.sources && e.pred == b ensures OperandStable(st, e) {
        assert e in ks;
        var k :| 0 <= k < |ks| && ks[k] == e;
      }
    }
    if BlockStable(P, st, b) {
      forall k | 0 <= k < |selves| ensures SelfCopy(selves[k]) { assert ks[k] in ks; }
    }
  }

  lemma CopyAt(st: RenameState, ks: seq<EdgeKey>, k: int)
    requires 0 <= k < |ks|
    ensures DeversionCode(CopiesFor(st, ks))[k] == DeversionInstruction(CopyFor(st, ks[k]))
  {
    hide DeversionInstruction, CopyFor;
  }

  // ----- All reachable blocks -----

  /** Every reachable block comes back if and only if no name left as it is looks
      like a version. */
  lemma AllRestoredIff(P: Problem, t: Parents, po: map<int, int>, st: RenameState, owner: map<string, Site>, outs: map<int, Env>,
                       codes: seq<Body>, copies: seq<seq<EdgeKey>>)
    requires ValidProblem(P) && Complete(P.graph, t, po) && Tree(t, po) && Renamed(P, t, st, owner, outs)
    requires Destructed(P, st, st.sources.Keys, codes, copies)
    ensures |codes| == |P.codes| && (forall b :: b in t ==> 0 <= b < |codes|)
    ensures NamesStable(P, t, st) <==> forall b :: b in t ==> Restored(DeversionCode(codes[b]), P.codes[b])
  {
    hide Complete, Tree, ValidProblem, Renamed, CodeRenamed, BlockDestructed, Restored, BlockStable, NamesStable, StartEnv, AllPhisReady, DeversionCode;
    forall b | b in t ensures 0 <= b < |codes| && (Restored(DeversionCode(codes[b]), P.codes[b]) <==> BlockStable(P, st, b)) {
      BlockFacts(P, t, st, owner, outs, b);
      BlockRestoredIff(P, t, po, st, owner, outs, codes[b], copies[b], b);
    }
    NamesStableIff(P, t, st, owner, outs);
  }

  lemma NamesStableIff(P: Problem, t: Parents, st: RenameState, owner: map<string, Site>, outs: map<int, Env>)
    requires Renamed(P, t, st, owner, outs)
    ensures NamesStable(P, t, st) <==> forall b :: b in t ==> BlockStable(P, st, b)
  {
    hide Renamed, Deversion, StaysBare, CodeRenamed, StartEnv, AllPhisReady;
    if NamesStable(P, t, st) {
      forall b | b in t ensures BlockStable(P, st, b) {
        BlockFacts(P, t, st, owner, outs, b);
        SameShape(P.codes[b], StartEnv(P, t, st, outs, b), st.code[b], outs[b]);
        forall k, n | 0 <= k < |P.codes[b]| && StaysBare(P.codes[b][k], st.code[b][k], n) ensures Deversion(n) == n {
          assert BareAt(P, t, st, n, b, k);
        }
        forall e: EdgeKey | e in st.sources && e.pred == b ensures OperandStable(st, e) {
          if st.sources[e] == e.name { assert LeftBare(P, t, st, e.name); }
        }
      }
    }
    if forall b :: b in t ==> BlockStable(P, st, b) {
      forall n | LeftBare(P, t, st, n) ensures Deversion(n) == n {
        if b, k :| BareAt(P, t, st, n, b, k) {
          assert BlockStable(P, st, b);
        } else {
          var e: EdgeKey :| e in st.sources && e.name == n && st.sources[e] == n;
          SourceRecorded(P, t, st, owner, outs, e);
          assert BlockStable(P, st, e.pred);
        }
      }
    }
  }

  // ----- Copies of a variable to itself change no run -----

  ghost predicate ReadAlike(m: Machine, s: Store, u: Store) {
    forall x :: Read(m, s, x) == Read(m, u, x)
  }

  /** A conversion that renames nothing. */
  function Nothing(): Problem { Problem([], Graph([], []), map[]) }

  lemma NoneRenamed(i: Instruction)
    ensures RenameUses(i, map[]) == i
  {
    if i.Call? || i.TailCall? { assert RenameValues(i.args, map[]) == i.args; }
  }

  lemma {:induction false} CodeOfNothing(code: Body)
    ensures CodeRenamed(code, map[], code, map[])
    decreases |code|
  {
    if code != [] {
      NoneRenamed(code[0]);
      CodeOfNothing(code[1..]);
    }
    hide RenameUses, IsVersionOf;
  }

  lemma CleanOfNothing(code: Body)
    requires Straight(code)
    ensures CleanCode(Nothing(), code)
  {
  }

  lemma SyncedOfNothing(m: Machine, s: Store, u: Store)
    requires m.homes == map[]
    ensures Synced(Nothing(), m, map[], s, u) <==> ReadAlike(m, s, u)
  {
    assert forall n :: Plain(Nothing(), n);
  }

  lemma SameCodeAlike(m: Machine, code: Body, s: Store, u: Store, trace: seq<Event>)
    requires m.homes == map[] && Straight(code) && ReadAlike(m, s, u)
    ensures var x, y := RunCode(m, code, s, trace), RunCode(m, code, u, trace);
      if x.End? then y == x else y.Leave? && y.branch == x.branch && y.trace == x.trace && ReadAlike(m, x.store, y.store)
  {
    hide RunCode, CleanCode, CodeRenamed, ReadAlike, Synced, Straight;
    CodeOfNothing(code);
    CleanOfNothing(code);
    SyncedOfNothing(m, s, u);
    CodeSynced(Nothing(), m, code, map[], code, map[], s, u, trace);
    var x, y := RunCode(m, code, s, trace), RunCode(m, code, u, trace);
    if x.Leave? { SyncedOfNothing(m, x.store, y.store); }
  }

  lemma {:induction false} SelvesRead(m: Machine, selves: Body, s: Store)
    requires m.homes == map[] && AllSelf(selves)
    ensures ReadAlike(m, s, RunCopies(m, selves, s))
    decreases |selves|
  {
    if selves != [] {
      var n := |selves| - 1;
      SelvesRead(m, selves[..n], s);
      assert SelfCopy(selves[n]);
    }
  }

  lemma SelvesArePlain(m: Machine, selves: Body, names: set<string>)
    requires m.homes == map[] && AllSelf(selves)
    ensures AllPlain(selves) && Indifferent(m, selves, names)
  {
    hide RunCopies, Read;
    forall w: Store, x | x in names ensures Read(m, RunCopies(m, selves, w), x) == Read(m, w, x) { SelvesRead(m, selves, w); }
  }

  /** A block and its restored form, from stores that read alike. */
  lemma RestoredLeaves(m: Machine, original: Body, code: Body, s: Store, u: Store, trace: seq<Event>)
    requires m.homes == map[] && Straight(original) && Restored(code, original) && ReadAlike(m, s, u)
    ensures var x, y := RunCode(m, original, s, trace), RunCode(m, code, u, trace);
      if x.End? then y == x else y.Leave? && y.branch == x.branch && y.trace == x.trace && ReadAlike(m, x.store, y.store)
    ensures EndsInBranch(code) == EndsInBranch(original)
  {
    hide RunCode, WithCopies, Straight, AllSelf, Read, RunCopies, Indifferent, EndsInBranch, EndsInTerminator, Uses;
    var selves :| code == WithCopies(original, selves) && AllSelf(selves);
    SameCodeAlike(m, original, s, u, trace);
    if EndsInTerminator(original) {
      NotEmpty(original);
      SelvesArePlain(m, selves, Uses(original[|original| - 1]));
    }
    SelvesArePlain(m, selves, {});
    CopiesRunLast(m, original, selves, u, trace);
    CopiesKeepEnding(original, selves);
    var y := RunCode(m, original, u, trace);
    if y.Leave? { SelvesRead(m, selves, y.store); }
  }

  ghost predicate StraightBlocks(codes: seq<Body>) {
    forall b :: 0 <= b < |codes| ==> Straight(codes[b])
  }

  /** Blocks that come back run as the original ones, in every graph. */
  lemma {:induction false} RestoredRuns(m: Machine, g: Graph, codes: seq<Body>, after: seq<Body>, b: int, s: Store, u: Store, trace: seq<Event>, fuel: nat)
    requires ValidGraph(g) && |codes| == |after| == |g.succ| && StraightBlocks(codes) && m.homes == map[]
    requires forall x :: 0 <= x < |codes| && Reachable(g, x) ==> Restored(after[x], codes[x])
    requires 0 <= b < |codes| && Reachable(g, b) && ReadAlike(m, s, u)
    ensures RunBlocks(m, after, g, b, u, trace, fuel) == RunBlocks(m, codes, g, b, s, trace, fuel)
    decreases fuel
  {
    hide RunCode, Straight, ReadAlike, Restored, Reachable, EndsInBranch;
    RestoredLeaves(m, codes[b], after[b], s, u, trace);
    var x, y := RunCode(m, codes[b], s, trace), RunCode(m, after[b], u, trace);
    if x.Leave? {
      var next := NextBlock(codes[b], g.succ[b], x.branch);
      assert next == NextBlock(after[b], g.succ[b], y.branch);
      if next.Some? && fuel > 0 && 0 <= next.value < |codes| {
        assert next.value in g.succ[b] && IsBlock(g, b);
        ReachableNext(g, b, next.value);
        RestoredRuns(m, g, codes, after, next.value, x.store, y.store, x.trace, fuel - 1);
      }
    }
  }

  lemma AlikeItself(m: Machine, s: Store)
    ensures ReadAlike(m, s, s)
  {
  }

  // ----- Names that are written first -----

  predicate Mentions(i: Instruction, n: string) { n in Uses(i) + Defs(i) }

  /** The code writes `n`, and does not read it up to there. */
  ghost predicate WrittenFirst(code: Body, n: string) {
    exists k :: 0 <= k < |code| && WrittenAt(code, n, k)
  }

  predicate WrittenAt(code: Body, n: string, k: int)
    requires 0 <= k < |code|
  {
    DestinationOf(code[k]) == Some(n) && forall q :: 0 <= q <= k ==> n !in Uses(code[q])
  }

  lemma OperandIsUse(i: Instruction, k: int, n: string)
    requires 0 <= k < |Operands(i)| && Operands(i)[k] == Name(n)
    ensures n in Uses(i)
  {
  }

  lemma BareIsMention(i: Instruction, j: Instruction, n: string)
    requires StaysBare(i, j, n)
    ensures Mentions(i, n)
  {
    hide Operands;
    if DestinationOf(i) == Some(n) {
      DefsOfDestination(i);
    } else {
      var k :| 0 <= k < |Operands(i)| && k < |Operands(j)| && Operands(i)[k] == Name(n) && Operands(j)[k] == Name(n);
      OperandIsUse(i, k, n);
    }
  }

  /** A name whose current version is not the name itself is not left as it is. */
  lemma StepNotBare(i: Instruction, env: Env, j: Instruction, n: string)
    requires StepRenamed(i, env, j) && n in env && (env[n] != n || n !in Uses(i))
    ensures !StaysBare(i, j, n)
  {
    StepParts(i, env, j);
    hide StepRenamed, Operands, DestinationOf, Uses, Deversion;
    forall k | 0 <= k < |Operands(i)| && Operands(i)[k] == Name(n) ensures Operands(j)[k] != Name(n) {
      OperandIsUse(i, k, n);
      assert Operands(j)[k] == RenameValue(Operands(i)[k], env);
    }
  }

  /** What is current of `n` after one instruction. */
  lemma StepCurrent(i: Instruction, env: Env, j: Instruction, n: string)
    requires StepRenamed(i, env, j) && n in env && (env[n] != n || DestinationOf(i) == Some(n))
    ensures var env' := if DefinesRenamed(i, env) then env[DestinationOf(i).value := DestinationOf(j).value] else env;
      n in env' && env'[n] != n
  {
    hide RenameUses, WithDestination, Deversion;
  }

  lemma {:induction false} CodeNotBare(before: Body, env: Env, after: Body, out: Env, n: string)
    requires CodeRenamed(before, env, after, out) && n in env && (env[n] != n || WrittenFirst(before, n))
    ensures n in out && out[n] != n && |after| == |before| && forall k :: 0 <= k < |before| ==> !StaysBare(before[k], after[k], n)
    decreases |before|
  {
    hide RenameUses, WithDestination, StaysBare, IsVersionOf, Uses;
    if before != [] {
      var i, j := before[0], after[0];
      var env' := if DefinesRenamed(i, env) then env[DestinationOf(i).value := DestinationOf(j).value] else env;
      assert StepRenamed(i, env, j);
      StepNotBare(i, env, j, n);
      if env[n] != n || DestinationOf(i) == Some(n) {
        StepCurrent(i, env, j, n);
      } else {
        FirstInTail(before, n);
        assert n in env';
      }
      CodeNotBare(before[1..], env', after[1..], out, n);
      forall k | 0 <= k < |before| ensures !StaysBare(before[k], after[k], n) {
        if k > 0 { assert before[k] == before[1..][k - 1] && after[k] == after[1..][k - 1]; }
      }
    }
  }

  lemma FirstInTail(code: Body, n: string)
    requires code != [] && WrittenFirst(code, n) && DestinationOf(code[0]) != Some(n)
    ensures WrittenFirst(code[1..], n)
  {
    hide Uses, DestinationOf;
    var k :| 0 <= k < |code| && WrittenAt(code, n, k);
    var tail := code[1..];
    assert tail[k - 1] == code[k];
    forall q | 0 <= q <= k - 1 ensures n !in Uses(tail[q]) { assert tail[q] == code[q + 1]; }
    assert WrittenAt(tail, n, k - 1);
  }

  /** A variable that the entry writes before it reads it has a version everywhere. */
  lemma {:induction false} NeverBare(P: Problem, t: Parents, po: map<int, int>, st: RenameState, owner: map<string, Site>, outs: map<int, Env>, n: string, b: int)
    requires Renamed(P, t, st, owner, outs) && Tree(t, po) && n in P.phis && b in t
    requires 0 < |P.codes| && WrittenFirst(P.codes[0], n)
    ensures b in outs && n in outs[b] && outs[b][n] != n && forall k :: !BareAt(P, t, st, n, b, k)
    decreases po[0] - po[b]
  {
    hide Renamed, CodeRenamed, StaysBare, WrittenFirst, AllPhisReady, StartEnv;
    BlockFacts(P, t, st, owner, outs, b);
    if b != 0 { NeverBare(P, t, po, st, owner, outs, n, t[b]); }
    StartOf(P, t, st, outs, b, n);
    CodeNotBare(P.codes[b], StartEnv(P, t, st, outs, b), st.code[b], outs[b], n);
  }

  lemma StartOf(P: Problem, t: Parents, st: RenameState, outs: map<int, Env>, b: int, n: string)
    requires AllPhisReady(P, st, b) && n in P.phis && n in InEnv(P, t, outs, b)
    ensures n in StartEnv(P, t, st, outs, b)
    ensures InEnv(P, t, outs, b)[n] != n ==> StartEnv(P, t, st, outs, b)[n] != n
  {
    if HasPhi(P, b, n) { assert PhiReady(P, st, b, n); }
    hide Deversion;
  }

  /** Names may look like versions if the entry writes them first. */
  ghost predicate Presentable(codes: seq<Body>, excluded: set<string>) {
    && 0 < |codes|
    && forall b, k, n :: 0 <= b < |codes| && 0 <= k < |codes[b]| && Mentions(codes[b][k], n) ==>
         Deversion(n) == n || (n !in excluded && WrittenFirst(codes[0], n))
  }

  lemma PresentableIsStable(P: Problem, t: Parents, po: map<int, int>, st: RenameState, owner: map<string, Site>, outs: map<int, Env>, excluded: set<string>)
    requires Renamed(P, t, st, owner, outs) && Tree(t, po) && Presentable(P.codes, excluded)
    requires forall n :: n !in excluded && WrittenFirst(P.codes[0], n) ==> n in P.phis
    requires forall n :: n in P.phis ==> exists b, k :: 0 <= b < |P.codes| && 0 <= k < |P.codes[b]| && Mentions(P.codes[b][k], n)
    ensures NamesStable(P, t, st)
  {
    hide Renamed, StaysBare, Deversion, Mentions, WrittenFirst, Tree;
    forall n | LeftBare(P, t, st, n) ensures Deversion(n) == n {
      if b, k :| BareAt(P, t, st, n, b, k) {
        BareIsMention(P.codes[b][k], st.code[b][k], n);
        if n !in excluded && WrittenFirst(P.codes[0], n) { NeverBare(P, t, po, st, owner, outs, n, b); }
      } else {
        var e: EdgeKey :| e in st.sources && e.name == n && st.sources[e] == n;
        SourceRecorded(P, t, st, owner, outs, e);
        assert n in P.phis;
        if n !in excluded && WrittenFirst(P.codes[0], n) { NeverBare(P, t, po, st, owner, outs, n, e.pred); }
      }
    }
  }

  // ----- A parameter that looks like a version -----

  /** `y = 1; return x_ssa0` comes back as `y = 1; return x`; and renaming `x` in
      `x = 1; return x_ssa0` makes the code return 1. */
  lemma SuffixedParameter(m: Machine, after: Body, out: Env, s: Store)
    requires m.homes == map[]
    ensures CodeRenamed([Copy("y", Literal(1)), Return(Some(Name("x_ssa0")))], map["y" := "y"], after, out) ==>
      DeversionCode(after) == [Copy("y", Literal(1)), Return(Some(Name("x")))]
    ensures CodeRenamed([Copy("x", Literal(1)), Return(Some(Name("x_ssa0")))], map["x" := "x"],
      [Copy(Versioned("x", 0), Literal(1)), Return(Some(Name("x_ssa0")))], map["x" := Versioned("x", 0)])
    ensures RunCode(m, [Copy("x", Literal(1)), Return(Some(Name("x_ssa0")))], s, []) == End(Some(Read(m, s, "x_ssa0")), [])
    ensures RunCode(m, [Copy(Versioned("x", 0), Literal(1)), Return(Some(Name("x_ssa0")))], s, []) == End(Some(1), [])
  {
    LooksLikeVersion();
    VersionedIsVersion("x", 0);
    hide Deversion, Versioned;
    var first, second := [Copy("y", Literal(1)), Return(Some(Name("x_ssa0")))], [Copy("x", Literal(1)), Return(Some(Name("x_ssa0")))];
    assert first[1..] == [Return(Some(Name("x_ssa0")))] && second[1..] == [Return(Some(Name("x_ssa0")))];
    assert second[1..][1..] == [];
  }
}
