/** Lowered statements run as the source does (cc/ir.py:337-358, 557-582,
    612-635, 928-948). */
module LoweringStatements {
  import opened Common
  import opened IR
  import opened Cfg
  import opened SsaNames
  import opened Lowering
  import opened LoweringLabels
  import opened LoweringMeaning

  // ----- Which statements are covered -----

  ghost predicate CleanAssign(x: string, e: Expr) {
    CleanExpr(e) && !LongConstantChain(e) && (SelfModify(x, e) ==> Leaf(e.right))
  }

  ghost predicate CleanTest(test: Option<Expr>) { test.Some? ==> CleanExpr(test.value) }

  ghost predicate CleanSteps(steps: seq<StepItem>) {
    forall k :: 0 <= k < |steps| ==> CleanExpr(steps[k].value)
  }

  /** `break` and `continue` stand in loops, variables are not named like
      temporaries, and no assignment is left to the code generator whole. */
  ghost predicate CleanStatement(st: Statement, inLoop: bool)
    decreases st, 1
  {
    match st
    case Assign(x, e) => CleanAssign(x, e)
    case Perform(_, args) => CleanArgs(args)
    case If(cond, body) => CleanExpr(cond) && CleanAll(body, inLoop)
    case IfElse(cond, body, other) => CleanExpr(cond) && CleanAll(body, inLoop) && CleanAll(other, inLoop)
    case While(cond, body) => CleanExpr(cond) && CleanAll(body, true)
    case DoWhile(body, cond) => CleanExpr(cond) && CleanAll(body, true)
    case For(init, test, step, body) => CleanAll(init, false) && CleanTest(test) && CleanSteps(step) && CleanAll(body, true)
    case Break => inLoop
    case Continue => inLoop
    case Compound(body) => CleanAll(body, inLoop)
    case GiveBack(result) => result.Some? ==> CleanExpr(result.value)
  }

  ghost predicate CleanAll(ss: seq<Statement>, inLoop: bool)
    decreases ss, 0
  {
    forall k :: 0 <= k < |ss| ==> CleanStatement(ss[k], inLoop)
  }

  // ----- How a piece of lowered code follows the source -----

  ghost predicate Ends(m: Machine, body: Body, p: Point, r: Result, k: nat) {
    0 <= p.at <= |body| && From(m, body, p, k) == r
  }

  /** The lowered code, started at `p`, does what the source did to end as `d`.
      It makes at least as many transfers as the source makes iterations. */
  ghost predicate Simulated(m: Machine, body: Body, p: Point, end: int, brk: Option<string>, cont: Option<string>, fuel: nat, d: Done, u: Store, k: nat) {
    match d
    case Normal(s, tr, left) => Reaches(m, body, p, Point(end, u, tr), k) && Matches(m, s, u) && k + left >= fuel
    case Broken(s, tr, left) => brk.Some? && Reaches(m, body, p, Point(LabelIndex(body, brk.value), u, tr), k) && Matches(m, s, u) && k + left >= fuel
    case Continued(s, tr, left) =>
      && cont.Some? && Reaches(m, body, p, Point(LabelIndex(body, cont.value), u, tr), k) && Matches(m, s, u)
      && Landed(m, body, p, tr, k) && k - 1 + left >= fuel
    case Returned(v, s, tr) => Ends(m, body, p, Finished(v, u, tr), k) && Matches(m, s, u)
    case Spent(tr) => Ends(m, body, p, Exhausted(tr), k) && k >= fuel
  }

  lemma EndsFrom(m: Machine, body: Body, p: Point, q: Point, j: nat, r: Result, k: nat)
    requires Reaches(m, body, p, q, j) && Ends(m, body, q, r, k)
    ensures Ends(m, body, p, r, j + k)
  {
    ReachesWith(m, body, p, q, j, k);
    hide From;
    assert k + j == j + k;
  }

  /** What comes after `q` comes after `p`. */
  lemma SimulatedFrom(m: Machine, body: Body, p: Point, q: Point, j: nat, fuel: nat, more: nat, end: int, brk: Option<string>, cont: Option<string>, d: Done, u: Store, k: nat)
    requires Reaches(m, body, p, q, j) && Simulated(m, body, q, end, brk, cont, more, d, u, k) && j + more >= fuel
    ensures Simulated(m, body, p, end, brk, cont, fuel, d, u, j + k)
  {
    hide Reaches, Matches, Landed, Ends, LabelIndex;
    match d
    case Normal(s, tr, left) => Then(m, body, p, q, Point(end, u, tr), j, k);
    case Broken(s, tr, left) => Then(m, body, p, q, Point(LabelIndex(body, brk.value), u, tr), j, k);
    case Continued(s, tr, left) =>
      Then(m, body, p, q, Point(LabelIndex(body, cont.value), u, tr), j, k);
      ReachesLanded(m, body, p, q, j, tr, k);
    case Returned(v, s, tr) => EndsFrom(m, body, p, q, j, Finished(v, u, tr), k);
    case Spent(tr) => EndsFrom(m, body, p, q, j, Exhausted(tr), k);
  }

  /** Unless the piece falls through, its end does not matter. */
  lemma OtherEnd(m: Machine, body: Body, p: Point, end: int, end': int, brk: Option<string>, cont: Option<string>, fuel: nat, d: Done, u: Store, k: nat)
    requires Simulated(m, body, p, end, brk, cont, fuel, d, u, k) && !d.Normal?
    ensures Simulated(m, body, p, end', brk, cont, fuel, d, u, k)
  {
  }

  /** A loop's own targets do not matter once it returns or runs on. */
  lemma OtherTargets(m: Machine, body: Body, p: Point, end: int, brk: Option<string>, cont: Option<string>, brk': Option<string>, cont': Option<string>, fuel: nat, d: Done, u: Store, k: nat)
    requires Simulated(m, body, p, end, brk, cont, fuel, d, u, k) && !d.Broken? && !d.Continued?
    ensures Simulated(m, body, p, end, brk', cont', fuel, d, u, k)
  {
  }

  lemma NormalIs(m: Machine, body: Body, p: Point, end: int, brk: Option<string>, cont: Option<string>, fuel: nat, s: Store, tr: seq<Event>, left: nat, u: Store, k: nat)
    requires Reaches(m, body, p, Point(end, u, tr), k) && Matches(m, s, u) && k + left >= fuel
    ensures Simulated(m, body, p, end, brk, cont, fuel, Normal(s, tr, left), u, k)
  {
  }

  lemma SimulatedFacts(m: Machine, body: Body, p: Point, end: int, brk: Option<string>, cont: Option<string>, fuel: nat, d: Done, u: Store, k: nat)
    requires Simulated(m, body, p, end, brk, cont, fuel, d, u, k)
    ensures d.Normal? ==> Reaches(m, body, p, Point(end, u, d.trace), k) && k + d.fuel >= fuel
    ensures d.Broken? ==> brk.Some? && Reaches(m, body, p, Point(LabelIndex(body, brk.value), u, d.trace), k) && k + d.fuel >= fuel
    ensures d.Continued? ==> cont.Some? && Reaches(m, body, p, Point(LabelIndex(body, cont.value), u, d.trace), k)
    ensures d.Continued? ==> Landed(m, body, p, d.trace, k) && k - 1 + d.fuel >= fuel && k >= 1
    ensures d.Normal? || d.Broken? || d.Continued? ==> Matches(m, d.store, u)
  {
  }

  /** The source has no iterations left: neither has the run transfers. */
  lemma SpentIs(m: Machine, body: Body, p: Point, end: int, brk: Option<string>, cont: Option<string>, fuel: nat, tr: seq<Event>, u: Store, k: nat)
    requires Landed(m, body, p, tr, k) && k - 1 >= fuel
    ensures Simulated(m, body, p, end, brk, cont, fuel, Spent(tr), u, k - 1)
  {
  }

  lemma LandedPositive(m: Machine, body: Body, p: Point, tr: seq<Event>, k: nat)
    requires Landed(m, body, p, tr, k)
    ensures k >= 1
  {
  }

  lemma ReadyWith(m: Machine, body: Body, s: Store, u: Store, s': Store, u': Store)
    requires Ready(m, body, s, u) && Matches(m, s', u')
    ensures Ready(m, body, s', u')
  {
  }

  lemma OverMark(m: Machine, body: Body, p: Point, at: int, u: Store, tr: seq<Event>, k: nat, i: Instruction)
    requires Reaches(m, body, p, Point(at, u, tr), k) && Placed(body, at, [i]) && i.LoopBoundary?
    ensures Reaches(m, body, p, Point(at + 1, u, tr), k)
  {
    LastStep(m, body, p, at, u, tr, k, i);
  }

  lemma PlacedStart(body: Body, at: int, code: Body)
    requires Placed(body, at, code)
    ensures 0 <= at <= |body|
  {
  }

  lemma PlacedTwo(body: Body, at: int, x: Instruction, y: Instruction)
    requires Placed(body, at, [x, y])
    ensures Placed(body, at, [x]) && Placed(body, at + 1, [y])
  {
    assert [x, y] == [x] + [y];
    PlacedBoth(body, at, [x], [y]);
  }

  lemma PlacedThree(body: Body, at: int, x: Instruction, y: Instruction, z: Instruction)
    requires Placed(body, at, [x, y, z])
    ensures Placed(body, at, [x]) && Placed(body, at + 1, [y]) && Placed(body, at + 2, [z])
  {
    assert [x, y, z] == [x] + [y, z];
    PlacedBoth(body, at, [x], [y, z]);
    PlacedTwo(body, at + 1, y, z);
  }

  // ----- Simple statements -----

  lemma AssignIs(x: string, e: Expr, n: nat)
    ensures CleanAssign(x, e) ==> CleanExpr(e) && (SelfModify(x, e) ==> e.Binary? && Leaf(e.right))
    ensures !SelfModify(x, e) ==> var a := LowerExpr(e, n); LowerAssign(x, e, n).code == a.code + [Copy(x, a.value)]
  {
  }

  lemma AssignRuns(m: Machine, body: Body, p: Point, x: string, e: Expr, brk: Option<string>, cont: Option<string>, n: nat, s: Store, fuel: nat) returns (u: Store, k: nat)
    requires Ready(m, body, s, p.store) && CleanAssign(x, e) && Placed(body, p.at, LowerAssign(x, e, n).code)
    ensures var a := EvalExpr(m, s, e, p.trace);
      Simulated(m, body, p, p.at + |LowerAssign(x, e, n).code|, brk, cont, fuel, Normal(Write(m, s, x, a.value), a.trace, fuel), u, k)
  {
    hide *;
    var r := EvalExpr(m, s, e, p.trace);
    AssignIs(x, e, n);
    if SelfModify(x, e) {
      u, k := SelfModifyRuns(m, body, p, x, e, brk, cont, n, s, fuel);
    } else {
      var a := LowerExpr(e, n);
      PlacedBoth(body, p.at, a.code, [Copy(x, a.value)]);
      var v;
      v, k := ExprRuns(m, body, p, e, n, s);
      ExprFacts(m, body, p, a, n, r, v, k);
      ReadyAfter(m, body, s, p.store, v, n);
      SaneHomes(m, body, s, v);
      CopyStep(m, body, p, p.at + |a.code|, v, r.trace, k, x, a.value, r.value);
      u := Write(m, v, x, r.value);
      WriteBoth(m, s, v, x, r.value);
      NormalIs(m, body, p, p.at + |a.code| + 1, brk, cont, fuel, Write(m, s, x, r.value), r.trace, fuel, u, k);
    }
  }

  lemma LeafValueIs(m: Machine, s: Store, u: Store, e: Expr, trace: seq<Event>)
    requires Matches(m, s, u) && CleanExpr(e) && Leaf(e)
    ensures EvalExpr(m, s, e, trace) == Answered(ValueOf(m, u, LeafValue(e)), trace)
  {
  }

  lemma SelfModifyRuns(m: Machine, body: Body, p: Point, x: string, e: Expr, brk: Option<string>, cont: Option<string>, n: nat, s: Store, fuel: nat) returns (u: Store, k: nat)
    requires Ready(m, body, s, p.store) && SelfModify(x, e) && Leaf(e.right) && CleanExpr(e) && Placed(body, p.at, LowerAssign(x, e, n).code)
    ensures var a := EvalExpr(m, s, e, p.trace);
      Simulated(m, body, p, p.at + |LowerAssign(x, e, n).code|, brk, cont, fuel, Normal(Write(m, s, x, a.value), a.trace, fuel), u, k)
  {
    var r := EvalExpr(m, s, e, p.trace);
    var i := BinaryOperation(x, Name(x), e.operation, LeafValue(e.right));
    SaneHomes(m, body, s, p.store);
    PlacedStart(body, p.at, [i]);
    CleanIs(e);
    EvalIs(m, s, e, p.trace);
    LeafValueIs(m, s, p.store, e.left, p.trace);
    LeafValueIs(m, s, p.store, e.right, p.trace);
    hide Ready, Reaches, EvalExpr, Write, Placed, CleanExpr, Kept, Matches, Simulated, SaneMachine, UniqueLabels;
    ReachesSelf(m, body, p);
    k := 0;
    LastStep(m, body, p, p.at, p.store, p.trace, k, i);
    u := Write(m, p.store, x, r.value);
    WriteBoth(m, s, p.store, x, r.value);
    NormalIs(m, body, p, p.at + 1, brk, cont, fuel, Write(m, s, x, r.value), r.trace, fuel, u, k);
  }

  lemma PerformRuns(m: Machine, body: Body, p: Point, f: string, args: seq<Expr>, brk: Option<string>, cont: Option<string>, n: nat, s: Store, fuel: nat) returns (u: Store, k: nat)
    requires Ready(m, body, s, p.store) && CleanArgs(args)
    requires Placed(body, p.at, LowerArgs(args, n).code + [Call(f, LowerArgs(args, n).values, None)])
    ensures var a := EvalArgs(m, s, args, p.trace);
      Simulated(m, body, p, p.at + |LowerArgs(args, n).code| + 1, brk, cont, fuel, Normal(s, a.trace + [Event(f, a.values)], fuel), u, k)
  {
    var a, r := LowerArgs(args, n), EvalArgs(m, s, args, p.trace);
    var i := Call(f, a.values, None);
    hide Ready, Reaches, EvalArgs, LowerArgs, Placed, CleanArgs, Kept, Matches, Simulated, ArgsDone, ValuesOf;
    PlacedBoth(body, p.at, a.code, [i]);
    u, k := ArgsRuns(m, body, p, args, n, s);
    ArgsFacts(m, body, p, a, n, r, u, k);
    ReadyAfter(m, body, s, p.store, u, n);
    SaneHomes(m, body, s, u);
    LastStep(m, body, p, p.at + |a.code|, u, r.trace, k, i);
    NormalIs(m, body, p, p.at + |a.code| + 1, brk, cont, fuel, s, r.trace + [Event(f, r.values)], fuel, u, k);
  }

  lemma JumpOutRuns(m: Machine, body: Body, p: Point, target: string, s: Store, fuel: nat)
    requires Ready(m, body, s, p.store) && Placed(body, p.at, [Jump(target)])
    ensures Reaches(m, body, p, Point(LabelIndex(body, target), p.store, p.trace), 1) && Landed(m, body, p, p.trace, 1) && Matches(m, s, p.store)
  {
    PlacedStart(body, p.at, [Jump(target)]);
    ReachesSelf(m, body, p);
    JumpsOn(m, body, p, p.at, p.store, p.trace, 0, target);
  }

  lemma ReturnHere(m: Machine, body: Body, p: Point, at: int, u: Store, tr: seq<Event>, k: nat, v: Option<Value>)
    requires Reaches(m, body, p, Point(at, u, tr), k) && Placed(body, at, [Return(v)])
    ensures Ends(m, body, p, Finished(if v.Some? then Some(ValueOf(m, u, v.value)) else None, u, tr), k)
  {
    PlacedAt(body, at, [Return(v)], 0);
    assert body[at..][0] == Return(v);
    ReachesWith(m, body, p, Point(at, u, tr), k, 0);
    hide ValueOf;
  }

  lemma GiveBackIs(m: Machine, st: Statement, brk: Option<string>, cont: Option<string>, n: nat, s: Store, tr: seq<Event>, fuel: nat)
    requires st.GiveBack?
    ensures st.result.None? ==> LowerStatement(st, brk, cont, n).code == [Return(None)] && Exec(m, st, s, tr, fuel) == Returned(None, s, tr)
    ensures st.result.Some? ==> var a, r := LowerExpr(st.result.value, n), EvalExpr(m, s, st.result.value, tr);
      LowerStatement(st, brk, cont, n).code == a.code + [Return(Some(a.value))] && Exec(m, st, s, tr, fuel) == Returned(Some(r.value), s, r.trace)
  {
  }

  lemma ReturnedIs(m: Machine, body: Body, p: Point, end: int, brk: Option<string>, cont: Option<string>, fuel: nat, v: Option<int>, s: Store, tr: seq<Event>, u: Store, k: nat)
    requires Ends(m, body, p, Finished(v, u, tr), k) && Matches(m, s, u)
    ensures Simulated(m, body, p, end, brk, cont, fuel, Returned(v, s, tr), u, k)
  {
  }

  lemma GiveBackRuns(m: Machine, body: Body, p: Point, st: Statement, brk: Option<string>, cont: Option<string>, n: nat, s: Store, fuel: nat) returns (u: Store, k: nat)
    requires st.GiveBack? && Ready(m, body, s, p.store) && (st.result.Some? ==> CleanExpr(st.result.value))
    requires Placed(body, p.at, LowerStatement(st, brk, cont, n).code)
    ensures Simulated(m, body, p, p.at + |LowerStatement(st, brk, cont, n).code|, brk, cont, fuel, Exec(m, st, s, p.trace, fuel), u, k)
  {
    hide *;
    GiveBackIs(m, st, brk, cont, n, s, p.trace, fuel);
    var end := p.at + |LowerStatement(st, brk, cont, n).code|;
    if st.result.None? {
      SaneHomes(m, body, s, p.store);
      PlacedStart(body, p.at, [Return(None)]);
      ReachesSelf(m, body, p);
      ReturnHere(m, body, p, p.at, p.store, p.trace, 0, None);
      u, k := p.store, 0;
      ReturnedIs(m, body, p, end, brk, cont, fuel, None, s, p.trace, u, k);
    } else {
      var e := st.result.value;
      var a, r := LowerExpr(e, n), EvalExpr(m, s, e, p.trace);
      PlacedBoth(body, p.at, a.code, [Return(Some(a.value))]);
      u, k := ExprRuns(m, body, p, e, n, s);
      ExprFacts(m, body, p, a, n, r, u, k);
      ReadyAfter(m, body, s, p.store, u, n);
      SaneHomes(m, body, s, u);
      ReturnHere(m, body, p, p.at + |a.code|, u, r.trace, k, Some(a.value));
      ReturnedIs(m, body, p, end, brk, cont, fuel, Some(r.value), s, r.trace, u, k);
    }
  }

  // ----- Loop tests and steps -----

  lemma ConstantIsTrue(m: Machine, s: Store, e: Expr, trace: seq<Event>)
    requires ConstantTrue(e)
    ensures EvalExpr(m, s, e, trace).value != 0 && EvalExpr(m, s, e, trace).trace == trace
  {
  }

  lemma TestRuns(m: Machine, body: Body, p: Point, test: Option<Expr>, target: string, n: nat, s: Store) returns (u: Store, k: nat)
    requires Ready(m, body, s, p.store) && CleanTest(test) && Placed(body, p.at, LowerTest(test, target, n).code)
    ensures var r := TestOf(m, test, s, p.trace);
      CondDone(m, body, p, p.at + |LowerTest(test, target, n).code|, target, r.value == 0, n, r.trace, u, k)
  {
    if test.None? || ConstantTrue(test.value) {
      if test.Some? { ConstantIsTrue(m, s, test.value, p.trace); }
      u, k := p.store, 0;
      PlacedStart(body, p.at, []);
      ReachesSelf(m, body, p);
      KeptSelf(m, p.store, n);
      hide EvalExpr, ConstantTrue, Reaches, Kept, Landed, Placed, Ready;
    } else {
      u, k := FalseRuns(m, body, p, test.value, target, n, s);
      hide EvalExpr, ConstantTrue, CondDone, LowerFalse;
    }
  }

  lemma StepRuns(m: Machine, body: Body, p: Point, item: StepItem, n: nat, s: Store) returns (u: Store, k: nat)
    requires Ready(m, body, s, p.store) && CleanExpr(item.value) && Placed(body, p.at, LowerStep(item, n).code)
    ensures var r := EvalExpr(m, s, item.value, p.trace);
      && Reaches(m, body, p, Point(p.at + |LowerStep(item, n).code|, u, r.trace), k)
      && Matches(m, if item.Update? then Write(m, s, item.name, r.value) else s, u)
  {
    var a, r := LowerExpr(item.value, n), EvalExpr(m, s, item.value, p.trace);
    var temp := TempName(a.next);
    hide Ready, Reaches, EvalExpr, LowerExpr, Write, Read, Placed, CleanExpr, Kept, Matches, TempName, StableValue, ValueOf, Effect;
    if item.Update? {
      var tail := [Copy(temp, a.value), Copy(item.name, Name(temp))];
      PlacedBoth(body, p.at, a.code, tail);
      PlacedTwo(body, p.at + |a.code|, Copy(temp, a.value), Copy(item.name, Name(temp)));
    }
    var v;
    v, k := ExprRuns(m, body, p, item.value, n, s);
    ExprFacts(m, body, p, a, n, r, v, k);
    ReadyAfter(m, body, s, p.store, v, n);
    SaneHomes(m, body, s, v);
    u := v;
    if item.Update? {
      var w := Write(m, v, temp, r.value);
      WriteTemp(m, v, a.next, r.value);
      KeptMatches(m, s, v, w, a.next);
      WriteBoth(m, s, w, item.name, r.value);
      u := Write(m, w, item.name, r.value);
      CopyStep(m, body, p, p.at + |a.code|, v, r.trace, k, temp, a.value, r.value);
      assert ValueOf(m, w, Name(temp)) == r.value by { NameValue(m, w, temp); }
      CopyStep(m, body, p, p.at + |a.code| + 1, w, r.trace, k, item.name, Name(temp), r.value);
    }
  }

  lemma NameValue(m: Machine, s: Store, x: string)
    ensures ValueOf(m, s, Name(x)) == Read(m, s, x)
  {
  }

  lemma CopyStep(m: Machine, body: Body, p: Point, at: int, u: Store, tr: seq<Event>, k: nat, x: string, v: Value, value: int)
    requires Reaches(m, body, p, Point(at, u, tr), k) && Placed(body, at, [Copy(x, v)]) && ValueOf(m, u, v) == value
    ensures Reaches(m, body, p, Point(at + 1, Write(m, u, x, value), tr), k)
  {
    LastStep(m, body, p, at, u, tr, k, Copy(x, v));
  }

  lemma {:induction false} StepsRun(m: Machine, body: Body, p: Point, steps: seq<StepItem>, n: nat, s: Store) returns (u: Store, k: nat)
    requires Ready(m, body, s, p.store) && CleanSteps(steps) && Placed(body, p.at, LowerSteps(steps, n).code)
    ensures var r := ExecSteps(m, steps, s, p.trace);
      Reaches(m, body, p, Point(p.at + |LowerSteps(steps, n).code|, u, r.trace), k) && Matches(m, r.store, u)
    decreases |steps|
  {
    hide Ready, Reaches, EvalExpr, LowerStep, Write, Placed, CleanExpr, Matches;
    if steps == [] {
      PlacedStart(body, p.at, []);
      ReachesSelf(m, body, p);
      SaneHomes(m, body, s, p.store);
      u, k := p.store, 0;
    } else {
      var a := LowerStep(steps[0], n);
      var b := LowerSteps(steps[1..], a.next);
      var r := EvalExpr(m, s, steps[0].value, p.trace);
      PlacedBoth(body, p.at, a.code, b.code);
      var v, i := StepRuns(m, body, p, steps[0], n, s);
      var s' := if steps[0].Update? then Write(m, s, steps[0].name, r.value) else s;
      ReadyWith(m, body, s, p.store, s', v);
      var q := Point(p.at + |a.code|, v, r.trace);
      var j;
      u, j := StepsRun(m, body, q, steps[1..], a.next, s');
      k := i + j;
      Then(m, body, p, q, Point(q.at + |b.code|, u, ExecSteps(m, steps[1..], s', r.trace).trace), i, j);
    }
  }

  // ----- Shapes, one step deep -----

  lemma IfIs(m: Machine, st: Statement, brk: Option<string>, cont: Option<string>, n: nat, s: Store, tr: seq<Event>, fuel: nat)
    requires st.If?
    ensures var end := LabelName("endif", n); var a := LowerFalse(st.cond, end, n + 1); var b := LowerAll(st.body, brk, cont, a.next);
      LowerStatement(st, brk, cont, n).code == a.code + (b.code + [Label(end)])
    ensures var r := EvalExpr(m, s, st.cond, tr);
      Exec(m, st, s, tr, fuel) == if r.value != 0 then ExecAll(m, st.body, s, r.trace, fuel) else Normal(s, r.trace, fuel)
  {
  }

  lemma IfElseIs(m: Machine, st: Statement, brk: Option<string>, cont: Option<string>, n: nat, s: Store, tr: seq<Event>, fuel: nat)
    requires st.IfElse?
    ensures var otherwise, end := LabelName("else", n), LabelName("endif", n + 1);
      var a := LowerFalse(st.cond, otherwise, n + 2); var b := LowerAll(st.body, brk, cont, a.next); var d := LowerAll(st.other, brk, cont, b.next);
      LowerStatement(st, brk, cont, n).code == a.code + (b.code + ([Jump(end), Label(otherwise)] + (d.code + [Label(end)])))
    ensures var r := EvalExpr(m, s, st.cond, tr);
      Exec(m, st, s, tr, fuel) == ExecAll(m, if r.value != 0 then st.body else st.other, s, r.trace, fuel)
  {
  }

  /** How a loop goes on, when the next round would be `again`. */
  function LoopOn(d: Done, again: Done): Done {
    if d.Broken? then Normal(d.store, d.trace, d.fuel)
    else if d.Continued? then (if d.fuel == 0 then Spent(d.trace) else again)
    else d
  }

  predicate Goes(d: Done) { d.Continued? && d.fuel > 0 }

  /** A body that ends normally counts as continued. */
  function AfterBody(d: Done): Done {
    if d.Normal? then Continued(d.store, d.trace, d.fuel) else d
  }

  /** Then a `do` loop makes its test. */
  function AfterTest(m: Machine, cond: Expr, d: Done): Done {
    if d.Normal? || d.Continued? then
      var a := EvalExpr(m, d.store, cond, d.trace);
      if a.value == 0 then Broken(d.store, a.trace, d.fuel) else Continued(d.store, a.trace, d.fuel)
    else d
  }

  /** And a `for` loop makes its step. */
  function AfterSteps(m: Machine, steps: seq<StepItem>, d: Done): Done {
    if d.Normal? || d.Continued? then
      var r := ExecSteps(m, steps, d.store, d.trace);
      Continued(r.store, r.trace, d.fuel)
    else d
  }

  lemma WhileCodeIs(st: Statement, brk: Option<string>, cont: Option<string>, n: nat)
    requires st.While?
    ensures var loop, end := LabelName("wloop", n), LabelName("wend", n + 1);
      var a := LowerTest(Some(st.cond), end, n + 2); var b := LowerAll(st.body, Some(end), Some(loop), a.next);
      LowerStatement(st, brk, cont, n).code ==
        [Label(loop)] + (a.code + ([LoopBoundary(loop, end, true)] + (b.code + [LoopBoundary(loop, end, false), Jump(loop), Label(end)])))
  {
  }

  lemma WhileExecIs(m: Machine, st: Statement, s: Store, tr: seq<Event>, fuel: nat)
    requires st.While?
    ensures var r := TestOf(m, Some(st.cond), s, tr); var d := AfterBody(ExecAll(m, st.body, s, r.trace, fuel));
      && Within(d, fuel)
      && Exec(m, st, s, tr, fuel) ==
           if r.value == 0 then Normal(s, r.trace, fuel)
           else LoopOn(d, if Goes(d) then Exec(m, st, d.store, d.trace, d.fuel - 1) else d)
  {
  }

  lemma DoWhileCodeIs(st: Statement, brk: Option<string>, cont: Option<string>, n: nat)
    requires st.DoWhile?
    ensures var loop, again, end := LabelName("dloop", n), LabelName("dcond", n + 1), LabelName("dend", n + 2);
      var b := LowerAll(st.body, Some(end), Some(again), n + 3); var a := LowerTrue(st.cond, loop, b.next);
      LowerStatement(st, brk, cont, n).code ==
        [Label(loop), LoopBoundary(again, end, true)] + (b.code + ([LoopBoundary(again, end, false), Label(again)] + (a.code + [Label(end)])))
  {
  }

  lemma DoWhileExecIs(m: Machine, st: Statement, s: Store, tr: seq<Event>, fuel: nat)
    requires st.DoWhile?
    ensures var d := AfterTest(m, st.cond, ExecAll(m, st.body, s, tr, fuel));
      && Within(d, fuel)
      && Exec(m, st, s, tr, fuel) == LoopOn(d, if Goes(d) then Exec(m, st, d.store, d.trace, d.fuel - 1) else d)
  {
  }

  lemma ForIs(m: Machine, st: Statement, brk: Option<string>, cont: Option<string>, n: nat, s: Store, tr: seq<Event>, fuel: nat)
    requires st.For?
    ensures var a := LowerAll(st.init, None, None, n); LowerStatement(st, brk, cont, n).code == a.code + LowerForLoop(st, a.next).code
    ensures var d := ExecAll(m, st.init, s, tr, fuel);
      Within(d, fuel) && Exec(m, st, s, tr, fuel) == if d.Normal? then ExecFor(m, st, d.store, d.trace, d.fuel) else d
  {
  }

  lemma ForLoopCodeIs(st: Statement, n: nat)
    requires st.For?
    ensures var loop, step, end := LabelName("floop", n), LabelName("fstep", n + 1), LabelName("fend", n + 2);
      var a := LowerTest(st.test, end, n + 3); var b := LowerAll(st.body, Some(end), Some(step), a.next); var c := LowerSteps(st.step, b.next);
      LowerForLoop(st, n).code ==
        [Label(loop)] + (a.code + ([LoopBoundary(step, end, true)] + (b.code + ([LoopBoundary(step, end, false), Label(step)]
        + (c.code + [Jump(loop), Label(end)])))))
  {
  }

  lemma ForLoopExecIs(m: Machine, st: Statement, s: Store, tr: seq<Event>, fuel: nat)
    requires st.For?
    ensures var r := TestOf(m, st.test, s, tr); var d := AfterSteps(m, st.step, ExecAll(m, st.body, s, r.trace, fuel));
      && Within(d, fuel)
      && ExecFor(m, st, s, tr, fuel) ==
           if r.value == 0 then Normal(s, r.trace, fuel)
           else LoopOn(d, if Goes(d) then ExecFor(m, st, d.store, d.trace, d.fuel - 1) else d)
  {
  }

  lemma LoopOnIs(d: Done, again: Done)
    ensures d.Broken? ==> LoopOn(d, again) == Normal(d.store, d.trace, d.fuel)
    ensures d.Continued? && d.fuel == 0 ==> LoopOn(d, again) == Spent(d.trace)
    ensures d.Continued? && d.fuel > 0 ==> LoopOn(d, again) == again
    ensures !d.Broken? && !d.Continued? ==> LoopOn(d, again) == d
    ensures Goes(d) <==> d.Continued? && d.fuel > 0
  {
  }

  lemma GoesIs(d: Done)
    ensures Goes(d) <==> d.Continued? && d.fuel > 0
  {
  }

  lemma WithinIs(d: Done, fuel: nat)
    requires Within(d, fuel)
    ensures d.Normal? || d.Broken? || d.Continued? ==> d.fuel <= fuel
  {
  }

  lemma CleanStatementIs(st: Statement, inLoop: bool)
    requires CleanStatement(st, inLoop)
    ensures st.Assign? ==> CleanAssign(st.name, st.value)
    ensures st.Perform? ==> CleanArgs(st.args)
    ensures st.If? || st.IfElse? ==> CleanExpr(st.cond) && CleanAll(st.body, inLoop)
    ensures st.IfElse? ==> CleanAll(st.other, inLoop)
    ensures st.While? || st.DoWhile? ==> CleanExpr(st.cond) && CleanAll(st.body, true)
    ensures st.For? ==> CleanAll(st.init, false) && CleanTest(st.test) && CleanSteps(st.step) && CleanAll(st.body, true)
    ensures st.Break? || st.Continue? ==> inLoop
    ensures st.Compound? ==> CleanAll(st.body, inLoop)
    ensures st.GiveBack? && st.result.Some? ==> CleanExpr(st.result.value)
  {
  }

  lemma CleanAllIs(ss: seq<Statement>, inLoop: bool)
    requires CleanAll(ss, inLoop) && ss != []
    ensures CleanStatement(ss[0], inLoop) && CleanAll(ss[1..], inLoop)
  {
    hide CleanStatement;
    forall k | 0 <= k < |ss[1..]| ensures CleanStatement(ss[1..][k], inLoop) { assert ss[1..][k] == ss[k + 1]; }
  }

  lemma AllIs(m: Machine, ss: seq<Statement>, brk: Option<string>, cont: Option<string>, n: nat, s: Store, tr: seq<Event>, fuel: nat)
    ensures ss == [] ==> LowerAll(ss, brk, cont, n).code == [] && ExecAll(m, ss, s, tr, fuel) == Normal(s, tr, fuel)
    ensures ss != [] ==>
      var a := LowerStatement(ss[0], brk, cont, n); var d := Exec(m, ss[0], s, tr, fuel);
      && LowerAll(ss, brk, cont, n).code == a.code + LowerAll(ss[1..], brk, cont, a.next).code
      && Within(d, fuel)
      && ExecAll(m, ss, s, tr, fuel) == if d.Normal? then ExecAll(m, ss[1..], d.store, d.trace, d.fuel) else d
  {
  }

  ghost predicate Targets(inLoop: bool, brk: Option<string>, cont: Option<string>) {
    inLoop ==> brk.Some? && cont.Some?
  }

  // ----- All statements -----

  lemma {:induction false} AllRun(m: Machine, body: Body, p: Point, ss: seq<Statement>, inLoop: bool, brk: Option<string>, cont: Option<string>, n: nat, s: Store, fuel: nat)
      returns (u: Store, k: nat)
    requires Ready(m, body, s, p.store) && CleanAll(ss, inLoop) && Targets(inLoop, brk, cont) && Placed(body, p.at, LowerAll(ss, brk, cont, n).code)
    ensures Simulated(m, body, p, p.at + |LowerAll(ss, brk, cont, n).code|, brk, cont, fuel, ExecAll(m, ss, s, p.trace, fuel), u, k)
    decreases fuel, ss, 0
  {
    hide *;
    AllIs(m, ss, brk, cont, n, s, p.trace, fuel);
    if ss == [] {
      PlacedStart(body, p.at, []);
      ReachesSelf(m, body, p);
      SaneHomes(m, body, s, p.store);
      u, k := p.store, 0;
      NormalIs(m, body, p, p.at, brk, cont, fuel, s, p.trace, fuel, u, k);
    } else {
      var a := LowerStatement(ss[0], brk, cont, n);
      var b := LowerAll(ss[1..], brk, cont, a.next);
      var d := Exec(m, ss[0], s, p.trace, fuel);
      CleanAllIs(ss, inLoop);
      WithinIs(d, fuel);
      PlacedBoth(body, p.at, a.code, b.code);
      var v, i := StatementRuns(m, body, p, ss[0], inLoop, brk, cont, n, s, fuel);
      SimulatedFacts(m, body, p, p.at + |a.code|, brk, cont, fuel, d, v, i);
      if d.Normal? {
        var q := Point(p.at + |a.code|, v, d.trace);
        ReadyWith(m, body, s, p.store, d.store, v);
        var j;
        u, j := AllRun(m, body, q, ss[1..], inLoop, brk, cont, a.next, d.store, d.fuel);
        k := i + j;
        SimulatedFrom(m, body, p, q, i, fuel, d.fuel, q.at + |b.code|, brk, cont, ExecAll(m, ss[1..], d.store, d.trace, d.fuel), u, j);
      } else {
        u, k := v, i;
        OtherEnd(m, body, p, p.at + |a.code|, p.at + |a.code| + |b.code|, brk, cont, fuel, d, u, k);
      }
    }
  }

  lemma {:induction false} StatementRuns(m: Machine, body: Body, p: Point, st: Statement, inLoop: bool, brk: Option<string>, cont: Option<string>, n: nat, s: Store, fuel: nat)
      returns (u: Store, k: nat)
    requires Ready(m, body, s, p.store) && CleanStatement(st, inLoop) && Targets(inLoop, brk, cont) && Placed(body, p.at, LowerStatement(st, brk, cont, n).code)
    ensures Simulated(m, body, p, p.at + |LowerStatement(st, brk, cont, n).code|, brk, cont, fuel, Exec(m, st, s, p.trace, fuel), u, k)
    decreases fuel, st, 1
  {
    hide *;
    CleanStatementIs(st, inLoop);
    SimpleIs(m, st, brk, cont, n, s, p.trace, fuel);
    match st
    case Assign(x, e) => u, k := AssignRuns(m, body, p, x, e, brk, cont, n, s, fuel);
    case Perform(f, args) => u, k := PerformRuns(m, body, p, f, args, brk, cont, n, s, fuel);
    case If(_, _) => u, k := IfRuns(m, body, p, st, inLoop, brk, cont, n, s, fuel);
    case IfElse(_, _, _) => u, k := IfElseRuns(m, body, p, st, inLoop, brk, cont, n, s, fuel);
    case While(_, _) => u, k := WhileRuns(m, body, p, st, brk, cont, n, s, fuel);
    case DoWhile(_, _) => u, k := DoWhileRuns(m, body, p, st, brk, cont, n, s, fuel);
    case For(_, _, _, _) => u, k := ForRuns(m, body, p, st, brk, cont, n, s, fuel);
    case Break =>
      TargetsAre(inLoop, brk, cont);
      JumpOutRuns(m, body, p, brk.value, s, fuel);
      u, k := p.store, 1;
      OutIs(m, body, p, brk, cont, fuel, s, p.trace, u);
    case Continue =>
      TargetsAre(inLoop, brk, cont);
      JumpOutRuns(m, body, p, cont.value, s, fuel);
      u, k := p.store, 1;
      OutIs(m, body, p, brk, cont, fuel, s, p.trace, u);
    case Compound(inner) => u, k := AllRun(m, body, p, inner, inLoop, brk, cont, n, s, fuel);
    case GiveBack(_) => u, k := GiveBackRuns(m, body, p, st, brk, cont, n, s, fuel);
  }

  lemma TargetsAre(inLoop: bool, brk: Option<string>, cont: Option<string>)
    requires Targets(inLoop, brk, cont) && inLoop
    ensures brk.Some? && cont.Some?
  {
  }

  lemma OutIs(m: Machine, body: Body, p: Point, brk: Option<string>, cont: Option<string>, fuel: nat, s: Store, tr: seq<Event>, u: Store)
    requires brk.Some? && cont.Some? && Matches(m, s, u)
    ensures forall end: int :: Reaches(m, body, p, Point(LabelIndex(body, brk.value), u, tr), 1) ==> Simulated(m, body, p, end, brk, cont, fuel, Broken(s, tr, fuel), u, 1)
    ensures forall end: int :: Reaches(m, body, p, Point(LabelIndex(body, cont.value), u, tr), 1) && Landed(m, body, p, tr, 1) ==>
      Simulated(m, body, p, end, brk, cont, fuel, Continued(s, tr, fuel), u, 1)
  {
  }

  lemma SimpleIs(m: Machine, st: Statement, brk: Option<string>, cont: Option<string>, n: nat, s: Store, tr: seq<Event>, fuel: nat)
    ensures st.Assign? ==> var a := EvalExpr(m, s, st.value, tr);
      Exec(m, st, s, tr, fuel) == Normal(Write(m, s, st.name, a.value), a.trace, fuel) && LowerStatement(st, brk, cont, n) == LowerAssign(st.name, st.value, n)
    ensures st.Perform? ==> var a := EvalArgs(m, s, st.args, tr); var c := LowerArgs(st.args, n);
      Exec(m, st, s, tr, fuel) == Normal(s, a.trace + [Event(st.callee, a.values)], fuel)
      && LowerStatement(st, brk, cont, n).code == c.code + [Call(st.callee, c.values, None)]
    ensures st.Break? ==> Exec(m, st, s, tr, fuel) == Broken(s, tr, fuel) && (brk.Some? ==> LowerStatement(st, brk, cont, n).code == [Jump(brk.value)])
    ensures st.Continue? ==> Exec(m, st, s, tr, fuel) == Continued(s, tr, fuel) && (cont.Some? ==> LowerStatement(st, brk, cont, n).code == [Jump(cont.value)])
    ensures st.Compound? ==> Exec(m, st, s, tr, fuel) == ExecAll(m, st.body, s, tr, fuel) && LowerStatement(st, brk, cont, n) == LowerAll(st.body, brk, cont, n)
  {
  }

  lemma {:induction false} IfRuns(m: Machine, body: Body, p: Point, st: Statement, inLoop: bool, brk: Option<string>, cont: Option<string>, n: nat, s: Store, fuel: nat)
      returns (u: Store, k: nat)
    requires st.If? && Ready(m, body, s, p.store) && CleanStatement(st, inLoop) && Targets(inLoop, brk, cont) && Placed(body, p.at, LowerStatement(st, brk, cont, n).code)
    ensures Simulated(m, body, p, p.at + |LowerStatement(st, brk, cont, n).code|, brk, cont, fuel, Exec(m, st, s, p.trace, fuel), u, k)
    decreases fuel, st, 0
  {
    hide *;
    CleanStatementIs(st, inLoop);
    IfIs(m, st, brk, cont, n, s, p.trace, fuel);
    var end := LabelName("endif", n);
    var a := LowerFalse(st.cond, end, n + 1);
    var b := LowerAll(st.body, brk, cont, a.next);
    PlacedBoth(body, p.at, a.code, b.code + [Label(end)]);
    PlacedBoth(body, p.at + |a.code|, b.code, [Label(end)]);
    var at := p.at + |a.code| + |b.code|;
    SaneHomes(m, body, s, p.store);
    LabelAt(body, at, end);
    var r := EvalExpr(m, s, st.cond, p.trace);
    var v, j := FalseRuns(m, body, p, st.cond, end, n + 1, s);
    CondFacts(m, body, p, p.at + |a.code|, end, r.value == 0, n + 1, r.trace, v, j);
    ReadyAfter(m, body, s, p.store, v, n + 1);
    SaneHomes(m, body, s, v);
    if r.value == 0 {
      u, k := v, j;
      OverLabel(m, body, p, at, u, r.trace, k, end);
      NormalIs(m, body, p, at + 1, brk, cont, fuel, s, r.trace, fuel, u, k);
    } else {
      var q := Point(p.at + |a.code|, v, r.trace);
      var d := ExecAll(m, st.body, s, r.trace, fuel);
      var i;
      u, i := AllRun(m, body, q, st.body, inLoop, brk, cont, a.next, s, fuel);
      k := j + i;
      SimulatedFrom(m, body, p, q, j, fuel, fuel, at, brk, cont, d, u, i);
      FallOnLabel(m, body, p, at, end, brk, cont, fuel, d, u, k);
    }
  }

  /** A piece followed by a label. */
  lemma FallOnLabel(m: Machine, body: Body, p: Point, at: int, name: string, brk: Option<string>, cont: Option<string>, fuel: nat, d: Done, u: Store, k: nat)
    requires Simulated(m, body, p, at, brk, cont, fuel, d, u, k) && Placed(body, at, [Label(name)])
    ensures Simulated(m, body, p, at + 1, brk, cont, fuel, d, u, k)
  {
    hide *;
    SimulatedFacts(m, body, p, at, brk, cont, fuel, d, u, k);
    if d.Normal? {
      OverLabel(m, body, p, at, u, d.trace, k, name);
      NormalIs(m, body, p, at + 1, brk, cont, fuel, d.store, d.trace, d.fuel, u, k);
    } else {
      OtherEnd(m, body, p, at, at + 1, brk, cont, fuel, d, u, k);
    }
  }

  lemma {:induction false} IfElseRuns(m: Machine, body: Body, p: Point, st: Statement, inLoop: bool, brk: Option<string>, cont: Option<string>, n: nat, s: Store, fuel: nat)
      returns (u: Store, k: nat)
    requires st.IfElse? && Ready(m, body, s, p.store) && CleanStatement(st, inLoop) && Targets(inLoop, brk, cont) && Placed(body, p.at, LowerStatement(st, brk, cont, n).code)
    ensures Simulated(m, body, p, p.at + |LowerStatement(st, brk, cont, n).code|, brk, cont, fuel, Exec(m, st, s, p.trace, fuel), u, k)
    decreases fuel, st, 0
  {
    hide *;
    CleanStatementIs(st, inLoop);
    IfElseIs(m, st, brk, cont, n, s, p.trace, fuel);
    var otherwise, end := LabelName("else", n), LabelName("endif", n + 1);
    var a := LowerFalse(st.cond, otherwise, n + 2);
    var b := LowerAll(st.body, brk, cont, a.next);
    var c := LowerAll(st.other, brk, cont, b.next);
    var mid := p.at + |a.code| + |b.code|;
    var at := mid + 2 + |c.code|;
    PlacedArms(body, p.at, a.code, b.code, c.code, otherwise, end);
    SaneHomes(m, body, s, p.store);
    LabelAt(body, at, end);
    LabelAt(body, mid + 1, otherwise);
    var r := EvalExpr(m, s, st.cond, p.trace);
    var v, j := FalseRuns(m, body, p, st.cond, otherwise, n + 2, s);
    CondFacts(m, body, p, p.at + |a.code|, otherwise, r.value == 0, n + 2, r.trace, v, j);
    ReadyAfter(m, body, s, p.store, v, n + 2);
    var i;
    if r.value == 0 {
      OverLabel(m, body, p, mid + 1, v, r.trace, j, otherwise);
      var q := Point(mid + 2, v, r.trace);
      var d := ExecAll(m, st.other, s, r.trace, fuel);
      u, i := AllRun(m, body, q, st.other, inLoop, brk, cont, b.next, s, fuel);
      k := j + i;
      SimulatedFrom(m, body, p, q, j, fuel, fuel, at, brk, cont, d, u, i);
      FallOnLabel(m, body, p, at, end, brk, cont, fuel, d, u, k);
    } else {
      var q := Point(p.at + |a.code|, v, r.trace);
      var d := ExecAll(m, st.body, s, r.trace, fuel);
      u, i := AllRun(m, body, q, st.body, inLoop, brk, cont, a.next, s, fuel);
      k := j + i;
      SimulatedFrom(m, body, p, q, j, fuel, fuel, mid, brk, cont, d, u, i);
      k := JumpToEnd(m, body, p, mid, at, end, brk, cont, fuel, d, u, k);
    }
  }

  lemma PlacedArms(body: Body, at: int, a: Body, b: Body, c: Body, otherwise: string, end: string)
    requires Placed(body, at, a + (b + ([Jump(end), Label(otherwise)] + (c + [Label(end)]))))
    ensures Placed(body, at, a) && Placed(body, at + |a|, b) && Placed(body, at + |a| + |b|, [Jump(end)]) && Placed(body, at + |a| + |b| + 1, [Label(otherwise)])
    ensures Placed(body, at + |a| + |b| + 2, c) && Placed(body, at + |a| + |b| + 2 + |c|, [Label(end)])
  {
    hide *;
    var middle := [Jump(end), Label(otherwise)];
    PlacedBoth(body, at, a, b + (middle + (c + [Label(end)])));
    PlacedBoth(body, at + |a|, b, middle + (c + [Label(end)]));
    PlacedBoth(body, at + |a| + |b|, middle, c + [Label(end)]);
    PlacedTwo(body, at + |a| + |b|, Jump(end), Label(otherwise));
    PlacedBoth(body, at + |a| + |b| + 2, c, [Label(end)]);
  }

  /** The first arm leaves over the second. */
  lemma JumpToEnd(m: Machine, body: Body, p: Point, mid: int, at: int, end: string, brk: Option<string>, cont: Option<string>, fuel: nat, d: Done, u: Store, j: nat) returns (k: nat)
    requires Simulated(m, body, p, mid, brk, cont, fuel, d, u, j) && Placed(body, mid, [Jump(end)])
    requires LabelIndex(body, end) == at && Placed(body, at, [Label(end)])
    ensures Simulated(m, body, p, at + 1, brk, cont, fuel, d, u, k)
  {
    hide *;
    SimulatedFacts(m, body, p, mid, brk, cont, fuel, d, u, j);
    if d.Normal? {
      JumpsOn(m, body, p, mid, u, d.trace, j, end);
      k := j + 1;
      OverLabel(m, body, p, at, u, d.trace, k, end);
      NormalIs(m, body, p, at + 1, brk, cont, fuel, d.store, d.trace, d.fuel, u, k);
    } else {
      k := j;
      OtherEnd(m, body, p, mid, at + 1, brk, cont, fuel, d, u, k);
    }
  }

  // ----- while -----

  lemma {:induction false} WhileRuns(m: Machine, body: Body, p: Point, st: Statement, brk: Option<string>, cont: Option<string>, n: nat, s: Store, fuel: nat)
      returns (u: Store, k: nat)
    requires st.While? && Ready(m, body, s, p.store) && CleanExpr(st.cond) && CleanAll(st.body, true) && Placed(body, p.at, LowerStatement(st, brk, cont, n).code)
    ensures Simulated(m, body, p, p.at + |LowerStatement(st, brk, cont, n).code|, brk, cont, fuel, Exec(m, st, s, p.trace, fuel), u, k)
    decreases fuel, st, 0
  {
    hide *;
    WhileCodeIs(st, brk, cont, n);
    WhileExecIs(m, st, s, p.trace, fuel);
    var loop, end := LabelName("wloop", n), LabelName("wend", n + 1);
    var a := LowerTest(Some(st.cond), end, n + 2);
    var b := LowerAll(st.body, Some(end), Some(loop), a.next);
    var back := [LoopBoundary(loop, end, false), Jump(loop), Label(end)];
    var inner := p.at + 1 + |a.code| + 1;
    var at := inner + |b.code|;
    PlacedLoop(body, p.at, loop, a.code, LoopBoundary(loop, end, true), b.code + back);
    PlacedBoth(body, inner, b.code, back);
    PlacedThree(body, at, LoopBoundary(loop, end, false), Jump(loop), Label(end));
    SaneHomes(m, body, s, p.store);
    LabelAt(body, p.at, loop);
    LabelAt(body, at + 2, end);
    var r := TestOf(m, Some(st.cond), s, p.trace);
    CleanTestIs(Some(st.cond));
    var v, j := HeadRuns(m, body, p, loop, Some(st.cond), LoopBoundary(loop, end, true), end, n + 2, s);
    ReadyWith(m, body, s, p.store, s, v);
    if r.value == 0 {
      u, k := v, j;
      OverLabel(m, body, p, at + 2, u, r.trace, k, end);
      NormalIs(m, body, p, at + 3, brk, cont, fuel, s, r.trace, fuel, u, k);
    } else {
      var q := Point(inner, v, r.trace);
      var x := ExecAll(m, st.body, s, r.trace, fuel);
      TargetsSome(end, loop);
      var w, i := AllRun(m, body, q, st.body, true, Some(end), Some(loop), a.next, s, fuel);
      SimulatedFrom(m, body, p, q, j, fuel, fuel, at, Some(end), Some(loop), x, w, i);
      var c := WhileBack(m, body, p, at, loop, end, fuel, x, w, j + i);
      var d := AfterBody(x);
      GoesIs(d);
      LoopOnIs(d, if Goes(d) then Exec(m, st, d.store, d.trace, d.fuel - 1) else d);
      WithinIs(d, fuel);
      if Goes(d) {
        SimulatedFacts(m, body, p, at, Some(end), Some(loop), fuel, d, w, c);
        ReadyWith(m, body, s, p.store, d.store, w);
        var h;
        u, h := WhileRuns(m, body, Point(p.at, w, d.trace), st, brk, cont, n, d.store, d.fuel - 1);
        k := c + h;
        SimulatedFrom(m, body, p, Point(p.at, w, d.trace), c, fuel, d.fuel - 1, at + 3, brk, cont, Exec(m, st, d.store, d.trace, d.fuel - 1), u, h);
      } else {
        u := w;
        k := LoopStops(m, body, p, at, at + 2, loop, end, brk, cont, fuel, d, u, c);
      }
    }
  }

  lemma TargetsSome(brk: string, cont: string)
    ensures Targets(true, Some(brk), Some(cont))
  {
  }

  lemma CleanTestIs(test: Option<Expr>)
    requires test.Some? ==> CleanExpr(test.value)
    ensures CleanTest(test)
  {
  }

  /** Label, test and mark at the head of a loop. */
  lemma PlacedLoop(body: Body, at: int, loop: string, test: Body, mark: Instruction, rest: Body)
    requires Placed(body, at, [Label(loop)] + (test + ([mark] + rest)))
    ensures Placed(body, at, [Label(loop)]) && Placed(body, at + 1, test) && Placed(body, at + 1 + |test|, [mark]) && Placed(body, at + 2 + |test|, rest)
  {
    hide *;
    PlacedBoth(body, at, [Label(loop)], test + ([mark] + rest));
    PlacedBoth(body, at + 1, test, [mark] + rest);
    PlacedBoth(body, at + 1 + |test|, [mark], rest);
  }

  /** The head of a loop: to the body if the test holds, else to the end. */
  lemma HeadRuns(m: Machine, body: Body, p: Point, loop: string, test: Option<Expr>, mark: Instruction, end: string, n: nat, s: Store) returns (u: Store, k: nat)
    requires Ready(m, body, s, p.store) && CleanTest(test) && mark.LoopBoundary? && Placed(body, p.at, [Label(loop)])
    requires Placed(body, p.at + 1, LowerTest(test, end, n).code) && Placed(body, p.at + 1 + |LowerTest(test, end, n).code|, [mark])
    ensures var r := TestOf(m, test, s, p.trace);
      Reaches(m, body, p, Point(if r.value == 0 then LabelIndex(body, end) else p.at + 1 + |LowerTest(test, end, n).code| + 1, u, r.trace), k) && Matches(m, s, u)
  {
    hide *;
    PlacedStart(body, p.at, [Label(loop)]);
    ReachesSelf(m, body, p);
    OverLabel(m, body, p, p.at, p.store, p.trace, 0, loop);
    var q := Point(p.at + 1, p.store, p.trace);
    var a, r := LowerTest(test, end, n), TestOf(m, test, s, p.trace);
    var j;
    u, j := TestRuns(m, body, q, test, end, n, s);
    KeptSelf(m, p.store, n);
    k := 0 + j;
    CondThen(m, body, p, q, 0, n, n, q.at + |a.code|, end, r.value == 0, r.trace, u, j);
    CondFacts(m, body, p, q.at + |a.code|, end, r.value == 0, n, r.trace, u, k);
    ReadyAfter(m, body, s, p.store, u, n);
    SaneHomes(m, body, s, u);
    if r.value != 0 { OverMark(m, body, p, q.at + |a.code|, u, r.trace, k, mark); }
  }

  lemma ContinuedIs(m: Machine, body: Body, p: Point, end: int, brk: Option<string>, cont: Option<string>, fuel: nat, s: Store, tr: seq<Event>, left: nat, u: Store, k: nat)
    requires cont.Some? && Reaches(m, body, p, Point(LabelIndex(body, cont.value), u, tr), k) && Matches(m, s, u)
    requires Landed(m, body, p, tr, k) && k - 1 + left >= fuel
    ensures Simulated(m, body, p, end, brk, cont, fuel, Continued(s, tr, left), u, k)
  {
  }

  lemma BrokenIs(m: Machine, body: Body, p: Point, end: int, brk: Option<string>, cont: Option<string>, fuel: nat, s: Store, tr: seq<Event>, left: nat, u: Store, k: nat)
    requires brk.Some? && Reaches(m, body, p, Point(LabelIndex(body, brk.value), u, tr), k) && Matches(m, s, u) && k + left >= fuel
    ensures Simulated(m, body, p, end, brk, cont, fuel, Broken(s, tr, left), u, k)
  {
  }

  /** Another place to continue does not matter to what does not continue. */
  lemma OtherContinue(m: Machine, body: Body, p: Point, end: int, brk: Option<string>, cont: Option<string>, cont': Option<string>, fuel: nat, d: Done, u: Store, k: nat)
    requires Simulated(m, body, p, end, brk, cont, fuel, d, u, k) && !d.Continued?
    ensures Simulated(m, body, p, end, brk, cont', fuel, d, u, k)
  {
  }

  lemma AfterBodyIs(d: Done)
    ensures AfterBody(d) == if d.Normal? then Continued(d.store, d.trace, d.fuel) else d
  {
  }

  /** From the end of the body back to the head. */
  lemma WhileBack(m: Machine, body: Body, p: Point, at: int, loop: string, end: string, fuel: nat, d: Done, u: Store, k: nat) returns (c: nat)
    requires Simulated(m, body, p, at, Some(end), Some(loop), fuel, d, u, k)
    requires Placed(body, at, [LoopBoundary(loop, end, false)]) && Placed(body, at + 1, [Jump(loop)])
    ensures Simulated(m, body, p, at, Some(end), Some(loop), fuel, AfterBody(d), u, c) && !AfterBody(d).Normal?
  {
    hide *;
    SimulatedFacts(m, body, p, at, Some(end), Some(loop), fuel, d, u, k);
    AfterBodyIs(d);
    c := k;
    if d.Normal? {
      OverMark(m, body, p, at, u, d.trace, k, LoopBoundary(loop, end, false));
      JumpsOn(m, body, p, at + 1, u, d.trace, k, loop);
      c := k + 1;
      ContinuedIs(m, body, p, at, Some(end), Some(loop), fuel, d.store, d.trace, d.fuel, u, c);
    }
  }

  /** A loop that does not go round again. */
  lemma LoopStops(m: Machine, body: Body, p: Point, at: int, last: int, loop: string, end: string, brk: Option<string>, cont: Option<string>,
                  fuel: nat, d: Done, u: Store, k: nat) returns (h: nat)
    requires Simulated(m, body, p, at, Some(end), Some(loop), fuel, d, u, k) && !Goes(d) && !d.Normal?
    requires LabelIndex(body, end) == last && Placed(body, last, [Label(end)])
    ensures Simulated(m, body, p, last + 1, brk, cont, fuel, LoopOn(d, d), u, h)
  {
    hide *;
    SimulatedFacts(m, body, p, at, Some(end), Some(loop), fuel, d, u, k);
    LoopOnIs(d, d);
    h := k;
    if d.Broken? {
      OverLabel(m, body, p, last, u, d.trace, k, end);
      NormalIs(m, body, p, last + 1, brk, cont, fuel, d.store, d.trace, d.fuel, u, k);
    } else if d.Continued? {
      SpentIs(m, body, p, last + 1, brk, cont, fuel, d.trace, u, k);
      h := k - 1;
    } else {
      OtherEnd(m, body, p, at, last + 1, Some(end), Some(loop), fuel, d, u, k);
      OtherTargets(m, body, p, last + 1, Some(end), Some(loop), brk, cont, fuel, d, u, k);
    }
  }

  // ----- do -----

  lemma {:induction false} DoWhileRuns(m: Machine, body: Body, p: Point, st: Statement, brk: Option<string>, cont: Option<string>, n: nat, s: Store, fuel: nat)
      returns (u: Store, k: nat)
    requires st.DoWhile? && Ready(m, body, s, p.store) && CleanExpr(st.cond) && CleanAll(st.body, true) && Placed(body, p.at, LowerStatement(st, brk, cont, n).code)
    ensures Simulated(m, body, p, p.at + |LowerStatement(st, brk, cont, n).code|, brk, cont, fuel, Exec(m, st, s, p.trace, fuel), u, k)
    decreases fuel, st, 0
  {
    hide *;
    DoWhileCodeIs(st, brk, cont, n);
    DoWhileExecIs(m, st, s, p.trace, fuel);
    var loop, again, end := LabelName("dloop", n), LabelName("dcond", n + 1), LabelName("dend", n + 2);
    var b := LowerAll(st.body, Some(end), Some(again), n + 3);
    var a := LowerTrue(st.cond, loop, b.next);
    var front, middle := [Label(loop), LoopBoundary(again, end, true)], [LoopBoundary(again, end, false), Label(again)];
    var at := p.at + 2 + |b.code|;
    var last := at + 2 + |a.code|;
    PlacedAround(body, p.at, front, b.code, middle, a.code, [Label(end)]);
    SaneHomes(m, body, s, p.store);
    LabelAt(body, last, end);
    var q := Point(p.at + 2, p.store, p.trace);
    EntersBody(m, body, p, loop, LoopBoundary(again, end, true));
    var x := ExecAll(m, st.body, s, p.trace, fuel);
    TargetsSome(end, again);
    var v, i := AllRun(m, body, q, st.body, true, Some(end), Some(again), n + 3, s, fuel);
    SimulatedFrom(m, body, p, q, 0, fuel, fuel, at, Some(end), Some(again), x, v, i);
    var w, c := DoBack(m, body, p, at, loop, again, end, st.cond, b.next, fuel, x, s, v, 0 + i);
    var d := AfterTest(m, st.cond, x);
    GoesIs(d);
    LoopOnIs(d, if Goes(d) then Exec(m, st, d.store, d.trace, d.fuel - 1) else d);
    WithinIs(d, fuel);
    if Goes(d) {
      SimulatedFacts(m, body, p, at, Some(end), Some(loop), fuel, d, w, c);
      ReadyWith(m, body, s, p.store, d.store, w);
      var h;
      u, h := DoWhileRuns(m, body, Point(p.at, w, d.trace), st, brk, cont, n, d.store, d.fuel - 1);
      k := c + h;
      SimulatedFrom(m, body, p, Point(p.at, w, d.trace), c, fuel, d.fuel - 1, last + 1, brk, cont, Exec(m, st, d.store, d.trace, d.fuel - 1), u, h);
    } else {
      u := w;
      k := LoopStops(m, body, p, at, last, loop, end, brk, cont, fuel, d, u, c);
    }
  }

  /** A head, a body, what follows it, a second piece and an end. */
  lemma PlacedAround(body: Body, at: int, front: Body, inner: Body, middle: Body, second: Body, tail: Body)
    requires Placed(body, at, front + (inner + (middle + (second + tail))))
    ensures Placed(body, at, front) && Placed(body, at + |front|, inner) && Placed(body, at + |front| + |inner|, middle)
    ensures Placed(body, at + |front| + |inner| + |middle|, second) && Placed(body, at + |front| + |inner| + |middle| + |second|, tail)
  {
    hide *;
    PlacedBoth(body, at, front, inner + (middle + (second + tail)));
    PlacedBoth(body, at + |front|, inner, middle + (second + tail));
    PlacedBoth(body, at + |front| + |inner|, middle, second + tail);
    PlacedBoth(body, at + |front| + |inner| + |middle|, second, tail);
  }

  /** Over the label and the mark at the head of a `do` loop. */
  lemma EntersBody(m: Machine, body: Body, p: Point, loop: string, mark: Instruction)
    requires Placed(body, p.at, [Label(loop), mark]) && mark.LoopBoundary? && UniqueLabels(body)
    ensures Reaches(m, body, p, Point(p.at + 2, p.store, p.trace), 0) && LabelIndex(body, loop) == p.at
  {
    hide *;
    PlacedTwo(body, p.at, Label(loop), mark);
    LabelAt(body, p.at, loop);
    PlacedStart(body, p.at, [Label(loop)]);
    ReachesSelf(m, body, p);
    OverLabel(m, body, p, p.at, p.store, p.trace, 0, loop);
    OverMark(m, body, p, p.at + 1, p.store, p.trace, 0, mark);
  }

  lemma AfterTestIs(m: Machine, cond: Expr, d: Done)
    ensures d.Normal? || d.Continued? ==> var a := EvalExpr(m, d.store, cond, d.trace);
      AfterTest(m, cond, d) == if a.value == 0 then Broken(d.store, a.trace, d.fuel) else Continued(d.store, a.trace, d.fuel)
    ensures !d.Normal? && !d.Continued? ==> AfterTest(m, cond, d) == d
    ensures !AfterTest(m, cond, d).Normal?
  {
  }

  /** Test at the end of a `do` loop. */
  lemma DoBack(m: Machine, body: Body, p: Point, at: int, loop: string, again: string, end: string, cond: Expr, n: nat, fuel: nat, d: Done, s: Store, u: Store, k: nat)
      returns (w: Store, c: nat)
    requires Simulated(m, body, p, at, Some(end), Some(again), fuel, d, u, k) && Ready(m, body, s, p.store) && CleanExpr(cond)
    requires Placed(body, at, [LoopBoundary(again, end, false), Label(again)]) && Placed(body, at + 2, LowerTrue(cond, loop, n).code)
    requires LabelIndex(body, end) == at + 2 + |LowerTrue(cond, loop, n).code|
    ensures Simulated(m, body, p, at, Some(end), Some(loop), fuel, AfterTest(m, cond, d), w, c) && !AfterTest(m, cond, d).Normal?
  {
    hide *;
    SimulatedFacts(m, body, p, at, Some(end), Some(again), fuel, d, u, k);
    AfterTestIs(m, cond, d);
    PlacedTwo(body, at, LoopBoundary(again, end, false), Label(again));
    SaneHomes(m, body, s, p.store);
    LabelAt(body, at + 1, again);
    if d.Normal? || d.Continued? {
      if d.Normal? { OverMark(m, body, p, at, u, d.trace, k, LoopBoundary(again, end, false)); }
      OverLabel(m, body, p, at + 1, u, d.trace, k, again);
      var q := Point(at + 2, u, d.trace);
      ReadyWith(m, body, s, p.store, d.store, u);
      var r := EvalExpr(m, d.store, cond, d.trace);
      var a := LowerTrue(cond, loop, n);
      var j;
      w, j := TrueRuns(m, body, q, cond, loop, n, d.store);
      c := k + j;
      CondFacts(m, body, q, q.at + |a.code|, loop, r.value != 0, n, r.trace, w, j);
      ReadyAfter(m, body, d.store, u, w, n);
      SaneHomes(m, body, d.store, w);
      Then(m, body, p, q, Point(if r.value != 0 then LabelIndex(body, loop) else q.at + |a.code|, w, r.trace), k, j);
      if r.value != 0 {
        ReachesLanded(m, body, p, q, k, r.trace, j);
        LandedPositive(m, body, q, r.trace, j);
        ContinuedIs(m, body, p, at, Some(end), Some(loop), fuel, d.store, r.trace, d.fuel, w, c);
      } else {
        BrokenIs(m, body, p, at, Some(end), Some(loop), fuel, d.store, r.trace, d.fuel, w, c);
      }
    } else {
      w, c := u, k;
      OtherContinue(m, body, p, at, Some(end), Some(again), Some(loop), fuel, d, w, c);
    }
  }

  // ----- for -----

  lemma {:induction false} ForRuns(m: Machine, body: Body, p: Point, st: Statement, brk: Option<string>, cont: Option<string>, n: nat, s: Store, fuel: nat)
      returns (u: Store, k: nat)
    requires st.For? && Ready(m, body, s, p.store) && CleanAll(st.init, false) && CleanTest(st.test) && CleanSteps(st.step) && CleanAll(st.body, true)
    requires Placed(body, p.at, LowerStatement(st, brk, cont, n).code)
    ensures Simulated(m, body, p, p.at + |LowerStatement(st, brk, cont, n).code|, brk, cont, fuel, Exec(m, st, s, p.trace, fuel), u, k)
    decreases fuel, st, 0, 1
  {
    hide *;
    ForIs(m, st, brk, cont, n, s, p.trace, fuel);
    var a := LowerAll(st.init, None, None, n);
    var b := LowerForLoop(st, a.next);
    var d := ExecAll(m, st.init, s, p.trace, fuel);
    WithinIs(d, fuel);
    PlacedBoth(body, p.at, a.code, b.code);
    NoTargets();
    var v, i := AllRun(m, body, p, st.init, false, None, None, n, s, fuel);
    SimulatedFacts(m, body, p, p.at + |a.code|, None, None, fuel, d, v, i);
    if d.Normal? {
      var q := Point(p.at + |a.code|, v, d.trace);
      ReadyWith(m, body, s, p.store, d.store, v);
      var j;
      u, j := ForLoopRuns(m, body, q, st, brk, cont, a.next, d.store, d.fuel);
      k := i + j;
      SimulatedFrom(m, body, p, q, i, fuel, d.fuel, q.at + |b.code|, brk, cont, ExecFor(m, st, d.store, d.trace, d.fuel), u, j);
    } else {
      u, k := v, i;
      OtherEnd(m, body, p, p.at + |a.code|, p.at + |a.code| + |b.code|, None, None, fuel, d, u, k);
      OtherTargets(m, body, p, p.at + |a.code| + |b.code|, None, None, brk, cont, fuel, d, u, k);
    }
  }

  lemma NoTargets()
    ensures Targets(false, None, None)
  {
  }

  lemma {:induction false} ForLoopRuns(m: Machine, body: Body, p: Point, st: Statement, brk: Option<string>, cont: Option<string>, n: nat, s: Store, fuel: nat)
      returns (u: Store, k: nat)
    requires st.For? && Ready(m, body, s, p.store) && CleanTest(st.test) && CleanSteps(st.step) && CleanAll(st.body, true)
    requires Placed(body, p.at, LowerForLoop(st, n).code)
    ensures Simulated(m, body, p, p.at + |LowerForLoop(st, n).code|, brk, cont, fuel, ExecFor(m, st, s, p.trace, fuel), u, k)
    decreases fuel, st, 0, 0
  {
    hide *;
    ForLoopCodeIs(st, n);
    ForLoopExecIs(m, st, s, p.trace, fuel);
    var loop, step, end := LabelName("floop", n), LabelName("fstep", n + 1), LabelName("fend", n + 2);
    var a := LowerTest(st.test, end, n + 3);
    var b := LowerAll(st.body, Some(end), Some(step), a.next);
    var e := LowerSteps(st.step, b.next);
    var middle, tail := [LoopBoundary(step, end, false), Label(step)], [Jump(loop), Label(end)];
    var inner := p.at + 2 + |a.code|;
    var at := inner + |b.code|;
    var last := at + 2 + |e.code| + 1;
    PlacedLoop(body, p.at, loop, a.code, LoopBoundary(step, end, true), b.code + (middle + (e.code + tail)));
    PlacedRest(body, inner, b.code, middle, e.code, Jump(loop), Label(end));
    SaneHomes(m, body, s, p.store);
    LabelAt(body, p.at, loop);
    LabelAt(body, last, end);
    var r := TestOf(m, st.test, s, p.trace);
    var v, j := HeadRuns(m, body, p, loop, st.test, LoopBoundary(step, end, true), end, n + 3, s);
    ReadyWith(m, body, s, p.store, s, v);
    if r.value == 0 {
      u, k := v, j;
      OverLabel(m, body, p, last, u, r.trace, k, end);
      NormalIs(m, body, p, last + 1, brk, cont, fuel, s, r.trace, fuel, u, k);
    } else {
      var q := Point(inner, v, r.trace);
      var x := ExecAll(m, st.body, s, r.trace, fuel);
      TargetsSome(end, step);
      var y, i := AllRun(m, body, q, st.body, true, Some(end), Some(step), a.next, s, fuel);
      SimulatedFrom(m, body, p, q, j, fuel, fuel, at, Some(end), Some(step), x, y, i);
      var w, c := ForBack(m, body, p, at, loop, step, end, st.step, b.next, fuel, x, s, y, j + i);
      var d := AfterSteps(m, st.step, x);
      GoesIs(d);
      LoopOnIs(d, if Goes(d) then ExecFor(m, st, d.store, d.trace, d.fuel - 1) else d);
      WithinIs(d, fuel);
      if Goes(d) {
        SimulatedFacts(m, body, p, at, Some(end), Some(loop), fuel, d, w, c);
        ReadyWith(m, body, s, p.store, d.store, w);
        var h;
        u, h := ForLoopRuns(m, body, Point(p.at, w, d.trace), st, brk, cont, n, d.store, d.fuel - 1);
        k := c + h;
        SimulatedFrom(m, body, p, Point(p.at, w, d.trace), c, fuel, d.fuel - 1, last + 1, brk, cont, ExecFor(m, st, d.store, d.trace, d.fuel - 1), u, h);
      } else {
        u := w;
        k := LoopStops(m, body, p, at, last, loop, end, brk, cont, fuel, d, u, c);
      }
    }
  }

  lemma PlacedRest(body: Body, at: int, inner: Body, middle: Body, steps: Body, x: Instruction, y: Instruction)
    requires Placed(body, at, inner + (middle + (steps + [x, y])))
    ensures Placed(body, at, inner) && Placed(body, at + |inner|, middle) && Placed(body, at + |inner| + |middle|, steps)
    ensures Placed(body, at + |inner| + |middle| + |steps|, [x]) && Placed(body, at + |inner| + |middle| + |steps| + 1, [y])
  {
    hide *;
    PlacedBoth(body, at, inner, middle + (steps + [x, y]));
    PlacedBoth(body, at + |inner|, middle, steps + [x, y]);
    PlacedBoth(body, at + |inner| + |middle|, steps, [x, y]);
    PlacedTwo(body, at + |inner| + |middle| + |steps|, x, y);
  }

  lemma AfterStepsIs(m: Machine, steps: seq<StepItem>, d: Done)
    ensures d.Normal? || d.Continued? ==> var r := ExecSteps(m, steps, d.store, d.trace); AfterSteps(m, steps, d) == Continued(r.store, r.trace, d.fuel)
    ensures !d.Normal? && !d.Continued? ==> AfterSteps(m, steps, d) == d
    ensures !AfterSteps(m, steps, d).Normal?
  {
  }

  /** Step and jump at the end of a `for` loop. */
  lemma ForBack(m: Machine, body: Body, p: Point, at: int, loop: string, step: string, end: string, steps: seq<StepItem>, n: nat, fuel: nat, d: Done, s: Store, u: Store, k: nat)
      returns (w: Store, c: nat)
    requires Simulated(m, body, p, at, Some(end), Some(step), fuel, d, u, k) && Ready(m, body, s, p.store) && CleanSteps(steps)
    requires Placed(body, at, [LoopBoundary(step, end, false), Label(step)]) && Placed(body, at + 2, LowerSteps(steps, n).code)
    requires Placed(body, at + 2 + |LowerSteps(steps, n).code|, [Jump(loop)])
    ensures Simulated(m, body, p, at, Some(end), Some(loop), fuel, AfterSteps(m, steps, d), w, c) && !AfterSteps(m, steps, d).Normal?
  {
    hide *;
    SimulatedFacts(m, body, p, at, Some(end), Some(step), fuel, d, u, k);
    AfterStepsIs(m, steps, d);
    PlacedTwo(body, at, LoopBoundary(step, end, false), Label(step));
    SaneHomes(m, body, s, p.store);
    LabelAt(body, at + 1, step);
    if d.Normal? || d.Continued? {
      if d.Normal? { OverMark(m, body, p, at, u, d.trace, k, LoopBoundary(step, end, false)); }
      OverLabel(m, body, p, at + 1, u, d.trace, k, step);
      var q := Point(at + 2, u, d.trace);
      ReadyWith(m, body, s, p.store, d.store, u);
      var r := ExecSteps(m, steps, d.store, d.trace);
      var e := LowerSteps(steps, n);
      var j;
      w, j := StepsRun(m, body, q, steps, n, d.store);
      Then(m, body, p, q, Point(q.at + |e.code|, w, r.trace), k, j);
      JumpsOn(m, body, p, q.at + |e.code|, w, r.trace, k + j, loop);
      c := k + j + 1;
      ContinuedIs(m, body, p, at, Some(end), Some(loop), fuel, r.store, r.trace, d.fuel, w, c);
    } else {
      w, c := u, k;
      OtherContinue(m, body, p, at, Some(end), Some(step), Some(loop), fuel, d, w, c);
    }
  }
}
