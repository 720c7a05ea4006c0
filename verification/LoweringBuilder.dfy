/** The builder (cc/ir.py:142-155, 252-263): a counter for fresh names and a
    growing list of instructions.  What it builds for a function body runs as
    the body does. */
module LoweringBuilder {
  import opened Common
  import opened IR
  import opened Cfg
  import opened SsaNames
  import opened Lowering
  import opened LoweringLabels
  import opened LoweringTargets
  import opened LoweringMeaning
  import opened LoweringStatements

  // ----- A whole body -----

  /** The result of running lowered code, as the source ended. */
  ghost predicate Agrees(m: Machine, d: Done, r: Result) {
    match d
    case Normal(s, tr, _) => r.Finished? && r.outcome == None && r.trace == tr && Matches(m, s, r.store)
    case Returned(v, s, tr) => r.Finished? && r.outcome == v && r.trace == tr && Matches(m, s, r.store)
    case Spent(tr) => r == Exhausted(tr)
    case _ => false
  }

  lemma BodyPlaced(body: Body, s: Store)
    ensures Placed(body, 0, body) && Point(0, s, []).at + |body| == |body|
  {
    assert body[0..0 + |body|] == body;
  }

  lemma StartsReady(m: Machine, body: Body, s: Store)
    requires SaneMachine(m) && UniqueLabels(body)
    ensures Ready(m, body, s, s)
  {
  }

  lemma EndReached(m: Machine, body: Body, s: Store, u: Store, tr: seq<Event>, k: nat)
    requires Reaches(m, body, Point(0, s, []), Point(|body|, u, tr), k)
    ensures Run(m, body, s, k) == Finished(None, u, tr)
  {
    ReachesWith(m, body, Point(0, s, []), Point(|body|, u, tr), k, 0);
    assert body[0..] == body && body[|body|..] == [];
  }

  lemma EndIs(m: Machine, body: Body, s: Store, fuel: nat, d: Done, u: Store, k: nat)
    requires Simulated(m, body, Point(0, s, []), |body|, None, None, fuel, d, u, k)
    ensures Agrees(m, d, Run(m, body, s, k)) && (d.Spent? ==> k >= fuel)
  {
    hide Reaches, Matches, Eval, Landed;
    assert body[0..] == body;
    if d.Normal? { EndReached(m, body, s, u, d.trace, k); }
  }

  /** Whatever the source does within `fuel` loop iterations, the code does with
      some number of transfers: it ends with the same result, the same variables
      and the same calls; and if the source is still looping, the code has made
      the same calls and at least `fuel` transfers. */
  lemma LoweringPreserves(m: Machine, ss: seq<Statement>, n: nat, s: Store, fuel: nat) returns (k: nat)
    requires SaneMachine(m) && CleanAll(ss, false)
    ensures var d := ExecAll(m, ss, s, [], fuel);
      Agrees(m, d, Run(m, LowerAll(ss, None, None, n).code, s, k)) && (d.Spent? ==> k >= fuel)
  {
    hide *;
    var body := LowerAll(ss, None, None, n).code;
    LoweredUnique(ss, n);
    StartsReady(m, body, s);
    BodyPlaced(body, s);
    NoTargets();
    var u;
    u, k := AllRun(m, body, Point(0, s, []), ss, false, None, None, n, s, fuel);
    EndIs(m, body, s, fuel, ExecAll(m, ss, s, [], fuel), u, k);
  }

  lemma RunsOn(m: Machine, body: Body, s: Store, fuel: nat, more: nat)
    requires fuel <= more
    ensures Extends(Run(m, body, s, fuel), Run(m, body, s, more))
  {
    MoreFuel(m, body, body, s, [], fuel, more);
    hide Eval;
  }

  lemma EndsTogether(m: Machine, d: Done, x: Result, y: Result, earlier: bool)
    requires Agrees(m, d, x) && y.Finished? && (d.Spent? ==> !earlier)
    requires if earlier then Extends(x, y) else Extends(y, x)
    ensures Agrees(m, d, y)
  {
    hide Matches;
  }

  /** And conversely: if the code ends after `k` transfers, the source ends within
      `k + 1` iterations, alike.  So one diverges exactly when the other does. */
  lemma LoweringReflects(m: Machine, ss: seq<Statement>, n: nat, s: Store, k: nat)
    requires SaneMachine(m) && CleanAll(ss, false)
    requires Run(m, LowerAll(ss, None, None, n).code, s, k).Finished?
    ensures Agrees(m, ExecAll(m, ss, s, [], k + 1), Run(m, LowerAll(ss, None, None, n).code, s, k))
  {
    hide *;
    var body := LowerAll(ss, None, None, n).code;
    var j := LoweringPreserves(m, ss, n, s, k + 1);
    var d := ExecAll(m, ss, s, [], k + 1);
    if j <= k { RunsOn(m, body, s, j, k); } else { RunsOn(m, body, s, k, j); }
    EndsTogether(m, d, Run(m, body, s, j), Run(m, body, s, k), j <= k);
  }

  ghost predicate Follows(m: Machine, ss: seq<Statement>, code: Body, s: Store, fuel: nat) {
    exists k: nat :: Agrees(m, ExecAll(m, ss, s, [], fuel), Run(m, code, s, k)) && (ExecAll(m, ss, s, [], fuel).Spent? ==> k >= fuel)
  }

  /** The code does what the statements do, from every store. */
  ghost predicate RunsLike(m: Machine, ss: seq<Statement>, code: Body) {
    forall s: Store, fuel: nat :: Follows(m, ss, code, s, fuel)
  }

  lemma LoweredRunsLike(ss: seq<Statement>, n: nat)
    requires CleanAll(ss, false)
    ensures forall m :: SaneMachine(m) ==> RunsLike(m, ss, LowerAll(ss, None, None, n).code)
  {
    hide Agrees, ExecAll, Run, LowerAll, SaneMachine, CleanAll;
    forall m, s: Store, fuel: nat | SaneMachine(m) ensures Follows(m, ss, LowerAll(ss, None, None, n).code, s, fuel) {
      var k := LoweringPreserves(m, ss, n, s, fuel);
    }
  }

  lemma CallCodeIs(e: Expr, n: nat)
    requires e.CallOf?
    ensures var a := LowerArgs(e.args, n);
      LowerExpr(e, n) == ExprCode(a.code + [Call(e.callee, a.values, Some(TempName(a.next)))], Name(TempName(a.next)), a.next + 1)
  {
  }

  lemma ArgsShape(args: seq<Expr>, n: nat)
    ensures args == [] ==> LowerArgs(args, n) == ArgsCode([], [], n)
    ensures args != [] ==>
      var a := LowerArgs(args[..|args| - 1], n); var b := LowerExpr(args[|args| - 1], a.next);
      LowerArgs(args, n) == ArgsCode(a.code + b.code, a.values + [b.value], b.next)
  {
  }

  // ----- The builder -----

  class Builder {
    var counter: nat
    var out: Body

    constructor (start: nat)
      ensures counter == start && out == []
    {
      counter, out := start, [];
    }

    method Temp() returns (name: string)
      modifies this
      ensures name == TempName(old(counter)) && counter == old(counter) + 1 && out == old(out)
    {
      name := "_ir_" + Decimal(counter);
      counter := counter + 1;
    }

    method NewLabel(tag: string) returns (name: string)
      modifies this
      ensures name == LabelName(tag, old(counter)) && counter == old(counter) + 1 && out == old(out)
    {
      name := "._ir_" + tag + Decimal(counter);
      counter := counter + 1;
    }

    method BuildExpr(e: Expr) returns (v: Value)
      modifies this
      ensures var c := LowerExpr(e, old(counter)); out == old(out) + c.code && counter == c.next && v == c.value
      decreases e, if ShortCircuit(e) then 1 else 0
    {
      hide TempName, LabelName;
      match e
      case Int(n) => v := Literal(n);
      case Var(x) => v := Name(x);
      case Binary(_, _, _) => v := BuildBinary(e);
      case CallOf(f, args) => v := BuildCall(e);
      case _ => v := BuildBit(e);
    }

    method BuildBinary(e: Expr) returns (v: Value)
      requires e.Binary?
      modifies this
      ensures var c := LowerExpr(e, old(counter)); out == old(out) + c.code && counter == c.next && v == c.value
      decreases e, 0, 0
    {
      ghost var was, a := out, LowerExpr(e.left, counter);
      ghost var b := LowerExpr(e.right, a.next);
      BinaryIs(e, counter);
      hide *;
      var l := BuildExpr(e.left);
      var r := BuildExpr(e.right);
      var temp := Temp();
      Associative(was, a.code, b.code);
      Associative(was, a.code + b.code, [BinaryOperation(temp, l, e.operation, r)]);
      out := out + [BinaryOperation(temp, l, e.operation, r)];
      v := Name(temp);
    }

    method BuildCall(e: Expr) returns (v: Value)
      requires e.CallOf?
      modifies this
      ensures var c := LowerExpr(e, old(counter)); out == old(out) + c.code && counter == c.next && v == c.value
      decreases e, 0, 0
    {
      ghost var was, a := out, LowerArgs(e.args, counter);
      CallCodeIs(e, counter);
      hide *;
      var values := BuildArgs(e.args);
      var temp := Temp();
      Associative(was, a.code, [Call(e.callee, values, Some(temp))]);
      out := out + [Call(e.callee, values, Some(temp))];
      v := Name(temp);
    }

    /** `&&` and `||` as values. */
    method BuildBit(e: Expr) returns (v: Value)
      requires ShortCircuit(e)
      modifies this
      ensures var c := LowerExpr(e, old(counter)); out == old(out) + c.code && counter == c.next && v == c.value
      decreases e, 1, 0
    {
      hide TempName, LabelName, LowerTrue;
      var temp := Temp();
      var yes := NewLabel("btrue");
      var end := NewLabel("bend");
      CondTrue(e, yes);
      out := out + [Copy(temp, Literal(0)), Jump(end), Label(yes), Copy(temp, Literal(1)), Label(end)];
      v := Name(temp);
    }

    method BuildArgs(args: seq<Expr>) returns (values: seq<Value>)
      modifies this
      ensures var c := LowerArgs(args, old(counter)); out == old(out) + c.code && counter == c.next && values == c.values
      decreases args, 0
    {
      hide LowerExpr, LowerArgs;
      ArgsShape(args, counter);
      values := [];
      if args != [] {
        ghost var was := out;
        ghost var a := LowerArgs(args[..|args| - 1], counter);
        values := BuildArgs(args[..|args| - 1]);
        var v := BuildExpr(args[|args| - 1]);
        Associative(was, a.code, LowerExpr(args[|args| - 1], a.next).code);
        values := values + [v];
      }
    }

    /** Jumps to `target` when `e` is false. */
    method CondFalse(e: Expr, target: string)
      modifies this
      ensures var c := LowerFalse(e, target, old(counter)); out == old(out) + c.code && counter == c.next
      decreases e, if ShortCircuit(e) then 0 else 1
    {
      hide TempName, LabelName, LowerExpr, LowerTrue;
      if e.And? {
        CondFalse(e.left, target);
        CondFalse(e.right, target);
      } else if e.Or? {
        var skip := NewLabel("lor");
        CondTrue(e.left, skip);
        CondFalse(e.right, target);
        out := out + [Label(skip)];
      } else if e.Binary? && IsComparison(e.operation) {
        var l := BuildExpr(e.left);
        var r := BuildExpr(e.right);
        out := out + [BranchFalse(l, e.operation, r, target)];
      } else {
        var v := BuildExpr(e);
        out := out + [BranchFalse(v, "!=", Literal(0), target)];
      }
    }

    /** Jumps to `target` when `e` is true. */
    method CondTrue(e: Expr, target: string)
      modifies this
      ensures var c := LowerTrue(e, target, old(counter)); out == old(out) + c.code && counter == c.next
      decreases e, if ShortCircuit(e) then 0 else 1
    {
      hide TempName, LabelName, LowerExpr, LowerFalse;
      if e.Or? {
        CondTrue(e.left, target);
        CondTrue(e.right, target);
      } else if e.And? {
        var skip := NewLabel("land");
        CondFalse(e.left, skip);
        CondTrue(e.right, target);
        out := out + [Label(skip)];
      } else if e.Binary? && IsComparison(e.operation) {
        var l := BuildExpr(e.left);
        var r := BuildExpr(e.right);
        out := out + [BranchFalse(l, Inverted(e.operation), r, target)];
      } else {
        var v := BuildExpr(e);
        out := out + [BranchFalse(v, "==", Literal(0), target)];
      }
    }

    method BuildTest(test: Option<Expr>, target: string)
      modifies this
      ensures var c := LowerTest(test, target, old(counter)); out == old(out) + c.code && counter == c.next
    {
      if test.Some? && !ConstantTrue(test.value) { CondFalse(test.value, target); }
    }

    method BuildAssign(x: string, e: Expr)
      modifies this
      ensures var c := LowerAssign(x, e, old(counter)); out == old(out) + c.code && counter == c.next
    {
      hide LowerExpr;
      if SelfModify(x, e) {
        out := out + [BinaryOperation(x, Name(x), e.operation, LeafValue(e.right))];
      } else {
        var v := BuildExpr(e);
        out := out + [Copy(x, v)];
      }
    }

    method BuildStep(item: StepItem)
      modifies this
      ensures var c := LowerStep(item, old(counter)); out == old(out) + c.code && counter == c.next
    {
      hide LowerExpr, TempName;
      var v := BuildExpr(item.value);
      if item.Update? {
        var temp := Temp();
        out := out + [Copy(temp, v)];
        out := out + [Copy(item.name, Name(temp))];
      }
    }

    method BuildSteps(steps: seq<StepItem>)
      modifies this
      ensures var c := LowerSteps(steps, old(counter)); out == old(out) + c.code && counter == c.next
      decreases |steps|
    {
      hide LowerStep;
      if steps != [] {
        BuildStep(steps[0]);
        BuildSteps(steps[1..]);
      }
    }

    method BuildAll(ss: seq<Statement>, brk: Option<string>, cont: Option<string>)
      modifies this
      ensures var c := LowerAll(ss, brk, cont, old(counter)); out == old(out) + c.code && counter == c.next
      decreases ss, 0
    {
      hide LowerStatement;
      if ss != [] {
        BuildStatement(ss[0], brk, cont);
        BuildAll(ss[1..], brk, cont);
      }
    }

    method BuildStatement(st: Statement, brk: Option<string>, cont: Option<string>)
      modifies this
      ensures var c := LowerStatement(st, brk, cont, old(counter)); out == old(out) + c.code && counter == c.next
      decreases st, 1
    {
      hide LowerExpr, LowerArgs, LowerAssign, LowerIf, LowerIfElse, LowerWhile, LowerDoWhile, LowerForLoop, LowerAll;
      match st
      case Assign(x, e) => BuildAssign(x, e);
      case Perform(f, args) =>
        var values := BuildArgs(args);
        out := out + [Call(f, values, None)];
      case If(_, _) => BuildIf(st, brk, cont);
      case IfElse(_, _, _) => BuildIfElse(st, brk, cont);
      case While(_, _) => BuildWhile(st);
      case DoWhile(_, _) => BuildDoWhile(st);
      case For(init, _, _, _) =>
        BuildAll(init, None, None);
        BuildForLoop(st);
      case Break => out := out + JumpTo(brk);
      case Continue => out := out + JumpTo(cont);
      case Compound(body) => BuildAll(body, brk, cont);
      case GiveBack(result) =>
        if result.None? {
          out := out + [Return(None)];
        } else {
          var v := BuildExpr(result.value);
          out := out + [Return(Some(v))];
        }
    }

    method BuildIf(st: Statement, brk: Option<string>, cont: Option<string>)
      requires st.If?
      modifies this
      ensures var c := LowerIf(st, brk, cont, old(counter)); out == old(out) + c.code && counter == c.next
      decreases st, 0
    {
      hide LabelName, LowerFalse, LowerAll;
      var end := NewLabel("endif");
      CondFalse(st.cond, end);
      BuildAll(st.body, brk, cont);
      out := out + [Label(end)];
    }

    method BuildIfElse(st: Statement, brk: Option<string>, cont: Option<string>)
      requires st.IfElse?
      modifies this
      ensures var c := LowerIfElse(st, brk, cont, old(counter)); out == old(out) + c.code && counter == c.next
      decreases st, 0
    {
      hide LabelName, LowerFalse, LowerAll;
      var otherwise := NewLabel("else");
      var end := NewLabel("endif");
      CondFalse(st.cond, otherwise);
      BuildAll(st.body, brk, cont);
      out := out + [Jump(end), Label(otherwise)];
      BuildAll(st.other, brk, cont);
      out := out + [Label(end)];
    }

    method BuildWhile(st: Statement)
      requires st.While?
      modifies this
      ensures var c := LowerWhile(st, old(counter)); out == old(out) + c.code && counter == c.next
      decreases st, 0
    {
      hide LabelName, LowerTest, LowerAll;
      var loop := NewLabel("wloop");
      var end := NewLabel("wend");
      out := out + [Label(loop)];
      BuildTest(Some(st.cond), end);
      out := out + [LoopBoundary(loop, end, true)];
      BuildAll(st.body, Some(end), Some(loop));
      out := out + [LoopBoundary(loop, end, false), Jump(loop), Label(end)];
    }

    method BuildDoWhile(st: Statement)
      requires st.DoWhile?
      modifies this
      ensures var c := LowerDoWhile(st, old(counter)); out == old(out) + c.code && counter == c.next
      decreases st, 0
    {
      hide LabelName, LowerTrue, LowerAll;
      var loop := NewLabel("dloop");
      var again := NewLabel("dcond");
      var end := NewLabel("dend");
      out := out + [Label(loop), LoopBoundary(again, end, true)];
      BuildAll(st.body, Some(end), Some(again));
      out := out + [LoopBoundary(again, end, false), Label(again)];
      CondTrue(st.cond, loop);
      out := out + [Label(end)];
    }

    method BuildForLoop(st: Statement)
      requires st.For?
      modifies this
      ensures var c := LowerForLoop(st, old(counter)); out == old(out) + c.code && counter == c.next
      decreases st, 0
    {
      hide LabelName, LowerTest, LowerAll, LowerSteps;
      var loop := NewLabel("floop");
      var step := NewLabel("fstep");
      var end := NewLabel("fend");
      out := out + [Label(loop)];
      BuildTest(st.test, end);
      out := out + [LoopBoundary(step, end, true)];
      BuildAll(st.body, Some(end), Some(step));
      out := out + [LoopBoundary(step, end, false), Label(step)];
      BuildSteps(st.step);
      out := out + [Jump(loop), Label(end)];
    }

    /** The code of a function body: no label twice, a label for every branch, and on
        every machine it runs as the body does. */
    method BuildFunction(ss: seq<Statement>)
      modifies this
      ensures WellFormed(out) && out == LowerAll(ss, None, None, old(counter)).code
      ensures CleanAll(ss, false) ==> forall m :: SaneMachine(m) ==> RunsLike(m, ss, out)
    {
      hide *;
      out := [];
      ghost var n := counter;
      BuildAll(ss, None, None);
      assert out == LowerAll(ss, None, None, n).code;
      LoweredWellFormed(ss, n);
      if CleanAll(ss, false) { LoweredRunsLike(ss, n); }
    }
  }
}
