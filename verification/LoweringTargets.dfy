/** Every branch in lowered code has its label there (cc/ir.py:360-635, 893-948), so
    that lowered code is fit for the passes that follow. */
module LoweringTargets {
  import opened Common
  import opened IR
  import opened Cfg
  import opened Lowering
  import opened LoweringLabels

  function Lands(code: Body): set<string> { set k | 0 <= k < |code| && code[k].Label? :: code[k].name }

  /** The branches of `code` go to its own labels or to those in `x`, and its labels
      are the builder's. */
  ghost predicate Closed(code: Body, x: set<string>) {
    && (forall k :: 0 <= k < |code| && Branches(code[k]) ==> code[k].target in Lands(code) + x)
    && (forall k :: 0 <= k < |code| && code[k].Label? ==> code[k].name != "" && code[k].name[0] == '.')
  }

  lemma LandsBoth(a: Body, b: Body)
    ensures Lands(a + b) == Lands(a) + Lands(b)
  {
    var c := a + b;
    forall x | x in Lands(a) + Lands(b) ensures x in Lands(c) {
      if x in Lands(a) {
        var k :| 0 <= k < |a| && a[k].Label? && a[k].name == x;
        assert c[k] == a[k];
      } else {
        var k :| 0 <= k < |b| && b[k].Label? && b[k].name == x;
        assert c[|a| + k] == b[k];
      }
    }
  }

  /** Two pieces; what one aims at may lie in the other. */
  lemma Both(a: Body, xa: set<string>, b: Body, xb: set<string>, x: set<string>)
    requires Closed(a, xa) && Closed(b, xb) && xa + xb <= Lands(a) + Lands(b) + x
    ensures Closed(a + b, x) && Lands(a + b) == Lands(a) + Lands(b)
  {
    LandsBoth(a, b);
    hide Lands;
  }

  /** Straight-line code. */
  ghost predicate Plain(code: Body) {
    forall k :: 0 <= k < |code| ==> !Branches(code[k]) && !code[k].Label?
  }

  lemma PlainClosed(code: Body)
    requires Plain(code)
    ensures Closed(code, {}) && Lands(code) == {}
  {
  }

  lemma JumpClosed(i: Instruction)
    requires Branches(i)
    ensures Closed([i], {i.target}) && Lands([i]) == {}
  {
  }

  lemma LabelClosed(tag: string, n: nat)
    ensures Closed([Label(LabelName(tag, n))], {}) && Lands([Label(LabelName(tag, n))]) == {LabelName(tag, n)}
  {
    var code := [Label(LabelName(tag, n))];
    assert code[0].name in Lands(code);
    assert LabelName(tag, n)[0] == '.';
    hide LabelName;
  }

  // ----- Expressions -----

  lemma {:induction false} ExprTargets(e: Expr, n: nat)
    ensures Closed(LowerExpr(e, n).code, {})
    decreases e, if ShortCircuit(e) then 1 else 0
  {
    hide Closed, LabelName, TempName, Lands;
    match e
    case Int(_) => PlainClosed([]);
    case Var(_) => PlainClosed([]);
    case Binary(op, l, r) =>
      var a := LowerExpr(l, n);
      var b := LowerExpr(r, a.next);
      ExprTargets(l, n);
      ExprTargets(r, a.next);
      Both(a.code, {}, b.code, {}, {});
      var last := [BinaryOperation(TempName(b.next), a.value, op, b.value)];
      PlainClosed(last);
      Both(a.code + b.code, {}, last, {}, {});
    case CallOf(f, args) =>
      var a := LowerArgs(args, n);
      ArgsTargets(args, n);
      var last := [Call(f, a.values, Some(TempName(a.next)))];
      PlainClosed(last);
      Both(a.code, {}, last, {}, {});
    case And(_, _) => BitTargets(e, n);
    case Or(_, _) => BitTargets(e, n);
  }

  lemma {:induction false} BitTargets(e: Expr, n: nat)
    requires ShortCircuit(e)
    ensures Closed(LowerExpr(e, n).code, {})
    decreases e, 1, 0
  {
    hide Closed, LabelName, TempName, Lands;
    var temp, yes, end := TempName(n), LabelName("btrue", n + 1), LabelName("bend", n + 2);
    var c := LowerTrue(e, yes, n + 3);
    TrueTargets(e, yes, n + 3);
    var zero, one := [Copy(temp, Literal(0))], [Copy(temp, Literal(1))];
    PlainClosed(zero);
    PlainClosed(one);
    JumpClosed(Jump(end));
    LabelClosed("btrue", n + 1);
    LabelClosed("bend", n + 2);
    Both(one, {}, [Label(end)], {}, {});
    Both([Label(yes)], {}, one + [Label(end)], {}, {});
    var tail := [Label(yes)] + (one + [Label(end)]);
    Both([Jump(end)], {end}, tail, {}, {});
    Both(zero, {}, [Jump(end)] + tail, {}, {});
    Both(c.code, {yes}, zero + ([Jump(end)] + tail), {}, {});
    assert zero + ([Jump(end)] + tail) == [Copy(temp, Literal(0)), Jump(end), Label(yes), Copy(temp, Literal(1)), Label(end)];
  }

  lemma {:induction false} ArgsTargets(args: seq<Expr>, n: nat)
    ensures Closed(LowerArgs(args, n).code, {})
    decreases args, 0
  {
    hide Closed, LowerExpr, Lands;
    if args == [] {
      PlainClosed([]);
    } else {
      var init, last := args[..|args| - 1], args[|args| - 1];
      var a := LowerArgs(init, n);
      ArgsTargets(init, n);
      ExprTargets(last, a.next);
      Both(a.code, {}, LowerExpr(last, a.next).code, {}, {});
    }
  }

  /** Two pieces and a branch behind them. */
  lemma BranchTargets(a: Body, b: Body, i: Instruction)
    requires Closed(a, {}) && Closed(b, {}) && Branches(i)
    ensures Closed(a + b + [i], {i.target})
  {
    JumpClosed(i);
    hide Closed, Lands;
    Both(a, {}, b, {}, {});
    Both(a + b, {}, [i], {i.target}, {i.target});
  }

  lemma {:induction false} FalseTargets(e: Expr, target: string, n: nat)
    ensures Closed(LowerFalse(e, target, n).code, {target})
    decreases e, if ShortCircuit(e) then 0 else 1
  {
    hide Closed, LabelName, LowerExpr, LowerTrue, Lands;
    if e.And? {
      var a := LowerFalse(e.left, target, n);
      FalseTargets(e.left, target, n);
      FalseTargets(e.right, target, a.next);
      Both(a.code, {target}, LowerFalse(e.right, target, a.next).code, {target}, {target});
    } else if e.Or? {
      var skip := LabelName("lor", n);
      var a := LowerTrue(e.left, skip, n + 1);
      var b := LowerFalse(e.right, target, a.next);
      TrueTargets(e.left, skip, n + 1);
      FalseTargets(e.right, target, a.next);
      LabelClosed("lor", n);
      Both(a.code, {skip}, b.code, {target}, {skip, target});
      Both(a.code + b.code, {skip, target}, [Label(skip)], {}, {target});
    } else if e.Binary? && IsComparison(e.operation) {
      var a := LowerExpr(e.left, n);
      var b := LowerExpr(e.right, a.next);
      ExprTargets(e.left, n);
      ExprTargets(e.right, a.next);
      BranchTargets(a.code, b.code, BranchFalse(a.value, e.operation, b.value, target));
    } else {
      var a := LowerExpr(e, n);
      ExprTargets(e, n);
      PlainClosed([]);
      BranchTargets(a.code, [], BranchFalse(a.value, "!=", Literal(0), target));
      assert a.code + [] == a.code;
    }
  }

  lemma {:induction false} TrueTargets(e: Expr, target: string, n: nat)
    ensures Closed(LowerTrue(e, target, n).code, {target})
    decreases e, if ShortCircuit(e) then 0 else 1
  {
    hide Closed, LabelName, LowerExpr, LowerFalse, Lands;
    if e.Or? {
      var a := LowerTrue(e.left, target, n);
      TrueTargets(e.left, target, n);
      TrueTargets(e.right, target, a.next);
      Both(a.code, {target}, LowerTrue(e.right, target, a.next).code, {target}, {target});
    } else if e.And? {
      var skip := LabelName("land", n);
      var a := LowerFalse(e.left, skip, n + 1);
      var b := LowerTrue(e.right, target, a.next);
      FalseTargets(e.left, skip, n + 1);
      TrueTargets(e.right, target, a.next);
      LabelClosed("land", n);
      Both(a.code, {skip}, b.code, {target}, {skip, target});
      Both(a.code + b.code, {skip, target}, [Label(skip)], {}, {target});
    } else if e.Binary? && IsComparison(e.operation) {
      var a := LowerExpr(e.left, n);
      var b := LowerExpr(e.right, a.next);
      ExprTargets(e.left, n);
      ExprTargets(e.right, a.next);
      BranchTargets(a.code, b.code, BranchFalse(a.value, Inverted(e.operation), b.value, target));
    } else {
      var a := LowerExpr(e, n);
      ExprTargets(e, n);
      PlainClosed([]);
      BranchTargets(a.code, [], BranchFalse(a.value, "==", Literal(0), target));
      assert a.code + [] == a.code;
    }
  }

  lemma TestTargets(test: Option<Expr>, target: string, n: nat)
    ensures Closed(LowerTest(test, target, n).code, {target})
  {
    PlainClosed([]);
    if test.Some? { FalseTargets(test.value, target, n); }
    Wider([], {}, {target});
    hide Closed, LowerFalse;
  }

  lemma Wider(code: Body, x: set<string>, y: set<string>)
    requires Closed(code, x) && x <= y
    ensures Closed(code, y)
  {
  }

  lemma {:induction false} StepsTargets(steps: seq<StepItem>, n: nat)
    ensures Closed(LowerSteps(steps, n).code, {})
    decreases |steps|
  {
    hide Closed, LowerExpr, TempName, Lands;
    if steps == [] {
      PlainClosed([]);
    } else {
      var item := steps[0];
      var a := LowerExpr(item.value, n);
      ExprTargets(item.value, n);
      if item.Update? {
        var last := [Copy(TempName(a.next), a.value), Copy(item.name, Name(TempName(a.next)))];
        PlainClosed(last);
        Both(a.code, {}, last, {}, {});
      }
      var first := LowerStep(item, n);
      StepsTargets(steps[1..], first.next);
      Both(first.code, {}, LowerSteps(steps[1..], first.next).code, {}, {});
    }
  }

  // ----- Statements -----

  /** The labels of the loop around, if any. */
  function Around(brk: Option<string>, cont: Option<string>): set<string> {
    (if brk.Some? then {brk.value} else {}) + (if cont.Some? then {cont.value} else {})
  }

  lemma {:induction false} AllTargets(ss: seq<Statement>, brk: Option<string>, cont: Option<string>, n: nat)
    ensures Closed(LowerAll(ss, brk, cont, n).code, Around(brk, cont))
    decreases ss, 0
  {
    hide Closed, LowerStatement, Lands;
    var x := Around(brk, cont);
    if ss == [] {
      PlainClosed([]);
      Wider([], {}, x);
    } else {
      var a := LowerStatement(ss[0], brk, cont, n);
      StatementTargets(ss[0], brk, cont, n);
      AllTargets(ss[1..], brk, cont, a.next);
      Both(a.code, x, LowerAll(ss[1..], brk, cont, a.next).code, x, x);
    }
  }

  /** Some code and one straight-line instruction. */
  lemma ThenPlain(code: Body, i: Instruction, x: set<string>)
    requires Closed(code, {}) && !Branches(i) && !i.Label?
    ensures Closed(code + [i], x)
  {
    PlainClosed([i]);
    hide Closed, Lands;
    Both(code, {}, [i], {}, x);
  }

  lemma JumpToClosed(target: Option<string>, x: set<string>)
    requires target.Some? ==> target.value in x
    ensures Closed(JumpTo(target), x)
  {
  }

  lemma {:induction false} StatementTargets(st: Statement, brk: Option<string>, cont: Option<string>, n: nat)
    ensures Closed(LowerStatement(st, brk, cont, n).code, Around(brk, cont))
    decreases st, 1
  {
    hide Closed, LowerExpr, LowerArgs, LowerAll, LowerIf, LowerIfElse, LowerWhile, LowerDoWhile, LowerForLoop, Lands, LeafValue;
    var x := Around(brk, cont);
    PlainClosed([]);
    match st
    case Assign(v, e) =>
      ExprTargets(e, n);
      ThenPlain(LowerExpr(e, n).code, Copy(v, LowerExpr(e, n).value), x);
      if SelfModify(v, e) {
        ThenPlain([], BinaryOperation(v, Name(v), e.operation, LeafValue(e.right)), x);
        assert [] + [BinaryOperation(v, Name(v), e.operation, LeafValue(e.right))] == [BinaryOperation(v, Name(v), e.operation, LeafValue(e.right))];
      }
    case Perform(f, args) =>
      ArgsTargets(args, n);
      ThenPlain(LowerArgs(args, n).code, Call(f, LowerArgs(args, n).values, None), x);
    case If(_, _) => IfTargets(st, brk, cont, n);
    case IfElse(_, _, _) => IfElseTargets(st, brk, cont, n);
    case While(_, _) => WhileTargets(st, n, x);
    case DoWhile(_, _) => DoWhileTargets(st, n, x);
    case For(init, _, _, _) =>
      var a := LowerAll(init, None, None, n);
      AllTargets(init, None, None, n);
      assert Around(None, None) == {};
      ForTargets(st, a.next);
      Both(a.code, {}, LowerForLoop(st, a.next).code, {}, x);
    case Break => JumpToClosed(brk, x);
    case Continue => JumpToClosed(cont, x);
    case Compound(body) => AllTargets(body, brk, cont, n);
    case GiveBack(result) =>
      ThenPlain([], Return(None), x);
      assert [] + [Return(None)] == [Return(None)];
      if result.Some? {
        ExprTargets(result.value, n);
        ThenPlain(LowerExpr(result.value, n).code, Return(Some(LowerExpr(result.value, n).value)), x);
      }
  }

  lemma IfTargets(st: Statement, brk: Option<string>, cont: Option<string>, n: nat)
    requires st.If?
    ensures Closed(LowerIf(st, brk, cont, n).code, Around(brk, cont))
    decreases st, 0
  {
    hide Closed, LowerFalse, LowerAll, LabelName, Lands, Around;
    var x, end := Around(brk, cont), LabelName("endif", n);
    var a := LowerFalse(st.cond, end, n + 1);
    var b := LowerAll(st.body, brk, cont, a.next);
    FalseTargets(st.cond, end, n + 1);
    AllTargets(st.body, brk, cont, a.next);
    LabelClosed("endif", n);
    Both(b.code, x, [Label(end)], {}, x);
    Both(a.code, {end}, b.code + [Label(end)], x, x);
  }

  lemma IfElseTargets(st: Statement, brk: Option<string>, cont: Option<string>, n: nat)
    requires st.IfElse?
    ensures Closed(LowerIfElse(st, brk, cont, n).code, Around(brk, cont))
    decreases st, 0
  {
    hide Closed, LowerFalse, LowerAll, LabelName, Lands, Around;
    var x, otherwise, end := Around(brk, cont), LabelName("else", n), LabelName("endif", n + 1);
    var a := LowerFalse(st.cond, otherwise, n + 2);
    var b := LowerAll(st.body, brk, cont, a.next);
    var d := LowerAll(st.other, brk, cont, b.next);
    FalseTargets(st.cond, otherwise, n + 2);
    AllTargets(st.body, brk, cont, a.next);
    AllTargets(st.other, brk, cont, b.next);
    LabelClosed("else", n);
    LabelClosed("endif", n + 1);
    JumpClosed(Jump(end));
    Both(d.code, x, [Label(end)], {}, x);
    var t1 := d.code + [Label(end)];
    Both([Jump(end)], {end}, [Label(otherwise)], {}, {end});
    assert [Jump(end)] + [Label(otherwise)] == [Jump(end), Label(otherwise)];
    Both([Jump(end), Label(otherwise)], {end}, t1, x, x);
    var t2 := [Jump(end), Label(otherwise)] + t1;
    Both(b.code, x, t2, x, x);
    Both(a.code, {otherwise}, b.code + t2, x, x);
  }

  lemma WhileTargets(st: Statement, n: nat, x: set<string>)
    requires st.While?
    ensures Closed(LowerWhile(st, n).code, x)
    decreases st, 0
  {
    hide Closed, LowerTest, LowerAll, LabelName, Lands;
    var loop, end := LabelName("wloop", n), LabelName("wend", n + 1);
    var a := LowerTest(Some(st.cond), end, n + 2);
    var b := LowerAll(st.body, Some(end), Some(loop), a.next);
    TestTargets(Some(st.cond), end, n + 2);
    AllTargets(st.body, Some(end), Some(loop), a.next);
    LabelClosed("wloop", n);
    LabelClosed("wend", n + 1);
    LoopTail(loop, end, loop, "wend", n + 1);
    var tail := [LoopBoundary(loop, end, false), Jump(loop), Label(end)];
    assert Around(Some(end), Some(loop)) == {end, loop};
    Both(b.code, {end, loop}, tail, {loop}, {loop});
    PlainClosed([LoopBoundary(loop, end, true)]);
    Both([LoopBoundary(loop, end, true)], {}, b.code + tail, {loop}, {loop});
    var t := [LoopBoundary(loop, end, true)] + (b.code + tail);
    Both(a.code, {end}, t, {loop}, {loop});
    Both([Label(loop)], {}, a.code + t, {loop}, x);
  }

  /** A mark, a jump back and the label behind the loop. */
  lemma LoopTail(loop: string, end: string, mark: string, tag: string, n: nat)
    requires end == LabelName(tag, n)
    ensures Closed([LoopBoundary(mark, end, false), Jump(loop), Label(end)], {loop}) && Lands([LoopBoundary(mark, end, false), Jump(loop), Label(end)]) == {end}
  {
    hide Closed, Lands, LabelName;
    PlainClosed([LoopBoundary(mark, end, false)]);
    JumpClosed(Jump(loop));
    LabelClosed(tag, n);
    Both([Jump(loop)], {loop}, [Label(end)], {}, {loop});
    Both([LoopBoundary(mark, end, false)], {}, [Jump(loop)] + [Label(end)], {loop}, {loop});
    assert [LoopBoundary(mark, end, false)] + ([Jump(loop)] + [Label(end)]) == [LoopBoundary(mark, end, false), Jump(loop), Label(end)];
  }

  /** A mark and a label. */
  lemma MarkAndLabel(mark: Instruction, tag: string, n: nat)
    requires mark.LoopBoundary?
    ensures Closed([mark, Label(LabelName(tag, n))], {}) && Lands([mark, Label(LabelName(tag, n))]) == {LabelName(tag, n)}
    ensures Closed([Label(LabelName(tag, n)), mark], {}) && Lands([Label(LabelName(tag, n)), mark]) == {LabelName(tag, n)}
  {
    hide Closed, Lands, LabelName;
    var name := Label(LabelName(tag, n));
    PlainClosed([mark]);
    LabelClosed(tag, n);
    Both([mark], {}, [name], {}, {});
    Both([name], {}, [mark], {}, {});
    assert [mark] + [name] == [mark, name] && [name] + [mark] == [name, mark];
  }

  lemma DoWhileTargets(st: Statement, n: nat, x: set<string>)
    requires st.DoWhile?
    ensures Closed(LowerDoWhile(st, n).code, x)
    decreases st, 0
  {
    hide Closed, LowerTrue, LowerAll, LabelName, Lands;
    var loop, again, end := LabelName("dloop", n), LabelName("dcond", n + 1), LabelName("dend", n + 2);
    var b := LowerAll(st.body, Some(end), Some(again), n + 3);
    var a := LowerTrue(st.cond, loop, b.next);
    AllTargets(st.body, Some(end), Some(again), n + 3);
    TrueTargets(st.cond, loop, b.next);
    LabelClosed("dend", n + 2);
    MarkAndLabel(LoopBoundary(again, end, true), "dloop", n);
    MarkAndLabel(LoopBoundary(again, end, false), "dcond", n + 1);
    Both(a.code, {loop}, [Label(end)], {}, {loop});
    var t := [LoopBoundary(again, end, false), Label(again)] + (a.code + [Label(end)]);
    Both([LoopBoundary(again, end, false), Label(again)], {}, a.code + [Label(end)], {loop}, {loop});
    assert Around(Some(end), Some(again)) == {end, again};
    Both(b.code, {end, again}, t, {loop}, {loop});
    Both([Label(loop), LoopBoundary(again, end, true)], {}, b.code + t, {loop}, x);
  }

  lemma ForTargets(st: Statement, n: nat)
    requires st.For?
    ensures Closed(LowerForLoop(st, n).code, {})
    decreases st, 0
  {
    hide Closed, LowerTest, LowerAll, LowerSteps, LabelName, Lands;
    var loop, step, end := LabelName("floop", n), LabelName("fstep", n + 1), LabelName("fend", n + 2);
    var a := LowerTest(st.test, end, n + 3);
    var b := LowerAll(st.body, Some(end), Some(step), a.next);
    var d := LowerSteps(st.step, b.next);
    TestTargets(st.test, end, n + 3);
    AllTargets(st.body, Some(end), Some(step), a.next);
    StepsTargets(st.step, b.next);
    LabelClosed("floop", n);
    LabelClosed("fend", n + 2);
    JumpClosed(Jump(loop));
    MarkAndLabel(LoopBoundary(step, end, false), "fstep", n + 1);
    Both([Jump(loop)], {loop}, [Label(end)], {}, {loop});
    assert [Jump(loop)] + [Label(end)] == [Jump(loop), Label(end)];
    Both(d.code, {}, [Jump(loop), Label(end)], {loop}, {loop});
    var t1 := d.code + [Jump(loop), Label(end)];
    Both([LoopBoundary(step, end, false), Label(step)], {}, t1, {loop}, {loop});
    var t2 := [LoopBoundary(step, end, false), Label(step)] + t1;
    assert Around(Some(end), Some(step)) == {end, step};
    Both(b.code, {end, step}, t2, {loop}, {loop});
    PlainClosed([LoopBoundary(step, end, true)]);
    Both([LoopBoundary(step, end, true)], {}, b.code + t2, {loop}, {loop});
    var t3 := [LoopBoundary(step, end, true)] + (b.code + t2);
    Both(a.code, {end}, t3, {loop}, {loop});
    Both([Label(loop)], {}, a.code + t3, {loop}, {});
  }

  lemma ClosedIsDefined(code: Body)
    requires Closed(code, {})
    ensures TargetsDefined(code) && NoReservedLabels(code)
  {
    forall k | 0 <= k < |code| && Branches(code[k]) ensures Label(code[k].target) in code {
      var j :| 0 <= j < |code| && code[j].Label? && code[j].name == code[k].target;
      assert code[j] == Label(code[k].target);
    }
  }

  /** Lowered code is well formed: distinct labels, none with the reserved prefix, and
      every target defined. */
  lemma LoweredWellFormed(ss: seq<Statement>, n: nat)
    ensures WellFormed(LowerAll(ss, None, None, n).code)
  {
    AllTargets(ss, None, None, n);
    LoweredUnique(ss, n);
    ClosedIsDefined(LowerAll(ss, None, None, n).code);
    hide Closed, LowerAll, TargetsDefined, NoReservedLabels, UniqueLabels;
  }
}
