/** In lowered code every temporary is written before it is read, on every way
    through it; so lowered code is orderly. */
module LoweringQuiet {
  import opened Common
  import opened IR
  import opened Cfg
  import opened Lowering
  import opened LoweringLabels
  import opened LoweringMeaning
  import opened FirstReads
  import opened LoweringOrderly
  import S = ScalarPipeline
  import F = ControlFlow
  import O = ScalarMeaning
  import L = LoweringStatements

  // ----- Ways through a body -----

  ghost predicate MayAt(body: Body, at: int, x: string, f: nat) {
    0 <= at <= |body| && MayRead(body, body[at..], x, f)
  }

  ghost predicate MayGo(body: Body, target: string, x: string, f: nat) {
    f > 0 && MayRead(body, F.From(body, target), x, f - 1)
  }

  ghost predicate MayOut(body: Body, target: Option<string>, x: string, f: nat) {
    target.Some? && MayGo(body, target.value, x, f)
  }

  lemma {:induction false} MoreBranches(body: Body, rest: Body, x: string, f: nat, more: nat)
    requires f <= more && MayRead(body, rest, x, f)
    ensures MayRead(body, rest, x, more)
    decreases f, |rest|
  {
    var i := rest[0];
    if Branches(i) && f > 0 && MayRead(body, F.From(body, i.target), x, f - 1) { MoreBranches(body, F.From(body, i.target), x, f - 1, more - 1); }
    if MayRead(body, rest[1..], x, f) { MoreBranches(body, rest[1..], x, f, more); }
    hide Uses, Defs, F.From;
  }

  /** One instruction. */
  lemma Step(body: Body, at: int, x: string, f: nat)
    requires 0 <= at < |body| && MayAt(body, at, x, f)
    ensures var i := body[at];
      x in Uses(i) || (x !in Defs(i) && ((Branches(i) && MayGo(body, i.target, x, f)) || (!F.Unconditional(i) && MayAt(body, at + 1, x, f))))
  {
    assert body[at..] == [body[at]] + body[at + 1..];
    MayReadCons(body, body[at], body[at + 1..], x, f);
    hide MayRead, Uses, Defs, F.From;
  }

  /** Landing on a label. */
  lemma Land(body: Body, at: int, name: string, x: string, f: nat)
    requires UniqueLabels(body) && Placed(body, at, [Label(name)]) && MayGo(body, name, x, f)
    ensures MayAt(body, at, x, f)
  {
    assert body[at..at + 1][0] == body[at];
    LabelIndexIs(body, at);
    MoreBranches(body, body[at..], x, f - 1, f);
  }

  /** The first instruction of a piece. */
  lemma PlacedFirst(body: Body, at: int, i: Instruction, rest: Body)
    requires Placed(body, at, [i] + rest)
    ensures 0 <= at < |body| && body[at] == i && Placed(body, at + 1, rest)
  {
    assert ([i] + rest)[0] == i;
    assert body[at..at + 1 + |rest|][0] == body[at];
    assert body[at + 1..at + 1 + |rest|] == ([i] + rest)[1..];
  }

  lemma PlacedOne(body: Body, at: int, i: Instruction)
    requires Placed(body, at, [i])
    ensures 0 <= at < |body| && body[at] == i
  {
    assert [i] == [i] + [];
    PlacedFirst(body, at, i, []);
  }

  /** Over a label or a mark. */
  lemma Over(body: Body, at: int, i: Instruction, x: string, f: nat)
    requires Placed(body, at, [i]) && (i.Label? || i.LoopBoundary?)
    ensures MayAt(body, at, x, f) ==> MayAt(body, at + 1, x, f)
  {
    PlacedOne(body, at, i);
    if MayAt(body, at, x, f) { Step(body, at, x, f); }
    hide MayAt, MayGo;
  }

  lemma OverJump(body: Body, at: int, target: string, x: string, f: nat)
    requires Placed(body, at, [Jump(target)])
    ensures MayAt(body, at, x, f) ==> MayGo(body, target, x, f)
  {
    PlacedOne(body, at, Jump(target));
    if MayAt(body, at, x, f) { Step(body, at, x, f); }
    hide MayAt, MayGo;
  }

  /** Over an instruction that falls through and does not read `x`. */
  lemma OverPlain(body: Body, at: int, i: Instruction, x: string, f: nat)
    requires Placed(body, at, [i]) && !Branches(i) && x !in Uses(i)
    ensures MayAt(body, at, x, f) ==> x !in Defs(i) && !F.Unconditional(i) && MayAt(body, at + 1, x, f)
  {
    PlacedOne(body, at, i);
    if MayAt(body, at, x, f) { Step(body, at, x, f); }
    hide MayAt, MayGo, Uses, Defs;
  }

  lemma OverBranch(body: Body, at: int, i: Instruction, x: string, f: nat)
    requires Placed(body, at, [i]) && i.BranchFalse? && x !in Uses(i)
    ensures MayAt(body, at, x, f) ==> MayAt(body, at + 1, x, f) || MayGo(body, i.target, x, f)
  {
    PlacedOne(body, at, i);
    if MayAt(body, at, x, f) { Step(body, at, x, f); }
    hide MayAt, MayGo, Uses, Defs;
  }

  // ----- Expressions -----

  lemma ShortIs(e: Expr)
    ensures ShortCircuit(e) <==> e.And? || e.Or?
  {
  }

  lemma OrdinaryIs(e: Expr)
    requires Ordinary(e)
    ensures e.Var? ==> !S.IsTemp(e.name)
    ensures e.Binary? ==> Ordinary(e.left) && Ordinary(e.right)
    ensures e.CallOf? ==> OrdinaryArgs(e.args)
  {
  }

  lemma LowerExprIs(e: Expr, n: nat)
    ensures e.Int? ==> LowerExpr(e, n) == ExprCode([], Literal(e.n), n)
    ensures e.Var? ==> LowerExpr(e, n) == ExprCode([], Name(e.name), n)
    ensures e.Binary? ==> var a := LowerExpr(e.left, n); var b := LowerExpr(e.right, a.next); var t := TempName(b.next);
      LowerExpr(e, n) == ExprCode(a.code + b.code + [BinaryOperation(t, a.value, e.operation, b.value)], Name(t), b.next + 1)
    ensures e.CallOf? ==> var a := LowerArgs(e.args, n); var t := TempName(a.next);
      LowerExpr(e, n) == ExprCode(a.code + [Call(e.callee, a.values, Some(t))], Name(t), a.next + 1)
  {
  }

  /** What an operation or a call reads and writes. */
  lemma OperandsOf(i: Instruction, x: string)
    ensures i.BinaryOperation? && i.left != Name(x) && i.right != Name(x) ==> x !in Uses(i) && Defs(i) == {i.destination} && !Branches(i)
    ensures i.Call? && i.result.Some? && x !in NamesOfAll(i.args) ==> x !in Uses(i) && Defs(i) == {i.result.value} && !Branches(i)
  {
  }

  lemma {:induction false} ExprQuiet(body: Body, at: int, e: Expr, n: nat, x: string, f: nat)
    requires UniqueLabels(body) && Placed(body, at, LowerExpr(e, n).code) && Ordinary(e) && S.IsTemp(x) && MayAt(body, at, x, f)
    ensures MayAt(body, at + |LowerExpr(e, n).code|, x, f) && LowerExpr(e, n).value != Name(x)
    decreases e, if ShortCircuit(e) then 1 else 0
  {
    hide *;
    LowerExprIs(e, n);
    match e
    case Int(_) => OrdinaryIs(e); return;
    case Var(_) => OrdinaryIs(e); return;
    case Binary(op, l, r) =>
      OrdinaryIs(e);
      var a := LowerExpr(l, n);
      var b := LowerExpr(r, a.next);
      var last := BinaryOperation(TempName(b.next), a.value, op, b.value);
      PlacedBoth(body, at, a.code + b.code, [last]);
      PlacedBoth(body, at, a.code, b.code);
      ExprQuiet(body, at, l, n, x, f);
      ExprQuiet(body, at + |a.code|, r, a.next, x, f);
      OperandsOf(last, x);
      OverPlain(body, at + |a.code| + |b.code|, last, x, f);
    case CallOf(g, args) =>
      OrdinaryIs(e);
      var a := LowerArgs(args, n);
      var last := Call(g, a.values, Some(TempName(a.next)));
      PlacedBoth(body, at, a.code, [last]);
      ArgsQuiet(body, at, args, n, x, f);
      NotAmong(a.values, x);
      OperandsOf(last, x);
      OverPlain(body, at + |a.code|, last, x, f);
    case And(_, _) => ShortIs(e); BitQuiet(body, at, e, n, x, f);
    case Or(_, _) => ShortIs(e); BitQuiet(body, at, e, n, x, f);
  }

  lemma NotAmong(vs: seq<Value>, x: string)
    requires forall k :: 0 <= k < |vs| ==> vs[k] != Name(x)
    ensures x !in NamesOfAll(vs)
  {
  }

  lemma NoUses(t: string, k: int)
    ensures Uses(Copy(t, Literal(k))) == {} && Defs(Copy(t, Literal(k))) == {t} && !Branches(Copy(t, Literal(k)))
  {
  }

  lemma BitCodeIs(e: Expr, n: nat)
    requires ShortCircuit(e)
    ensures var temp, yes, end := TempName(n), LabelName("btrue", n + 1), LabelName("bend", n + 2); var c := LowerTrue(e, yes, n + 3);
      && LowerExpr(e, n).code == c.code + ([Copy(temp, Literal(0))] + ([Jump(end)] + ([Label(yes)] + ([Copy(temp, Literal(1))] + [Label(end)]))))
      && |LowerExpr(e, n).code| == |c.code| + 5 && LowerExpr(e, n).value == Name(temp)
  {
    hide LowerTrue, LabelName, TempName;
    var temp, yes, end := TempName(n), LabelName("btrue", n + 1), LabelName("bend", n + 2);
    assert [Copy(temp, Literal(0))] + ([Jump(end)] + ([Label(yes)] + ([Copy(temp, Literal(1))] + [Label(end)])))
      == [Copy(temp, Literal(0)), Jump(end), Label(yes), Copy(temp, Literal(1)), Label(end)];
  }

  /** Where the pieces of a boolean value stand. */
  lemma BitPlaces(body: Body, at: int, e: Expr, n: nat) returns (p: int)
    requires ShortCircuit(e) && Placed(body, at, LowerExpr(e, n).code)
    ensures var temp, yes, end := TempName(n), LabelName("btrue", n + 1), LabelName("bend", n + 2);
      && Placed(body, at, LowerTrue(e, yes, n + 3).code) && p == at + |LowerTrue(e, yes, n + 3).code|
      && Placed(body, p, [Copy(temp, Literal(0))]) && Placed(body, p + 1, [Jump(end)]) && Placed(body, p + 2, [Label(yes)])
      && Placed(body, p + 3, [Copy(temp, Literal(1))]) && Placed(body, p + 4, [Label(end)])
      && p + 5 == at + |LowerExpr(e, n).code| && LowerExpr(e, n).value == Name(temp)
  {
    hide *;
    var temp, yes, end := TempName(n), LabelName("btrue", n + 1), LabelName("bend", n + 2);
    var c := LowerTrue(e, yes, n + 3);
    var zero, one := [Copy(temp, Literal(0))], [Copy(temp, Literal(1))];
    BitCodeIs(e, n);
    p := at + |c.code|;
    L.PlacedAround(body, at, c.code, zero, [Jump(end)], [Label(yes)], one + [Label(end)]);
    PlacedBoth(body, p + 3, one, [Label(end)]);
  }

  /** Both ways through the end of a boolean value write its temporary. */
  lemma BitTail(body: Body, p: int, temp: string, yes: string, end: string, x: string, f: nat)
    requires UniqueLabels(body) && (MayAt(body, p, x, f) || MayGo(body, yes, x, f))
    requires Placed(body, p, [Copy(temp, Literal(0))]) && Placed(body, p + 1, [Jump(end)]) && Placed(body, p + 2, [Label(yes)])
    requires Placed(body, p + 3, [Copy(temp, Literal(1))]) && Placed(body, p + 4, [Label(end)])
    ensures MayAt(body, p + 5, x, f) && x != temp
  {
    hide *;
    NoUses(temp, 0);
    NoUses(temp, 1);
    if MayAt(body, p, x, f) {
      OverPlain(body, p, Copy(temp, Literal(0)), x, f);
      OverJump(body, p + 1, end, x, f);
      Land(body, p + 4, end, x, f);
    } else {
      Land(body, p + 2, yes, x, f);
      Over(body, p + 2, Label(yes), x, f);
      OverPlain(body, p + 3, Copy(temp, Literal(1)), x, f);
    }
    Over(body, p + 4, Label(end), x, f);
  }

  lemma {:induction false} BitQuiet(body: Body, at: int, e: Expr, n: nat, x: string, f: nat)
    requires UniqueLabels(body) && ShortCircuit(e) && Placed(body, at, LowerExpr(e, n).code) && Ordinary(e) && S.IsTemp(x) && MayAt(body, at, x, f)
    ensures MayAt(body, at + |LowerExpr(e, n).code|, x, f) && LowerExpr(e, n).value != Name(x)
    decreases e, 1, 0
  {
    hide *;
    var temp, yes, end := TempName(n), LabelName("btrue", n + 1), LabelName("bend", n + 2);
    var p := BitPlaces(body, at, e, n);
    TrueQuiet(body, at, e, yes, n + 3, x, f);
    BitTail(body, p, temp, yes, end, x, f);
  }

  lemma {:induction false} ArgsQuiet(body: Body, at: int, args: seq<Expr>, n: nat, x: string, f: nat)
    requires UniqueLabels(body) && Placed(body, at, LowerArgs(args, n).code) && OrdinaryArgs(args) && S.IsTemp(x) && MayAt(body, at, x, f)
    ensures MayAt(body, at + |LowerArgs(args, n).code|, x, f) && forall k :: 0 <= k < |LowerArgs(args, n).values| ==> LowerArgs(args, n).values[k] != Name(x)
    decreases args, 0
  {
    hide MayAt, UniqueLabels, Placed, LowerExpr, S.IsTemp, Ordinary;
    if args != [] {
      var init, last := args[..|args| - 1], args[|args| - 1];
      var a := LowerArgs(init, n);
      var b := LowerExpr(last, a.next);
      PlacedBoth(body, at, a.code, b.code);
      ArgsQuiet(body, at, init, n, x, f);
      ExprQuiet(body, at + |a.code|, last, a.next, x, f);
    }
  }

  lemma {:induction false} FalseQuiet(body: Body, at: int, e: Expr, target: string, n: nat, x: string, f: nat)
    requires UniqueLabels(body) && Placed(body, at, LowerFalse(e, target, n).code) && Ordinary(e) && S.IsTemp(x) && MayAt(body, at, x, f)
    ensures MayAt(body, at + |LowerFalse(e, target, n).code|, x, f) || MayGo(body, target, x, f)
    decreases e, if ShortCircuit(e) then 0 else 2
  {
    hide MayAt, MayGo, UniqueLabels, Placed, LabelName, LowerExpr, LowerTrue, S.IsTemp;
    if e.And? {
      var a := LowerFalse(e.left, target, n);
      var b := LowerFalse(e.right, target, a.next);
      PlacedBoth(body, at, a.code, b.code);
      FalseQuiet(body, at, e.left, target, n, x, f);
      if MayAt(body, at + |a.code|, x, f) { FalseQuiet(body, at + |a.code|, e.right, target, a.next, x, f); }
    } else if e.Or? {
      var skip := LabelName("lor", n);
      var a := LowerTrue(e.left, skip, n + 1);
      var b := LowerFalse(e.right, target, a.next);
      PlacedBoth(body, at, a.code + b.code, [Label(skip)]);
      PlacedBoth(body, at, a.code, b.code);
      TrueQuiet(body, at, e.left, skip, n + 1, x, f);
      if MayAt(body, at + |a.code|, x, f) { FalseQuiet(body, at + |a.code|, e.right, target, a.next, x, f); }
      if MayGo(body, skip, x, f) { Land(body, at + |a.code| + |b.code|, skip, x, f); }
      Over(body, at + |a.code| + |b.code|, Label(skip), x, f);
    } else if e.Binary? && IsComparison(e.operation) {
      CompareQuiet(body, at, e, e.operation, target, n, x, f);
    } else {
      TestedQuiet(body, at, e, "!=", target, n, x, f);
    }
  }

  /** A comparison and its branch. */
  lemma {:induction false} CompareQuiet(body: Body, at: int, e: Expr, op: string, target: string, n: nat, x: string, f: nat)
    requires e.Binary? && UniqueLabels(body) && Ordinary(e) && S.IsTemp(x) && MayAt(body, at, x, f)
    requires var a := LowerExpr(e.left, n); var b := LowerExpr(e.right, a.next); Placed(body, at, a.code + b.code + [BranchFalse(a.value, op, b.value, target)])
    ensures var a := LowerExpr(e.left, n); var b := LowerExpr(e.right, a.next); MayAt(body, at + |a.code| + |b.code| + 1, x, f) || MayGo(body, target, x, f)
    decreases e, 0
  {
    hide MayAt, MayGo, UniqueLabels, Placed, LowerExpr, S.IsTemp;
    var a := LowerExpr(e.left, n);
    var b := LowerExpr(e.right, a.next);
    var last := BranchFalse(a.value, op, b.value, target);
    PlacedBoth(body, at, a.code + b.code, [last]);
    PlacedBoth(body, at, a.code, b.code);
    ExprQuiet(body, at, e.left, n, x, f);
    ExprQuiet(body, at + |a.code|, e.right, a.next, x, f);
    OverBranch(body, at + |a.code| + |b.code|, last, x, f);
  }

  /** A value tested against zero. */
  lemma {:induction false} TestedQuiet(body: Body, at: int, e: Expr, op: string, target: string, n: nat, x: string, f: nat)
    requires !ShortCircuit(e) && UniqueLabels(body) && Ordinary(e) && S.IsTemp(x) && MayAt(body, at, x, f)
    requires Placed(body, at, LowerExpr(e, n).code + [BranchFalse(LowerExpr(e, n).value, op, Literal(0), target)])
    ensures MayAt(body, at + |LowerExpr(e, n).code| + 1, x, f) || MayGo(body, target, x, f)
    decreases e, 1
  {
    hide MayAt, MayGo, UniqueLabels, Placed, LowerExpr, S.IsTemp;
    var a := LowerExpr(e, n);
    var last := BranchFalse(a.value, op, Literal(0), target);
    PlacedBoth(body, at, a.code, [last]);
    ExprQuiet(body, at, e, n, x, f);
    OverBranch(body, at + |a.code|, last, x, f);
  }

  lemma {:induction false} TrueQuiet(body: Body, at: int, e: Expr, target: string, n: nat, x: string, f: nat)
    requires UniqueLabels(body) && Placed(body, at, LowerTrue(e, target, n).code) && Ordinary(e) && S.IsTemp(x) && MayAt(body, at, x, f)
    ensures MayAt(body, at + |LowerTrue(e, target, n).code|, x, f) || MayGo(body, target, x, f)
    decreases e, if ShortCircuit(e) then 0 else 2
  {
    hide MayAt, MayGo, UniqueLabels, Placed, LabelName, LowerExpr, LowerFalse, S.IsTemp;
    if e.Or? {
      var a := LowerTrue(e.left, target, n);
      var b := LowerTrue(e.right, target, a.next);
      PlacedBoth(body, at, a.code, b.code);
      TrueQuiet(body, at, e.left, target, n, x, f);
      if MayAt(body, at + |a.code|, x, f) { TrueQuiet(body, at + |a.code|, e.right, target, a.next, x, f); }
    } else if e.And? {
      var skip := LabelName("land", n);
      var a := LowerFalse(e.left, skip, n + 1);
      var b := LowerTrue(e.right, target, a.next);
      PlacedBoth(body, at, a.code + b.code, [Label(skip)]);
      PlacedBoth(body, at, a.code, b.code);
      FalseQuiet(body, at, e.left, skip, n + 1, x, f);
      if MayAt(body, at + |a.code|, x, f) { TrueQuiet(body, at + |a.code|, e.right, target, a.next, x, f); }
      if MayGo(body, skip, x, f) { Land(body, at + |a.code| + |b.code|, skip, x, f); }
      Over(body, at + |a.code| + |b.code|, Label(skip), x, f);
    } else if e.Binary? && IsComparison(e.operation) {
      CompareQuiet(body, at, e, Inverted(e.operation), target, n, x, f);
    } else {
      TestedQuiet(body, at, e, "==", target, n, x, f);
    }
  }

  lemma TestQuiet(body: Body, at: int, test: Option<Expr>, target: string, n: nat, x: string, f: nat)
    requires UniqueLabels(body) && Placed(body, at, LowerTest(test, target, n).code) && (test.Some? ==> Ordinary(test.value)) && S.IsTemp(x) && MayAt(body, at, x, f)
    ensures MayAt(body, at + |LowerTest(test, target, n).code|, x, f) || MayGo(body, target, x, f)
  {
    hide MayAt, MayGo, UniqueLabels, Placed, LowerFalse, S.IsTemp, Ordinary;
    if test.Some? && !ConstantTrue(test.value) { FalseQuiet(body, at, test.value, target, n, x, f); }
  }

  lemma {:induction false} StepsQuiet(body: Body, at: int, steps: seq<StepItem>, n: nat, x: string, f: nat)
    requires UniqueLabels(body) && Placed(body, at, LowerSteps(steps, n).code) && OrdinarySteps(steps) && S.IsTemp(x) && MayAt(body, at, x, f)
    ensures MayAt(body, at + |LowerSteps(steps, n).code|, x, f)
    decreases |steps|
  {
    hide MayAt, UniqueLabels, Placed, LowerStep, S.IsTemp, OrdinaryStep;
    if steps != [] {
      var a := LowerStep(steps[0], n);
      PlacedBoth(body, at, a.code, LowerSteps(steps[1..], a.next).code);
      StepQuiet(body, at, steps[0], n, x, f);
      StepsQuiet(body, at + |a.code|, steps[1..], a.next, x, f);
    }
  }

  lemma StepQuiet(body: Body, at: int, item: StepItem, n: nat, x: string, f: nat)
    requires UniqueLabels(body) && Placed(body, at, LowerStep(item, n).code) && OrdinaryStep(item) && S.IsTemp(x) && MayAt(body, at, x, f)
    ensures MayAt(body, at + |LowerStep(item, n).code|, x, f)
  {
    hide MayAt, UniqueLabels, Placed, LowerExpr, S.IsTemp, Ordinary, TempName;
    var a := LowerExpr(item.value, n);
    if item.Update? {
      var one, two := Copy(TempName(a.next), a.value), Copy(item.name, Name(TempName(a.next)));
      assert [one, two] == [one] + [two];
      PlacedBoth(body, at, a.code, [one, two]);
      PlacedBoth(body, at + |a.code|, [one], [two]);
      ExprQuiet(body, at, item.value, n, x, f);
      OverPlain(body, at + |a.code|, one, x, f);
      OverPlain(body, at + |a.code| + 1, two, x, f);
    } else {
      ExprQuiet(body, at, item.value, n, x, f);
    }
  }

  // ----- Statements -----

  lemma {:induction false} AllQuiet(body: Body, at: int, ss: seq<Statement>, brk: Option<string>, cont: Option<string>, n: nat, x: string, f: nat)
    requires UniqueLabels(body) && Placed(body, at, LowerAll(ss, brk, cont, n).code) && OrdinaryAll(ss) && S.IsTemp(x) && MayAt(body, at, x, f)
    ensures MayAt(body, at + |LowerAll(ss, brk, cont, n).code|, x, f) || MayOut(body, brk, x, f) || MayOut(body, cont, x, f)
    decreases f, ss, 0
  {
    hide MayAt, MayOut, UniqueLabels, Placed, LowerStatement, S.IsTemp, OrdinaryStatement;
    if ss != [] {
      var a := LowerStatement(ss[0], brk, cont, n);
      PlacedBoth(body, at, a.code, LowerAll(ss[1..], brk, cont, a.next).code);
      StatementQuiet(body, at, ss[0], brk, cont, n, x, f);
      if MayAt(body, at + |a.code|, x, f) { AllQuiet(body, at + |a.code|, ss[1..], brk, cont, a.next, x, f); }
    }
  }

  lemma OutIs(body: Body, target: Option<string>, x: string, f: nat)
    ensures MayOut(body, target, x, f) <==> target.Some? && MayGo(body, target.value, x, f)
  {
  }

  lemma {:induction false} StatementQuiet(body: Body, at: int, st: Statement, brk: Option<string>, cont: Option<string>, n: nat, x: string, f: nat)
    requires UniqueLabels(body) && Placed(body, at, LowerStatement(st, brk, cont, n).code) && OrdinaryStatement(st) && S.IsTemp(x) && MayAt(body, at, x, f)
    ensures MayAt(body, at + |LowerStatement(st, brk, cont, n).code|, x, f) || MayOut(body, brk, x, f) || MayOut(body, cont, x, f)
    decreases f, st, 1
  {
    hide MayAt, MayGo, MayOut, UniqueLabels, Placed, S.IsTemp, LowerExpr, LowerArgs, LowerAll, LowerIf, LowerIfElse, LowerWhile, LowerDoWhile, LowerForLoop,
      Ordinary, OrdinaryAll, OrdinarySteps, OrdinaryArgs;
    match st
    case Assign(v, e) => AssignQuiet(body, at, v, e, n, x, f);
    case Perform(g, args) =>
      var a := LowerArgs(args, n);
      PlacedBoth(body, at, a.code, [Call(g, a.values, None)]);
      ArgsQuiet(body, at, args, n, x, f);
      NotAmong(a.values, x);
      OverPlain(body, at + |a.code|, Call(g, a.values, None), x, f);
    case If(_, _) => IfQuiet(body, at, st, brk, cont, n, x, f);
    case IfElse(_, _, _) => IfElseQuiet(body, at, st, brk, cont, n, x, f);
    case While(_, _) => WhileQuiet(body, at, st, n, x, f);
    case DoWhile(_, _) => DoWhileQuiet(body, at, st, n, x, f);
    case For(init, _, _, _) =>
      var a := LowerAll(init, None, None, n);
      PlacedBoth(body, at, a.code, LowerForLoop(st, a.next).code);
      AllQuiet(body, at, init, None, None, n, x, f);
      OutIs(body, None, x, f);
      ForQuiet(body, at + |a.code|, st, a.next, x, f);
    case Break =>
      OutIs(body, brk, x, f);
      if brk.Some? { OverJump(body, at, brk.value, x, f); }
    case Continue =>
      OutIs(body, cont, x, f);
      if cont.Some? { OverJump(body, at, cont.value, x, f); }
    case Compound(inner) => AllQuiet(body, at, inner, brk, cont, n, x, f);
    case GiveBack(result) =>
      if result.None? {
        OverPlain(body, at, Return(None), x, f);
      } else {
        var a := LowerExpr(result.value, n);
        PlacedBoth(body, at, a.code, [Return(Some(a.value))]);
        ExprQuiet(body, at, result.value, n, x, f);
        OverPlain(body, at + |a.code|, Return(Some(a.value)), x, f);
      }
  }

  lemma AssignQuiet(body: Body, at: int, v: string, e: Expr, n: nat, x: string, f: nat)
    requires UniqueLabels(body) && Placed(body, at, LowerAssign(v, e, n).code) && OrdinaryStatement(Assign(v, e)) && S.IsTemp(x) && MayAt(body, at, x, f)
    ensures MayAt(body, at + |LowerAssign(v, e, n).code|, x, f)
  {
    hide MayAt, UniqueLabels, Placed, S.IsTemp, LowerExpr;
    if SelfModify(v, e) {
      assert Ordinary(e.right);
      OverPlain(body, at, BinaryOperation(v, Name(v), e.operation, LeafValue(e.right)), x, f);
    } else {
      var a := LowerExpr(e, n);
      PlacedBoth(body, at, a.code, [Copy(v, a.value)]);
      hide Ordinary;
      ExprQuiet(body, at, e, n, x, f);
      OverPlain(body, at + |a.code|, Copy(v, a.value), x, f);
    }
  }

  lemma {:induction false} IfQuiet(body: Body, at: int, st: Statement, brk: Option<string>, cont: Option<string>, n: nat, x: string, f: nat)
    requires st.If? && UniqueLabels(body) && Placed(body, at, LowerIf(st, brk, cont, n).code) && OrdinaryStatement(st) && S.IsTemp(x) && MayAt(body, at, x, f)
    ensures MayAt(body, at + |LowerIf(st, brk, cont, n).code|, x, f) || MayOut(body, brk, x, f) || MayOut(body, cont, x, f)
    decreases f, st, 0
  {
    hide MayAt, MayGo, MayOut, UniqueLabels, Placed, S.IsTemp, LowerFalse, LowerAll, LabelName, Ordinary, OrdinaryAll;
    var end := LabelName("endif", n);
    var a := LowerFalse(st.cond, end, n + 1);
    var b := LowerAll(st.body, brk, cont, a.next);
    PlacedBoth(body, at, a.code, b.code + [Label(end)]);
    PlacedBoth(body, at + |a.code|, b.code, [Label(end)]);
    FalseQuiet(body, at, st.cond, end, n + 1, x, f);
    if MayAt(body, at + |a.code|, x, f) { AllQuiet(body, at + |a.code|, st.body, brk, cont, a.next, x, f); }
    if MayGo(body, end, x, f) { Land(body, at + |a.code| + |b.code|, end, x, f); }
    Over(body, at + |a.code| + |b.code|, Label(end), x, f);
  }

  lemma IfElseCodeIs(st: Statement, brk: Option<string>, cont: Option<string>, n: nat, a: Code, b: Code, d: Code)
    requires st.IfElse? && OrdinaryStatement(st)
    requires a == LowerFalse(st.cond, LabelName("else", n), n + 2) && b == LowerAll(st.body, brk, cont, a.next) && d == LowerAll(st.other, brk, cont, b.next)
    ensures var otherwise, end := LabelName("else", n), LabelName("endif", n + 1);
      LowerIfElse(st, brk, cont, n).code == a.code + (b.code + ([Jump(end)] + ([Label(otherwise)] + (d.code + [Label(end)]))))
    ensures |LowerIfElse(st, brk, cont, n).code| == |a.code| + |b.code| + |d.code| + 3 && Ordinary(st.cond) && OrdinaryAll(st.body) && OrdinaryAll(st.other)
  {
    hide LowerFalse, LowerAll, LabelName, Ordinary, OrdinaryAll;
    var otherwise, end := LabelName("else", n), LabelName("endif", n + 1);
    Pair(Jump(end), Label(otherwise), d.code + [Label(end)]);
  }

  lemma Pair(i: Instruction, j: Instruction, code: Body)
    ensures [i, j] + code == [i] + ([j] + code)
  {
  }

  /** Where the pieces of an `if` with an `else` stand. */
  lemma IfElsePlaces(body: Body, at: int, st: Statement, brk: Option<string>, cont: Option<string>, n: nat, a: Code, b: Code, d: Code) returns (p: int)
    requires st.IfElse? && Placed(body, at, LowerIfElse(st, brk, cont, n).code) && OrdinaryStatement(st)
    requires a == LowerFalse(st.cond, LabelName("else", n), n + 2) && b == LowerAll(st.body, brk, cont, a.next) && d == LowerAll(st.other, brk, cont, b.next)
    ensures var otherwise, end := LabelName("else", n), LabelName("endif", n + 1);
      && Placed(body, at, a.code) && Placed(body, at + |a.code|, b.code) && p == at + |a.code| + |b.code|
      && Placed(body, p, [Jump(end)]) && Placed(body, p + 1, [Label(otherwise)]) && Placed(body, p + 2, d.code) && Placed(body, p + 2 + |d.code|, [Label(end)])
      && p + 3 + |d.code| == at + |LowerIfElse(st, brk, cont, n).code| && Ordinary(st.cond) && OrdinaryAll(st.body) && OrdinaryAll(st.other)
  {
    hide *;
    var jump, other, last := [Jump(LabelName("endif", n + 1))], [Label(LabelName("else", n))], [Label(LabelName("endif", n + 1))];
    IfElseCodeIs(st, brk, cont, n, a, b, d);
    p := at + |a.code| + |b.code|;
    L.PlacedAround(body, at, a.code, b.code, jump, other, d.code + last);
    PlacedBoth(body, p + 2, d.code, last);
  }

  lemma {:induction false} IfElseQuiet(body: Body, at: int, st: Statement, brk: Option<string>, cont: Option<string>, n: nat, x: string, f: nat)
    requires st.IfElse? && UniqueLabels(body) && Placed(body, at, LowerIfElse(st, brk, cont, n).code) && OrdinaryStatement(st) && S.IsTemp(x) && MayAt(body, at, x, f)
    ensures MayAt(body, at + |LowerIfElse(st, brk, cont, n).code|, x, f) || MayOut(body, brk, x, f) || MayOut(body, cont, x, f)
    decreases f, st, 0
  {
    hide *;
    var otherwise, end := LabelName("else", n), LabelName("endif", n + 1);
    var a := LowerFalse(st.cond, otherwise, n + 2);
    var b := LowerAll(st.body, brk, cont, a.next);
    var d := LowerAll(st.other, brk, cont, b.next);
    var p := IfElsePlaces(body, at, st, brk, cont, n, a, b, d);
    FalseQuiet(body, at, st.cond, otherwise, n + 2, x, f);
    if MayGo(body, otherwise, x, f) {
      Land(body, p + 1, otherwise, x, f);
      Over(body, p + 1, Label(otherwise), x, f);
      AllQuiet(body, p + 2, st.other, brk, cont, b.next, x, f);
    } else {
      AllQuiet(body, at + |a.code|, st.body, brk, cont, a.next, x, f);
      OverJump(body, p, end, x, f);
      if MayGo(body, end, x, f) { Land(body, p + 2 + |d.code|, end, x, f); }
    }
    Over(body, p + 2 + |d.code|, Label(end), x, f);
  }

  lemma GoBack(body: Body, at: int, name: string, x: string, f: nat)
    requires UniqueLabels(body) && Placed(body, at, [Label(name)]) && MayGo(body, name, x, f)
    ensures f > 0 && MayAt(body, at, x, f - 1)
  {
    assert body[at..at + 1][0] == body[at];
    LabelIndexIs(body, at);
  }

  lemma LaterAt(body: Body, at: int, x: string, f: nat)
    requires f > 0 && MayAt(body, at, x, f - 1)
    ensures MayAt(body, at, x, f)
  {
    MoreBranches(body, body[at..], x, f - 1, f);
  }

  lemma WhileCodeIs(st: Statement, n: nat, a: Code, b: Code)
    requires st.While? && OrdinaryStatement(st) && a == LowerTest(Some(st.cond), LabelName("wend", n + 1), n + 2)
    requires b == LowerAll(st.body, Some(LabelName("wend", n + 1)), Some(LabelName("wloop", n)), a.next)
    ensures var loop, end := LabelName("wloop", n), LabelName("wend", n + 1);
      LowerWhile(st, n).code == [Label(loop)] + (a.code + ([LoopBoundary(loop, end, true)] + (b.code + ([LoopBoundary(loop, end, false)] + ([Jump(loop)] + [Label(end)])))))
    ensures |LowerWhile(st, n).code| == |a.code| + |b.code| + 5 && Ordinary(st.cond) && OrdinaryAll(st.body)
  {
    hide LowerTest, LowerAll, LabelName, Ordinary, OrdinaryAll;
    var loop, end := LabelName("wloop", n), LabelName("wend", n + 1);
    assert [LoopBoundary(loop, end, false), Jump(loop), Label(end)] == [LoopBoundary(loop, end, false)] + ([Jump(loop)] + [Label(end)]);
  }

  /** Where the pieces of a `while` loop stand. */
  lemma WhilePlaces(body: Body, at: int, st: Statement, n: nat, a: Code, b: Code) returns (p: int, q: int)
    requires st.While? && Placed(body, at, LowerWhile(st, n).code) && OrdinaryStatement(st)
    requires a == LowerTest(Some(st.cond), LabelName("wend", n + 1), n + 2)
    requires b == LowerAll(st.body, Some(LabelName("wend", n + 1)), Some(LabelName("wloop", n)), a.next)
    ensures var loop, end := LabelName("wloop", n), LabelName("wend", n + 1);
      && Placed(body, at, [Label(loop)]) && Placed(body, at + 1, a.code) && p == at + 1 + |a.code|
      && Placed(body, p, [LoopBoundary(loop, end, true)]) && Placed(body, p + 1, b.code) && q == p + 1 + |b.code|
      && Placed(body, q, [LoopBoundary(loop, end, false)]) && Placed(body, q + 1, [Jump(loop)]) && Placed(body, q + 2, [Label(end)])
      && q + 3 == at + |LowerWhile(st, n).code| && Ordinary(st.cond) && OrdinaryAll(st.body)
  {
    hide *;
    var loop, end := LabelName("wloop", n), LabelName("wend", n + 1);
    var mark, back, tail := [LoopBoundary(loop, end, true)], [LoopBoundary(loop, end, false)], [Jump(loop)] + [Label(end)];
    WhileCodeIs(st, n, a, b);
    p := at + 1 + |a.code|;
    q := p + 1 + |b.code|;
    var whole := [Label(loop)] + (a.code + (mark + (b.code + (back + tail))));
    assert LowerWhile(st, n).code == whole;
    L.PlacedAround(body, at, [Label(loop)], a.code, mark, b.code, back + tail);
    PlacedBoth(body, q, back, tail);
    PlacedBoth(body, q + 1, [Jump(loop)], [Label(end)]);
  }

  lemma {:induction false} WhileQuiet(body: Body, at: int, st: Statement, n: nat, x: string, f: nat)
    requires st.While? && UniqueLabels(body) && Placed(body, at, LowerWhile(st, n).code) && OrdinaryStatement(st) && S.IsTemp(x) && MayAt(body, at, x, f)
    ensures MayAt(body, at + |LowerWhile(st, n).code|, x, f)
    decreases f, st, 0
  {
    hide *;
    var loop, end := LabelName("wloop", n), LabelName("wend", n + 1);
    var a := LowerTest(Some(st.cond), end, n + 2);
    var b := LowerAll(st.body, Some(end), Some(loop), a.next);
    var p, q := WhilePlaces(body, at, st, n, a, b);
    Over(body, at, Label(loop), x, f);
    TestQuiet(body, at + 1, Some(st.cond), end, n + 2, x, f);
    Over(body, p, LoopBoundary(loop, end, true), x, f);
    if MayAt(body, p + 1, x, f) { AllQuiet(body, p + 1, st.body, Some(end), Some(loop), a.next, x, f); }
    OutIs(body, Some(end), x, f);
    OutIs(body, Some(loop), x, f);
    Over(body, q, LoopBoundary(loop, end, false), x, f);
    OverJump(body, q + 1, loop, x, f);
    if MayGo(body, end, x, f) {
      Land(body, q + 2, end, x, f);
      Over(body, q + 2, Label(end), x, f);
    } else {
      GoBack(body, at, loop, x, f);
      WhileQuiet(body, at, st, n, x, f - 1);
      LaterAt(body, q + 3, x, f);
    }
  }

  lemma DoWhileCodeIs(st: Statement, n: nat, a: Code, b: Code)
    requires st.DoWhile? && OrdinaryStatement(st)
    requires b == LowerAll(st.body, Some(LabelName("dend", n + 2)), Some(LabelName("dcond", n + 1)), n + 3)
    requires a == LowerTrue(st.cond, LabelName("dloop", n), b.next)
    ensures var loop, again, end := LabelName("dloop", n), LabelName("dcond", n + 1), LabelName("dend", n + 2);
      LowerDoWhile(st, n).code == [Label(loop)] + ([LoopBoundary(again, end, true)] + (b.code
        + ([LoopBoundary(again, end, false)] + ([Label(again)] + (a.code + [Label(end)])))))
    ensures |LowerDoWhile(st, n).code| == |a.code| + |b.code| + 5 && Ordinary(st.cond) && OrdinaryAll(st.body)
  {
    hide LowerTrue, LowerAll, LabelName, Ordinary, OrdinaryAll;
    var loop, again, end := LabelName("dloop", n), LabelName("dcond", n + 1), LabelName("dend", n + 2);
    Pair(LoopBoundary(again, end, false), Label(again), a.code + [Label(end)]);
    Pair(Label(loop), LoopBoundary(again, end, true), b.code + ([LoopBoundary(again, end, false), Label(again)] + (a.code + [Label(end)])));
  }

  /** Where the pieces of a `do` loop stand. */
  lemma DoWhilePlaces(body: Body, at: int, st: Statement, n: nat, a: Code, b: Code) returns (p: int, q: int)
    requires st.DoWhile? && Placed(body, at, LowerDoWhile(st, n).code) && OrdinaryStatement(st)
    requires b == LowerAll(st.body, Some(LabelName("dend", n + 2)), Some(LabelName("dcond", n + 1)), n + 3)
    requires a == LowerTrue(st.cond, LabelName("dloop", n), b.next)
    ensures var loop, again, end := LabelName("dloop", n), LabelName("dcond", n + 1), LabelName("dend", n + 2);
      && Placed(body, at, [Label(loop)]) && Placed(body, at + 1, [LoopBoundary(again, end, true)]) && Placed(body, at + 2, b.code) && p == at + 2 + |b.code|
      && Placed(body, p, [LoopBoundary(again, end, false)]) && Placed(body, p + 1, [Label(again)]) && Placed(body, p + 2, a.code) && q == p + 2 + |a.code|
      && Placed(body, q, [Label(end)]) && q + 1 == at + |LowerDoWhile(st, n).code| && Ordinary(st.cond) && OrdinaryAll(st.body)
  {
    hide *;
    var loop, again, end := LabelName("dloop", n), LabelName("dcond", n + 1), LabelName("dend", n + 2);
    var mark, mark', there := [LoopBoundary(again, end, true)], [LoopBoundary(again, end, false)], [Label(again)];
    DoWhileCodeIs(st, n, a, b);
    p := at + 2 + |b.code|;
    q := p + 2 + |a.code|;
    L.PlacedAround(body, at, [Label(loop)], mark, b.code, mark', there + (a.code + [Label(end)]));
    PlacedBoth(body, p + 1, there, a.code + [Label(end)]);
    PlacedBoth(body, p + 2, a.code, [Label(end)]);
  }

  lemma {:induction false} DoWhileQuiet(body: Body, at: int, st: Statement, n: nat, x: string, f: nat)
    requires st.DoWhile? && UniqueLabels(body) && Placed(body, at, LowerDoWhile(st, n).code) && OrdinaryStatement(st) && S.IsTemp(x) && MayAt(body, at, x, f)
    ensures MayAt(body, at + |LowerDoWhile(st, n).code|, x, f)
    decreases f, st, 0
  {
    hide *;
    var loop, again, end := LabelName("dloop", n), LabelName("dcond", n + 1), LabelName("dend", n + 2);
    var b := LowerAll(st.body, Some(end), Some(again), n + 3);
    var a := LowerTrue(st.cond, loop, b.next);
    var p, q := DoWhilePlaces(body, at, st, n, a, b);
    Over(body, at, Label(loop), x, f);
    Over(body, at + 1, LoopBoundary(again, end, true), x, f);
    AllQuiet(body, at + 2, st.body, Some(end), Some(again), n + 3, x, f);
    OutIs(body, Some(end), x, f);
    OutIs(body, Some(again), x, f);
    Over(body, p, LoopBoundary(again, end, false), x, f);
    if MayGo(body, again, x, f) { Land(body, p + 1, again, x, f); }
    Over(body, p + 1, Label(again), x, f);
    if MayAt(body, p + 2, x, f) { TrueQuiet(body, p + 2, st.cond, loop, b.next, x, f); }
    if MayGo(body, end, x, f) { Land(body, q, end, x, f); }
    if MayAt(body, q, x, f) {
      Over(body, q, Label(end), x, f);
    } else {
      GoBack(body, at, loop, x, f);
      DoWhileQuiet(body, at, st, n, x, f - 1);
      LaterAt(body, q + 1, x, f);
    }
  }

  lemma ForCodeIs(st: Statement, n: nat, a: Code, b: Code, d: Code)
    requires st.For? && OrdinaryStatement(st) && a == LowerTest(st.test, LabelName("fend", n + 2), n + 3)
    requires b == LowerAll(st.body, Some(LabelName("fend", n + 2)), Some(LabelName("fstep", n + 1)), a.next) && d == LowerSteps(st.step, b.next)
    ensures var loop, step, end := LabelName("floop", n), LabelName("fstep", n + 1), LabelName("fend", n + 2);
      LowerForLoop(st, n).code == [Label(loop)] + (a.code + ([LoopBoundary(step, end, true)] + (b.code
        + ([LoopBoundary(step, end, false)] + ([Label(step)] + (d.code + ([Jump(loop)] + [Label(end)])))))))
    ensures |LowerForLoop(st, n).code| == |a.code| + |b.code| + |d.code| + 6
    ensures (st.test.Some? ==> Ordinary(st.test.value)) && OrdinaryAll(st.body) && OrdinarySteps(st.step)
  {
    hide LowerTest, LowerAll, LowerSteps, LabelName, Ordinary, OrdinaryAll, OrdinarySteps;
    var loop, step, end := LabelName("floop", n), LabelName("fstep", n + 1), LabelName("fend", n + 2);
    Regroup(LoopBoundary(step, end, false), Label(step), d.code, Jump(loop), Label(end));
  }

  lemma Regroup(i: Instruction, j: Instruction, code: Body, k: Instruction, l: Instruction)
    ensures [i, j] + (code + [k, l]) == [i] + ([j] + (code + ([k] + [l])))
  {
    assert [k, l] == [k] + [l];
  }

  /** Where the pieces of a `for` loop stand. */
  lemma ForPlaces(body: Body, at: int, st: Statement, n: nat, a: Code, b: Code, d: Code) returns (p: int, q: int, r: int)
    requires st.For? && Placed(body, at, LowerForLoop(st, n).code) && OrdinaryStatement(st)
    requires a == LowerTest(st.test, LabelName("fend", n + 2), n + 3)
    requires b == LowerAll(st.body, Some(LabelName("fend", n + 2)), Some(LabelName("fstep", n + 1)), a.next) && d == LowerSteps(st.step, b.next)
    ensures var loop, step, end := LabelName("floop", n), LabelName("fstep", n + 1), LabelName("fend", n + 2);
      && Placed(body, at, [Label(loop)]) && Placed(body, at + 1, a.code) && p == at + 1 + |a.code|
      && Placed(body, p, [LoopBoundary(step, end, true)]) && Placed(body, p + 1, b.code) && q == p + 1 + |b.code|
      && Placed(body, q, [LoopBoundary(step, end, false)]) && Placed(body, q + 1, [Label(step)]) && Placed(body, q + 2, d.code) && r == q + 2 + |d.code|
      && Placed(body, r, [Jump(loop)]) && Placed(body, r + 1, [Label(end)]) && r + 2 == at + |LowerForLoop(st, n).code|
      && (st.test.Some? ==> Ordinary(st.test.value)) && OrdinaryAll(st.body) && OrdinarySteps(st.step)
  {
    hide *;
    var loop, step, end := LabelName("floop", n), LabelName("fstep", n + 1), LabelName("fend", n + 2);
    var mark, mark' := LoopBoundary(step, end, true), LoopBoundary(step, end, false);
    var t1 := d.code + ([Jump(loop)] + [Label(end)]);
    var t2 := [mark'] + ([Label(step)] + t1);
    ForCodeIs(st, n, a, b, d);
    p := at + 1 + |a.code|;
    q := p + 1 + |b.code|;
    r := q + 2 + |d.code|;
    L.PlacedAround(body, at, [Label(loop)], a.code, [mark], b.code, t2);
    PlacedBoth(body, q, [mark'], [Label(step)] + t1);
    PlacedBoth(body, q + 1, [Label(step)], t1);
    PlacedBoth(body, q + 2, d.code, [Jump(loop)] + [Label(end)]);
    PlacedBoth(body, r, [Jump(loop)], [Label(end)]);
  }

  lemma {:induction false} ForQuiet(body: Body, at: int, st: Statement, n: nat, x: string, f: nat)
    requires st.For? && UniqueLabels(body) && Placed(body, at, LowerForLoop(st, n).code) && OrdinaryStatement(st) && S.IsTemp(x) && MayAt(body, at, x, f)
    ensures MayAt(body, at + |LowerForLoop(st, n).code|, x, f)
    decreases f, st, 0
  {
    hide *;
    var loop, step, end := LabelName("floop", n), LabelName("fstep", n + 1), LabelName("fend", n + 2);
    var a := LowerTest(st.test, end, n + 3);
    var b := LowerAll(st.body, Some(end), Some(step), a.next);
    var d := LowerSteps(st.step, b.next);
    var p, q, r := ForPlaces(body, at, st, n, a, b, d);
    Over(body, at, Label(loop), x, f);
    TestQuiet(body, at + 1, st.test, end, n + 3, x, f);
    Over(body, p, LoopBoundary(step, end, true), x, f);
    if MayAt(body, p + 1, x, f) { AllQuiet(body, p + 1, st.body, Some(end), Some(step), a.next, x, f); }
    OutIs(body, Some(end), x, f);
    OutIs(body, Some(step), x, f);
    Over(body, q, LoopBoundary(step, end, false), x, f);
    if MayGo(body, step, x, f) { Land(body, q + 1, step, x, f); }
    Over(body, q + 1, Label(step), x, f);
    if MayAt(body, q + 2, x, f) { StepsQuiet(body, q + 2, st.step, b.next, x, f); }
    OverJump(body, r, loop, x, f);
    if MayGo(body, end, x, f) {
      Land(body, r + 1, end, x, f);
      Over(body, r + 1, Label(end), x, f);
    } else {
      GoBack(body, at, loop, x, f);
      ForQuiet(body, at, st, n, x, f - 1);
      LaterAt(body, r + 2, x, f);
    }
  }

  // ----- Lowered code is orderly -----

  lemma NoFirstReads(ss: seq<Statement>, n: nat, x: string)
    requires OrdinaryAll(ss) && S.IsTemp(x)
    ensures var code := LowerAll(ss, None, None, n).code; !ReadFirst(code, code, x)
  {
    hide LowerAll, OrdinaryAll, S.IsTemp, MayRead, UniqueLabels;
    var code := LowerAll(ss, None, None, n).code;
    LoweredUnique(ss, n);
    assert code[0..] == code && code[|code|..] == [] && Placed(code, 0, code);
    if ReadFirst(code, code, x) {
      var f: nat :| MayRead(code, code, x, f);
      AllQuiet(code, 0, ss, None, None, n, x, f);
      MayReadNone(code, x, f);
    }
  }

  /** In lowered code every temporary is written before it is read, and copies a literal,
      a temporary written once, or a value taken at once. */
  lemma LoweredOrderly(ss: seq<Statement>, n: nat)
    requires OrdinaryAll(ss)
    ensures O.Orderly(LowerAll(ss, None, None, n).code)
  {
    var code := LowerAll(ss, None, None, n).code;
    AllNeat(ss, None, None, n);
    hide LowerAll, OrdinaryAll, S.IsTemp, S.CountDefs, ReadFirst, DefinesIn, UsesIn, O.UsedAtOnce;
    forall x | S.IsTemp(x) ensures !ReadFirst(code, code, x) { NoFirstReads(ss, n, x); }
    forall i | i in code ensures O.CopySteady(code, i) && !i.TailCall? { assert CopyNeat(code, i); }
  }
}
