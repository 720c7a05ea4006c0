/** Lowering of expressions and structured statements to flat code
    (cc/ir.py:265-358, 360-582, 612-635, 893-948, 992-1056). */
module Lowering {
  import opened Common
  import opened IR
  import opened Cfg
  import opened SsaNames

  // ----- Source -----

  datatype Expr =
    | Int(n: int)
    | Var(name: string)
    | Binary(operation: string, left: Expr, right: Expr)
    | CallOf(callee: string, args: seq<Expr>)
    | And(left: Expr, right: Expr)
    | Or(left: Expr, right: Expr)

  /** One item of a `for` step: an assignment or an expression. */
  datatype StepItem = Update(name: string, value: Expr) | Evaluate(value: Expr)

  datatype Statement =
    | Assign(name: string, value: Expr)
    | Perform(callee: string, args: seq<Expr>)
    | If(cond: Expr, body: seq<Statement>)
    | IfElse(cond: Expr, body: seq<Statement>, other: seq<Statement>)
    | While(cond: Expr, body: seq<Statement>)
    | DoWhile(body: seq<Statement>, cond: Expr)
    | For(init: seq<Statement>, test: Option<Expr>, step: seq<StepItem>, body: seq<Statement>)
    | Break
    | Continue
    | Compound(body: seq<Statement>)
    | GiveBack(result: Option<Expr>)

  predicate IsComparison(op: string) {
    op == "==" || op == "!=" || op == "<" || op == "<=" || op == ">" || op == ">="
  }

  // ----- Meaning of the source (ISO/IEC 9899:1999, 6.5.13, 6.5.14, 6.8.4-6.8.6) -----

  datatype Answered = Answered(value: int, trace: seq<Event>)

  datatype AllAnswered = AllAnswered(values: seq<int>, trace: seq<Event>)

  function Bit(b: bool): int { if b then 1 else 0 }

  /** The value of an expression and the calls made; the right operand of `&&`
      and `||` is evaluated only if the left one does not decide. */
  function EvalExpr(m: Machine, s: Store, e: Expr, trace: seq<Event>): Answered
    decreases e
  {
    match e
    case Int(n) => Answered(n, trace)
    case Var(x) => Answered(Read(m, s, x), trace)
    case Binary(op, l, r) =>
      var a := EvalExpr(m, s, l, trace);
      var b := EvalExpr(m, s, r, a.trace);
      Answered(if IsComparison(op) then Bit(Compare(m, op, a.value, b.value)) else m.arithmetic(op, a.value, b.value), b.trace)
    case CallOf(f, args) =>
      var a := EvalArgs(m, s, args, trace);
      var t := a.trace + [Event(f, a.values)];
      Answered(m.answer(t), t)
    case And(l, r) =>
      var a := EvalExpr(m, s, l, trace);
      if a.value == 0 then Answered(0, a.trace)
      else var b := EvalExpr(m, s, r, a.trace); Answered(Bit(b.value != 0), b.trace)
    case Or(l, r) =>
      var a := EvalExpr(m, s, l, trace);
      if a.value != 0 then Answered(1, a.trace)
      else var b := EvalExpr(m, s, r, a.trace); Answered(Bit(b.value != 0), b.trace)
  }

  /** Arguments, from left to right. */
  function EvalArgs(m: Machine, s: Store, args: seq<Expr>, trace: seq<Event>): AllAnswered
    decreases args
  {
    if args == [] then AllAnswered([], trace)
    else
      var a := EvalArgs(m, s, args[..|args| - 1], trace);
      var b := EvalExpr(m, s, args[|args| - 1], a.trace);
      AllAnswered(a.values + [b.value], b.trace)
  }

  /** How a statement ends.  `fuel` counts the loop iterations that are left. */
  datatype Done =
    | Normal(store: Store, trace: seq<Event>, fuel: nat)
    | Broken(store: Store, trace: seq<Event>, fuel: nat)
    | Continued(store: Store, trace: seq<Event>, fuel: nat)
    | Returned(value: Option<int>, store: Store, trace: seq<Event>)
    | Spent(trace: seq<Event>)

  predicate Within(d: Done, fuel: nat) {
    d.Normal? || d.Broken? || d.Continued? ==> d.fuel <= fuel
  }

  function Exec(m: Machine, st: Statement, s: Store, trace: seq<Event>, fuel: nat): (d: Done)
    ensures Within(d, fuel)
    decreases fuel, st, 1
  {
    match st
    case Assign(x, e) =>
      var a := EvalExpr(m, s, e, trace);
      Normal(Write(m, s, x, a.value), a.trace, fuel)
    case Perform(f, args) =>
      var a := EvalArgs(m, s, args, trace);
      Normal(s, a.trace + [Event(f, a.values)], fuel)
    case If(cond, body) =>
      var a := EvalExpr(m, s, cond, trace);
      if a.value != 0 then ExecAll(m, body, s, a.trace, fuel) else Normal(s, a.trace, fuel)
    case IfElse(cond, body, other) =>
      var a := EvalExpr(m, s, cond, trace);
      if a.value != 0 then ExecAll(m, body, s, a.trace, fuel) else ExecAll(m, other, s, a.trace, fuel)
    case While(cond, body) =>
      var a := EvalExpr(m, s, cond, trace);
      if a.value == 0 then Normal(s, a.trace, fuel)
      else
        var d := ExecAll(m, body, s, a.trace, fuel);
        if d.Broken? then Normal(d.store, d.trace, d.fuel)
        else if d.Normal? || d.Continued? then
          if d.fuel == 0 then Spent(d.trace) else Exec(m, st, d.store, d.trace, d.fuel - 1)
        else d
    case DoWhile(body, cond) =>
      var d := ExecAll(m, body, s, trace, fuel);
      if d.Broken? then Normal(d.store, d.trace, d.fuel)
      else if d.Normal? || d.Continued? then
        var a := EvalExpr(m, d.store, cond, d.trace);
        if a.value == 0 then Normal(d.store, a.trace, d.fuel)
        else if d.fuel == 0 then Spent(a.trace) else Exec(m, st, d.store, a.trace, d.fuel - 1)
      else d
    case For(init, _, _, _) =>
      var d := ExecAll(m, init, s, trace, fuel);
      if d.Normal? then ExecFor(m, st, d.store, d.trace, d.fuel) else d
    case Break => Broken(s, trace, fuel)
    case Continue => Continued(s, trace, fuel)
    case Compound(body) => ExecAll(m, body, s, trace, fuel)
    case GiveBack(result) =>
      if result.None? then Returned(None, s, trace)
      else var a := EvalExpr(m, s, result.value, trace); Returned(Some(a.value), s, a.trace)
  }

  function ExecAll(m: Machine, ss: seq<Statement>, s: Store, trace: seq<Event>, fuel: nat): (d: Done)
    ensures Within(d, fuel)
    decreases fuel, ss, 0
  {
    if ss == [] then Normal(s, trace, fuel)
    else
      var d := Exec(m, ss[0], s, trace, fuel);
      if d.Normal? then ExecAll(m, ss[1..], d.store, d.trace, d.fuel) else d
  }

  function TestOf(m: Machine, test: Option<Expr>, s: Store, trace: seq<Event>): Answered {
    if test.None? then Answered(1, trace) else EvalExpr(m, s, test.value, trace)
  }

  datatype Stepped = Stepped(store: Store, trace: seq<Event>)

  function ExecSteps(m: Machine, steps: seq<StepItem>, s: Store, trace: seq<Event>): Stepped {
    if steps == [] then Stepped(s, trace)
    else
      var a := EvalExpr(m, s, steps[0].value, trace);
      ExecSteps(m, steps[1..], if steps[0].Update? then Write(m, s, steps[0].name, a.value) else s, a.trace)
  }

  /** A `for` loop once its first clause has run. */
  function ExecFor(m: Machine, st: Statement, s: Store, trace: seq<Event>, fuel: nat): (d: Done)
    requires st.For?
    ensures Within(d, fuel)
    decreases fuel, st, 0
  {
    var a := TestOf(m, st.test, s, trace);
    if a.value == 0 then Normal(s, a.trace, fuel)
    else
      var d := ExecAll(m, st.body, s, a.trace, fuel);
      if d.Broken? then Normal(d.store, d.trace, d.fuel)
      else if d.Normal? || d.Continued? then
        var p := ExecSteps(m, st.step, d.store, d.trace);
        if d.fuel == 0 then Spent(p.trace) else ExecFor(m, st, p.store, p.trace, d.fuel - 1)
      else d
  }

  // ----- Names the builder makes up -----

  function TempName(n: nat): string { "_ir_" + Decimal(n) }

  function LabelName(tag: string, n: nat): string { "._ir_" + tag + Decimal(n) }

  // ----- Lowering -----

  datatype ExprCode = ExprCode(code: Body, value: Value, next: nat)

  datatype ArgsCode = ArgsCode(code: Body, values: seq<Value>, next: nat)

  datatype Code = Code(code: Body, next: nat)

  function Inverted(op: string): string {
    if op == "!=" then "==" else if op == "<" then ">=" else if op == "<=" then ">"
    else if op == "==" then "!=" else if op == ">" then "<=" else "<"
  }

  predicate ShortCircuit(e: Expr) { e.And? || e.Or? }

  /** Code that computes `e`, and the operand that then holds its value. */
  function LowerExpr(e: Expr, n: nat): (c: ExprCode)
    ensures c.next >= n
    decreases e, if ShortCircuit(e) then 1 else 0
  {
    match e
    case Int(k) => ExprCode([], Literal(k), n)
    case Var(x) => ExprCode([], Name(x), n)
    case Binary(op, l, r) =>
      var a := LowerExpr(l, n);
      var b := LowerExpr(r, a.next);
      var temp := TempName(b.next);
      ExprCode(a.code + b.code + [BinaryOperation(temp, a.value, op, b.value)], Name(temp), b.next + 1)
    case CallOf(f, args) =>
      var a := LowerArgs(args, n);
      var temp := TempName(a.next);
      ExprCode(a.code + [Call(f, a.values, Some(temp))], Name(temp), a.next + 1)
    case _ =>
      var temp, yes, end := TempName(n), LabelName("btrue", n + 1), LabelName("bend", n + 2);
      var c := LowerTrue(e, yes, n + 3);
      ExprCode(c.code + [Copy(temp, Literal(0)), Jump(end), Label(yes), Copy(temp, Literal(1)), Label(end)], Name(temp), c.next)
  }

  function LowerArgs(args: seq<Expr>, n: nat): (c: ArgsCode)
    ensures c.next >= n
    decreases args, 0
  {
    if args == [] then ArgsCode([], [], n)
    else
      var a := LowerArgs(args[..|args| - 1], n);
      var b := LowerExpr(args[|args| - 1], a.next);
      ArgsCode(a.code + b.code, a.values + [b.value], b.next)
  }

  /** Code that jumps to `target` when `e` is false and falls through otherwise. */
  function LowerFalse(e: Expr, target: string, n: nat): (c: Code)
    ensures c.next >= n
    decreases e, if ShortCircuit(e) then 0 else 1
  {
    if e.And? then
      var a := LowerFalse(e.left, target, n);
      var b := LowerFalse(e.right, target, a.next);
      Code(a.code + b.code, b.next)
    else if e.Or? then
      var skip := LabelName("lor", n);
      var a := LowerTrue(e.left, skip, n + 1);
      var b := LowerFalse(e.right, target, a.next);
      Code(a.code + b.code + [Label(skip)], b.next)
    else if e.Binary? && IsComparison(e.operation) then
      var a := LowerExpr(e.left, n);
      var b := LowerExpr(e.right, a.next);
      Code(a.code + b.code + [BranchFalse(a.value, e.operation, b.value, target)], b.next)
    else
      var a := LowerExpr(e, n);
      Code(a.code + [BranchFalse(a.value, "!=", Literal(0), target)], a.next)
  }

  /** Code that jumps to `target` when `e` is true. */
  function LowerTrue(e: Expr, target: string, n: nat): (c: Code)
    ensures c.next >= n
    decreases e, if ShortCircuit(e) then 0 else 1
  {
    if e.Or? then
      var a := LowerTrue(e.left, target, n);
      var b := LowerTrue(e.right, target, a.next);
      Code(a.code + b.code, b.next)
    else if e.And? then
      var skip := LabelName("land", n);
      var a := LowerFalse(e.left, skip, n + 1);
      var b := LowerTrue(e.right, target, a.next);
      Code(a.code + b.code + [Label(skip)], b.next)
    else if e.Binary? && IsComparison(e.operation) then
      var a := LowerExpr(e.left, n);
      var b := LowerExpr(e.right, a.next);
      Code(a.code + b.code + [BranchFalse(a.value, Inverted(e.operation), b.value, target)], b.next)
    else
      var a := LowerExpr(e, n);
      Code(a.code + [BranchFalse(a.value, "==", Literal(0), target)], a.next)
  }

  /** The condition needs no test. */
  predicate ConstantTrue(e: Expr) {
    (e.Int? && e.n != 0) || (e.Binary? && e.operation == "!=" && e.right == Int(0) && e.left.Int? && e.left.n != 0)
  }

  /** A loop test: nothing for a constant. */
  function LowerTest(test: Option<Expr>, target: string, n: nat): (c: Code)
    ensures c.next >= n
  {
    if test.None? || ConstantTrue(test.value) then Code([], n) else LowerFalse(test.value, target, n)
  }

  predicate InPlaceOperator(op: string) {
    op == "+" || op == "-" || op == "&" || op == "|" || op == "^" || op == "<<" || op == ">>" || op == "*"
  }

  /** `x = x op e` is left to the code generator as it is. */
  predicate SelfModify(x: string, e: Expr) {
    e.Binary? && InPlaceOperator(e.operation) && e.left == Var(x)
  }

  /** Upper-case names are taken for named constants. */
  predicate Upper(name: string) { forall i :: 0 <= i < |name| ==> !('a' <= name[i] <= 'z') }

  predicate ChainOperator(op: string) {
    op == "+" || op == "-" || op == "*" || op == "&" || op == "|" || op == "^"
  }

  predicate ConstantChain(e: Expr) {
    e.Int? || (e.Var? && Upper(e.name)) || (e.Binary? && ChainOperator(e.operation) && ConstantChain(e.left) && ConstantChain(e.right))
  }

  /** Two or more operators over constants are left to the code generator. */
  predicate LongConstantChain(e: Expr) {
    && e.Binary? && ChainOperator(e.operation) && ConstantChain(e.left) && ConstantChain(e.right)
    && (e.left.Binary? || e.right.Binary?)
  }

  predicate Leaf(e: Expr) { e.Int? || e.Var? }

  function LeafValue(e: Expr): Value { if e.Int? then Literal(e.n) else if e.Var? then Name(e.name) else Literal(0) }

  function LowerAssign(x: string, e: Expr, n: nat): (c: Code)
    ensures c.next >= n
  {
    if SelfModify(x, e) then Code([BinaryOperation(x, Name(x), e.operation, LeafValue(e.right))], n)
    else
      var a := LowerExpr(e, n);
      Code(a.code + [Copy(x, a.value)], a.next)
  }

  function LowerSteps(steps: seq<StepItem>, n: nat): (c: Code)
    ensures c.next >= n
  {
    if steps == [] then Code([], n)
    else
      var a := LowerStep(steps[0], n);
      var b := LowerSteps(steps[1..], a.next);
      Code(a.code + b.code, b.next)
  }

  /** An assignment used as an expression goes through a temporary. */
  function LowerStep(item: StepItem, n: nat): (c: Code)
    ensures c.next >= n
  {
    var a := LowerExpr(item.value, n);
    if item.Evaluate? then Code(a.code, a.next)
    else Code(a.code + [Copy(TempName(a.next), a.value), Copy(item.name, Name(TempName(a.next)))], a.next + 1)
  }

  function JumpTo(target: Option<string>): Body { if target.Some? then [Jump(target.value)] else [] }

  function LowerStatement(st: Statement, brk: Option<string>, cont: Option<string>, n: nat): (c: Code)
    ensures c.next >= n
    decreases st, 1
  {
    match st
    case Assign(x, e) => LowerAssign(x, e, n)
    case Perform(f, args) =>
      var a := LowerArgs(args, n);
      Code(a.code + [Call(f, a.values, None)], a.next)
    case If(_, _) => LowerIf(st, brk, cont, n)
    case IfElse(_, _, _) => LowerIfElse(st, brk, cont, n)
    case While(_, _) => LowerWhile(st, n)
    case DoWhile(_, _) => LowerDoWhile(st, n)
    case For(init, _, _, _) =>
      var a := LowerAll(init, None, None, n);
      var b := LowerForLoop(st, a.next);
      Code(a.code + b.code, b.next)
    case Break => Code(JumpTo(brk), n)
    case Continue => Code(JumpTo(cont), n)
    case Compound(body) => LowerAll(body, brk, cont, n)
    case GiveBack(result) =>
      if result.None? then Code([Return(None)], n)
      else var a := LowerExpr(result.value, n); Code(a.code + [Return(Some(a.value))], a.next)
  }

  function LowerAll(ss: seq<Statement>, brk: Option<string>, cont: Option<string>, n: nat): (c: Code)
    ensures c.next >= n
    decreases ss, 0
  {
    if ss == [] then Code([], n)
    else
      var a := LowerStatement(ss[0], brk, cont, n);
      var b := LowerAll(ss[1..], brk, cont, a.next);
      Code(a.code + b.code, b.next)
  }

  function LowerIf(st: Statement, brk: Option<string>, cont: Option<string>, n: nat): (c: Code)
    requires st.If?
    ensures c.next >= n
    decreases st, 0
  {
    var end := LabelName("endif", n);
    var a := LowerFalse(st.cond, end, n + 1);
    var b := LowerAll(st.body, brk, cont, a.next);
    Code(a.code + (b.code + [Label(end)]), b.next)
  }

  function LowerIfElse(st: Statement, brk: Option<string>, cont: Option<string>, n: nat): (c: Code)
    requires st.IfElse?
    ensures c.next >= n
    decreases st, 0
  {
    var otherwise, end := LabelName("else", n), LabelName("endif", n + 1);
    var a := LowerFalse(st.cond, otherwise, n + 2);
    var b := LowerAll(st.body, brk, cont, a.next);
    var d := LowerAll(st.other, brk, cont, b.next);
    Code(a.code + (b.code + ([Jump(end), Label(otherwise)] + (d.code + [Label(end)]))), d.next)
  }

  function LowerWhile(st: Statement, n: nat): (c: Code)
    requires st.While?
    ensures c.next >= n
    decreases st, 0
  {
    var loop, end := LabelName("wloop", n), LabelName("wend", n + 1);
    var a := LowerTest(Some(st.cond), end, n + 2);
    var b := LowerAll(st.body, Some(end), Some(loop), a.next);
    Code([Label(loop)] + (a.code + ([LoopBoundary(loop, end, true)] + (b.code + [LoopBoundary(loop, end, false), Jump(loop), Label(end)]))), b.next)
  }

  function LowerDoWhile(st: Statement, n: nat): (c: Code)
    requires st.DoWhile?
    ensures c.next >= n
    decreases st, 0
  {
    var loop, again, end := LabelName("dloop", n), LabelName("dcond", n + 1), LabelName("dend", n + 2);
    var b := LowerAll(st.body, Some(end), Some(again), n + 3);
    var a := LowerTrue(st.cond, loop, b.next);
    Code([Label(loop), LoopBoundary(again, end, true)] + (b.code + ([LoopBoundary(again, end, false), Label(again)] + (a.code + [Label(end)]))), a.next)
  }

  /** What follows the first clause of a `for`. */
  function LowerForLoop(st: Statement, n: nat): (c: Code)
    requires st.For?
    ensures c.next >= n
    decreases st, 0
  {
    var loop, step, end := LabelName("floop", n), LabelName("fstep", n + 1), LabelName("fend", n + 2);
    var a := LowerTest(st.test, end, n + 3);
    var b := LowerAll(st.body, Some(end), Some(step), a.next);
    var d := LowerSteps(st.step, b.next);
    Code([Label(loop)] + (a.code + ([LoopBoundary(step, end, true)] + (b.code + ([LoopBoundary(step, end, false), Label(step)]
      + (d.code + [Jump(loop), Label(end)]))))), d.next)
  }
}
