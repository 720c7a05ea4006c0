/** The labels that lowering makes up are distinct (cc/ir.py:992-995). */
module LoweringLabels {
  import opened Common
  import opened IR
  import opened Cfg
  import opened SsaNames
  import opened Lowering

  // ----- The number in a name -----

  function TrailingDigits(s: string): string {
    if s == [] || !IsDigit(s[|s| - 1]) then [] else TrailingDigits(s[..|s| - 1]) + [s[|s| - 1]]
  }

  function Number(name: string): int { ValueOfDigits(TrailingDigits(name)) }

  predicate EndsInLetter(s: string) { s != [] && !IsDigit(s[|s| - 1]) }

  lemma {:induction false} TrailingIs(prefix: string, digits: string)
    requires EndsInLetter(prefix) && forall i :: 0 <= i < |digits| ==> IsDigit(digits[i])
    ensures TrailingDigits(prefix + digits) == digits
    decreases |digits|
  {
    var s := prefix + digits;
    if digits == [] {
      assert s == prefix;
    } else {
      var init := digits[..|digits| - 1];
      assert s[..|s| - 1] == prefix + init && s[|s| - 1] == digits[|digits| - 1];
      TrailingIs(prefix, init);
      assert digits == init + [digits[|digits| - 1]];
    }
  }

  lemma NumberOfLabel(tag: string, n: nat)
    requires EndsInLetter(tag)
    ensures Number(LabelName(tag, n)) == n
  {
    var prefix := "._ir_" + tag;
    assert prefix[|prefix| - 1] == tag[|tag| - 1];
    DecimalDigits(n);
    DecimalValue(n);
    TrailingIs(prefix, Decimal(n));
  }

  /** No two temporaries share a name. */
  lemma TempsDiffer(a: nat, b: nat)
    requires TempName(a) == TempName(b)
    ensures a == b
  {
    assert TempName(a)[4..] == Decimal(a) && TempName(b)[4..] == Decimal(b);
    DecimalValue(a);
    DecimalValue(b);
  }

  // ----- The labels of a piece of code -----

  function Numbers(code: Body): set<int> {
    set k | 0 <= k < |code| && code[k].Label? :: Number(code[k].name)
  }

  ghost predicate DistinctLabels(code: Body) {
    forall i, j :: 0 <= i < j < |code| && code[i].Label? && code[j].Label? ==> Number(code[i].name) != Number(code[j].name)
  }

  /** Distinct labels, numbered from `lo` and below `hi`. */
  ghost predicate Labelled(code: Body, lo: int, hi: int) {
    DistinctLabels(code) && forall k :: k in Numbers(code) ==> lo <= k < hi
  }

  lemma NumbersOfBoth(a: Body, b: Body)
    ensures Numbers(a + b) == Numbers(a) + Numbers(b)
  {
    hide Number;
    var c := a + b;
    forall k | k in Numbers(a) + Numbers(b) ensures k in Numbers(c) {
      if k in Numbers(a) {
        var i :| 0 <= i < |a| && a[i].Label? && Number(a[i].name) == k;
        assert c[i] == a[i];
      } else {
        var i :| 0 <= i < |b| && b[i].Label? && Number(b[i].name) == k;
        assert c[|a| + i] == b[i];
      }
    }
  }

  lemma LabelHasNumber(code: Body, k: int)
    requires 0 <= k < |code| && code[k].Label?
    ensures Number(code[k].name) in Numbers(code)
  {
  }

  lemma Joined(a: Body, b: Body)
    requires DistinctLabels(a) && DistinctLabels(b) && forall k :: k in Numbers(a) ==> k !in Numbers(b)
    ensures DistinctLabels(a + b) && Numbers(a + b) == Numbers(a) + Numbers(b)
  {
    NumbersOfBoth(a, b);
    hide Number, Numbers;
    var c := a + b;
    forall i, j | 0 <= i < j < |c| && c[i].Label? && c[j].Label? ensures Number(c[i].name) != Number(c[j].name) {
      if i < |a| && j >= |a| {
        LabelHasNumber(a, i);
        LabelHasNumber(b, j - |a|);
      }
    }
  }

  /** Pieces with separate ranges of numbers. */
  lemma JoinedRanges(a: Body, b: Body, lo: int, mid: int, hi: int)
    requires Labelled(a, lo, mid) && Labelled(b, mid, hi) && lo <= mid <= hi
    ensures Labelled(a + b, lo, hi)
  {
    hide Numbers, DistinctLabels;
    Joined(a, b);
  }

  ghost predicate NoLabels(code: Body) {
    forall k :: 0 <= k < |code| ==> !code[k].Label?
  }

  lemma NoLabelsNoNumbers(code: Body)
    requires NoLabels(code)
    ensures DistinctLabels(code) && Numbers(code) == {}
  {
  }

  lemma OneLabel(tag: string, n: nat)
    requires EndsInLetter(tag)
    ensures DistinctLabels([Label(LabelName(tag, n))]) && Numbers([Label(LabelName(tag, n))]) == {n}
  {
    NumberOfLabel(tag, n);
    var code := [Label(LabelName(tag, n))];
    LabelHasNumber(code, 0);
    hide Number, LabelName;
  }

  /** A piece without labels around a piece with them. */
  lemma JoinedNone(a: Body, b: Body, lo: int, hi: int)
    requires (NoLabels(a) && Labelled(b, lo, hi)) || (Labelled(a, lo, hi) && NoLabels(b))
    ensures Labelled(a + b, lo, hi)
  {
    if NoLabels(a) { NoLabelsNoNumbers(a); } else { NoLabelsNoNumbers(b); }
    if NoLabels(b) { NoLabelsNoNumbers(b); }
    hide Numbers, DistinctLabels, NoLabels;
    Joined(a, b);
  }

  /** A label of its own in front of or behind a piece. */
  lemma JoinedOwn(a: Body, b: Body, tag: string, n: nat, lo: int, hi: int)
    requires EndsInLetter(tag) && lo <= n < hi
    requires (a == [Label(LabelName(tag, n))] && Labelled(b, lo, hi) && n !in Numbers(b)) || (b == [Label(LabelName(tag, n))] && Labelled(a, lo, hi) && n !in Numbers(a))
    ensures Labelled(a + b, lo, hi) && Numbers(a + b) == Numbers(a) + Numbers(b)
    ensures forall k :: k in Numbers(a + b) ==> k == n || k in Numbers(a) || k in Numbers(b)
  {
    OneLabel(tag, n);
    hide Numbers, DistinctLabels, EndsInLetter, LabelName;
    Joined(a, b);
  }

  lemma Wider(code: Body, lo: int, hi: int, lo': int, hi': int)
    requires Labelled(code, lo, hi) && lo' <= lo && hi <= hi'
    ensures Labelled(code, lo', hi')
  {
  }

  lemma NoneLabelled(code: Body, lo: int, hi: int)
    requires NoLabels(code)
    ensures Labelled(code, lo, hi)
  {
    NoLabelsNoNumbers(code);
  }

  // ----- Expressions -----

  lemma {:induction false} ExprLabels(e: Expr, n: nat)
    ensures Labelled(LowerExpr(e, n).code, n, LowerExpr(e, n).next)
    decreases e, if ShortCircuit(e) then 1 else 0
  {
    hide Labelled, LabelName, TempName;
    match e
    case Int(_) => NoneLabelled([], n, n);
    case Var(_) => NoneLabelled([], n, n);
    case Binary(op, l, r) =>
      var a := LowerExpr(l, n);
      var b := LowerExpr(r, a.next);
      ExprLabels(l, n);
      ExprLabels(r, a.next);
      JoinedRanges(a.code, b.code, n, a.next, b.next);
      Wider(a.code + b.code, n, b.next, n, b.next + 1);
      JoinedNone(a.code + b.code, [BinaryOperation(TempName(b.next), a.value, op, b.value)], n, b.next + 1);
    case CallOf(f, args) =>
      var a := LowerArgs(args, n);
      ArgsLabels(args, n);
      Wider(a.code, n, a.next, n, a.next + 1);
      JoinedNone(a.code, [Call(f, a.values, Some(TempName(a.next)))], n, a.next + 1);
    case And(_, _) => BitLabels(e, n);
    case Or(_, _) => BitLabels(e, n);
  }

  lemma {:induction false} BitLabels(e: Expr, n: nat)
    requires ShortCircuit(e)
    ensures Labelled(LowerExpr(e, n).code, n, LowerExpr(e, n).next)
    decreases e, 1, 0
  {
    hide DistinctLabels, Numbers, LabelName, TempName;
    var temp, yes, end := TempName(n), LabelName("btrue", n + 1), LabelName("bend", n + 2);
    var c := LowerTrue(e, yes, n + 3);
    TrueLabels(e, yes, n + 3);
    var head, tail := [Copy(temp, Literal(0)), Jump(end)], [Label(yes), Copy(temp, Literal(1)), Label(end)];
    NoneLabelled([Copy(temp, Literal(1))], n + 1, n + 3);
    NoLabelsNoNumbers([Copy(temp, Literal(1))]);
    OneLabel("btrue", n + 1);
    JoinedOwn([Label(yes)], [Copy(temp, Literal(1))], "btrue", n + 1, n + 1, n + 3);
    JoinedOwn([Label(yes)] + [Copy(temp, Literal(1))], [Label(end)], "bend", n + 2, n + 1, n + 3);
    assert tail == [Label(yes)] + [Copy(temp, Literal(1))] + [Label(end)];
    JoinedNone(head, tail, n + 1, n + 3);
    Joined(c.code, head + tail);
    assert LowerExpr(e, n).code == c.code + (head + tail);
  }

  lemma {:induction false} ArgsLabels(args: seq<Expr>, n: nat)
    ensures Labelled(LowerArgs(args, n).code, n, LowerArgs(args, n).next)
    decreases args, 0
  {
    hide Labelled, LowerExpr;
    if args == [] {
      NoneLabelled([], n, n);
    } else {
      var init, last := args[..|args| - 1], args[|args| - 1];
      var a := LowerArgs(init, n);
      ArgsLabels(init, n);
      ExprLabels(last, a.next);
      JoinedRanges(a.code, LowerExpr(last, a.next).code, n, a.next, LowerExpr(last, a.next).next);
    }
  }

  /** Both halves of a condition, with a label of the condition's own behind them. */
  lemma TwoAndLabel(a: Body, b: Body, tag: string, n: nat, mid: int, hi: int)
    requires EndsInLetter(tag) && Labelled(a, n + 1, mid) && Labelled(b, mid, hi) && n + 1 <= mid <= hi
    ensures Labelled(a + b + [Label(LabelName(tag, n))], n, hi)
  {
    JoinedRanges(a, b, n + 1, mid, hi);
    Wider(a + b, n + 1, hi, n, hi);
    hide DistinctLabels, Numbers, LabelName;
    JoinedOwn(a + b, [Label(LabelName(tag, n))], tag, n, n, hi);
  }

  lemma TwoAndBranch(a: Body, b: Body, branch: Instruction, lo: int, mid: int, hi: int)
    requires Labelled(a, lo, mid) && Labelled(b, mid, hi) && lo <= mid <= hi && !branch.Label?
    ensures Labelled(a + b + [branch], lo, hi)
  {
    JoinedRanges(a, b, lo, mid, hi);
    hide Labelled;
    JoinedNone(a + b, [branch], lo, hi);
  }

  lemma {:induction false} FalseLabels(e: Expr, target: string, n: nat)
    ensures Labelled(LowerFalse(e, target, n).code, n, LowerFalse(e, target, n).next)
    decreases e, if ShortCircuit(e) then 0 else 1
  {
    hide Labelled, LabelName, LowerExpr, LowerTrue;
    if e.And? {
      var a := LowerFalse(e.left, target, n);
      var b := LowerFalse(e.right, target, a.next);
      FalseLabels(e.left, target, n);
      FalseLabels(e.right, target, a.next);
      JoinedRanges(a.code, b.code, n, a.next, b.next);
    } else if e.Or? {
      var a := LowerTrue(e.left, LabelName("lor", n), n + 1);
      var b := LowerFalse(e.right, target, a.next);
      TrueLabels(e.left, LabelName("lor", n), n + 1);
      FalseLabels(e.right, target, a.next);
      TwoAndLabel(a.code, b.code, "lor", n, a.next, b.next);
    } else if e.Binary? && IsComparison(e.operation) {
      var a := LowerExpr(e.left, n);
      var b := LowerExpr(e.right, a.next);
      ExprLabels(e.left, n);
      ExprLabels(e.right, a.next);
      TwoAndBranch(a.code, b.code, BranchFalse(a.value, e.operation, b.value, target), n, a.next, b.next);
    } else {
      var a := LowerExpr(e, n);
      ExprLabels(e, n);
      JoinedNone(a.code, [BranchFalse(a.value, "!=", Literal(0), target)], n, a.next);
    }
  }

  lemma {:induction false} TrueLabels(e: Expr, target: string, n: nat)
    ensures Labelled(LowerTrue(e, target, n).code, n, LowerTrue(e, target, n).next)
    decreases e, if ShortCircuit(e) then 0 else 1
  {
    hide Labelled, LabelName, LowerExpr, LowerFalse;
    if e.Or? {
      var a := LowerTrue(e.left, target, n);
      var b := LowerTrue(e.right, target, a.next);
      TrueLabels(e.left, target, n);
      TrueLabels(e.right, target, a.next);
      JoinedRanges(a.code, b.code, n, a.next, b.next);
    } else if e.And? {
      var a := LowerFalse(e.left, LabelName("land", n), n + 1);
      var b := LowerTrue(e.right, target, a.next);
      FalseLabels(e.left, LabelName("land", n), n + 1);
      TrueLabels(e.right, target, a.next);
      TwoAndLabel(a.code, b.code, "land", n, a.next, b.next);
    } else if e.Binary? && IsComparison(e.operation) {
      var a := LowerExpr(e.left, n);
      var b := LowerExpr(e.right, a.next);
      ExprLabels(e.left, n);
      ExprLabels(e.right, a.next);
      TwoAndBranch(a.code, b.code, BranchFalse(a.value, Inverted(e.operation), b.value, target), n, a.next, b.next);
    } else {
      var a := LowerExpr(e, n);
      ExprLabels(e, n);
      JoinedNone(a.code, [BranchFalse(a.value, "==", Literal(0), target)], n, a.next);
    }
  }

  // ----- Statements -----

  /** Distinct labels: those of `own`, and some numbered from `lo` and below `hi`. */
  ghost predicate Marked(code: Body, own: set<int>, lo: int, hi: int) {
    DistinctLabels(code) && forall k :: k in Numbers(code) ==> k in own || lo <= k < hi
  }

  lemma Join(a: Body, x: set<int>, b: Body, y: set<int>, z: set<int>, lo: int, mid: int, hi: int)
    requires Marked(a, x, lo, mid) && Marked(b, y, mid, hi) && lo <= mid <= hi
    requires forall k :: k in z ==> k < lo
    requires forall k :: k in x || k in y ==> k in z
    requires forall k :: k in x ==> k !in y
    ensures Marked(a + b, z, lo, hi)
  {
    hide DistinctLabels, Numbers;
    Joined(a, b);
  }

  lemma MarkNone(code: Body, at: int)
    requires NoLabels(code)
    ensures Marked(code, {}, at, at)
  {
    NoLabelsNoNumbers(code);
  }

  lemma MarkOne(tag: string, n: nat, at: int)
    requires EndsInLetter(tag)
    ensures Marked([Label(LabelName(tag, n))], {n}, at, at)
  {
    OneLabel(tag, n);
    hide DistinctLabels, Numbers, LabelName;
  }

  lemma MarkInner(code: Body, lo: int, hi: int)
    requires Labelled(code, lo, hi)
    ensures Marked(code, {}, lo, hi)
  {
  }

  lemma MarkedAll(code: Body, own: set<int>, n: int, lo: int, hi: int)
    requires Marked(code, own, lo, hi) && n <= lo <= hi && forall k :: k in own ==> n <= k < lo
    ensures Labelled(code, n, hi)
  {
  }

  lemma TestLabels(test: Option<Expr>, target: string, n: nat)
    ensures Labelled(LowerTest(test, target, n).code, n, LowerTest(test, target, n).next)
  {
    NoneLabelled([], n, n);
    if test.Some? { FalseLabels(test.value, target, n); }
    hide Labelled, LowerFalse;
  }

  lemma StepLabels(item: StepItem, n: nat)
    ensures Labelled(LowerStep(item, n).code, n, LowerStep(item, n).next)
  {
    ExprLabels(item.value, n);
    hide LowerExpr, TempName;
    var a := LowerExpr(item.value, n);
    if item.Update? {
      Wider(a.code, n, a.next, n, a.next + 1);
      JoinedNone(a.code, [Copy(TempName(a.next), a.value), Copy(item.name, Name(TempName(a.next)))], n, a.next + 1);
    }
    hide Labelled;
  }

  lemma {:induction false} StepsLabels(steps: seq<StepItem>, n: nat)
    ensures Labelled(LowerSteps(steps, n).code, n, LowerSteps(steps, n).next)
    decreases |steps|
  {
    hide Labelled, LowerStep;
    if steps == [] {
      NoneLabelled([], n, n);
    } else {
      var a := LowerStep(steps[0], n);
      StepLabels(steps[0], n);
      StepsLabels(steps[1..], a.next);
      JoinedRanges(a.code, LowerSteps(steps[1..], a.next).code, n, a.next, LowerSteps(steps[1..], a.next).next);
    }
  }

  lemma {:induction false} AllLabels(ss: seq<Statement>, brk: Option<string>, cont: Option<string>, n: nat)
    ensures Labelled(LowerAll(ss, brk, cont, n).code, n, LowerAll(ss, brk, cont, n).next)
    decreases ss, 0
  {
    hide Labelled, LowerStatement;
    if ss == [] {
      NoneLabelled([], n, n);
    } else {
      var a := LowerStatement(ss[0], brk, cont, n);
      StatementLabels(ss[0], brk, cont, n);
      AllLabels(ss[1..], brk, cont, a.next);
      JoinedRanges(a.code, LowerAll(ss[1..], brk, cont, a.next).code, n, a.next, LowerAll(ss[1..], brk, cont, a.next).next);
    }
  }

  lemma {:induction false} StatementLabels(st: Statement, brk: Option<string>, cont: Option<string>, n: nat)
    ensures Labelled(LowerStatement(st, brk, cont, n).code, n, LowerStatement(st, brk, cont, n).next)
    decreases st, 1
  {
    hide Labelled, LowerExpr, LowerArgs, LowerAll, LowerIf, LowerIfElse, LowerWhile, LowerDoWhile, LowerForLoop;
    match st
    case Assign(x, e) =>
      ExprLabels(e, n);
      JoinedNone(LowerExpr(e, n).code, [Copy(x, LowerExpr(e, n).value)], n, LowerExpr(e, n).next);
      if SelfModify(x, e) { NoneLabelled([BinaryOperation(x, Name(x), e.operation, LeafValue(e.right))], n, n); }
    case Perform(f, args) =>
      ArgsLabels(args, n);
      JoinedNone(LowerArgs(args, n).code, [Call(f, LowerArgs(args, n).values, None)], n, LowerArgs(args, n).next);
    case If(_, _) => IfLabels(st, brk, cont, n);
    case IfElse(_, _, _) => IfElseLabels(st, brk, cont, n);
    case While(_, _) => WhileLabels(st, n);
    case DoWhile(_, _) => DoWhileLabels(st, n);
    case For(init, _, _, _) =>
      var a := LowerAll(init, None, None, n);
      AllLabels(init, None, None, n);
      ForLabels(st, a.next);
      JoinedRanges(a.code, LowerForLoop(st, a.next).code, n, a.next, LowerForLoop(st, a.next).next);
    case Break => NoneLabelled(JumpTo(brk), n, n);
    case Continue => NoneLabelled(JumpTo(cont), n, n);
    case Compound(body) => AllLabels(body, brk, cont, n);
    case GiveBack(result) =>
      NoneLabelled([Return(None)], n, n);
      if result.Some? {
        ExprLabels(result.value, n);
        JoinedNone(LowerExpr(result.value, n).code, [Return(Some(LowerExpr(result.value, n).value))], n, LowerExpr(result.value, n).next);
      }
  }

  lemma IfLabels(st: Statement, brk: Option<string>, cont: Option<string>, n: nat)
    requires st.If?
    ensures Labelled(LowerIf(st, brk, cont, n).code, n, LowerIf(st, brk, cont, n).next)
    decreases st, 0
  {
    hide Labelled, Marked, LowerFalse, LowerAll, LabelName;
    var end := LabelName("endif", n);
    var a := LowerFalse(st.cond, end, n + 1);
    var b := LowerAll(st.body, brk, cont, a.next);
    FalseLabels(st.cond, end, n + 1);
    AllLabels(st.body, brk, cont, a.next);
    MarkInner(a.code, n + 1, a.next);
    MarkInner(b.code, a.next, b.next);
    MarkOne("endif", n, b.next);
    Join(b.code, {}, [Label(end)], {n}, {n}, a.next, b.next, b.next);
    Join(a.code, {}, b.code + [Label(end)], {n}, {n}, n + 1, a.next, b.next);
    MarkedAll(a.code + (b.code + [Label(end)]), {n}, n, n + 1, b.next);
  }

  lemma IfElseLabels(st: Statement, brk: Option<string>, cont: Option<string>, n: nat)
    requires st.IfElse?
    ensures Labelled(LowerIfElse(st, brk, cont, n).code, n, LowerIfElse(st, brk, cont, n).next)
    decreases st, 0
  {
    hide Labelled, Marked, LowerFalse, LowerAll, LabelName;
    var otherwise, end := LabelName("else", n), LabelName("endif", n + 1);
    var a := LowerFalse(st.cond, otherwise, n + 2);
    var b := LowerAll(st.body, brk, cont, a.next);
    var d := LowerAll(st.other, brk, cont, b.next);
    FalseLabels(st.cond, otherwise, n + 2);
    AllLabels(st.body, brk, cont, a.next);
    AllLabels(st.other, brk, cont, b.next);
    MarkInner(a.code, n + 2, a.next);
    MarkInner(b.code, a.next, b.next);
    MarkInner(d.code, b.next, d.next);
    MarkOne("endif", n + 1, d.next);
    MarkOne("else", n, b.next);
    MarkNone([Jump(end)], b.next);
    var t1 := d.code + [Label(end)];
    Join(d.code, {}, [Label(end)], {n + 1}, {n + 1}, b.next, d.next, d.next);
    Join([Jump(end)], {}, [Label(otherwise)], {n}, {n}, b.next, b.next, b.next);
    assert [Jump(end)] + [Label(otherwise)] == [Jump(end), Label(otherwise)];
    var t2 := [Jump(end), Label(otherwise)] + t1;
    Join([Jump(end), Label(otherwise)], {n}, t1, {n + 1}, {n, n + 1}, b.next, b.next, d.next);
    Join(b.code, {}, t2, {n, n + 1}, {n, n + 1}, a.next, b.next, d.next);
    Join(a.code, {}, b.code + t2, {n, n + 1}, {n, n + 1}, n + 2, a.next, d.next);
    MarkedAll(a.code + (b.code + t2), {n, n + 1}, n, n + 2, d.next);
  }

  lemma WhileLabels(st: Statement, n: nat)
    requires st.While?
    ensures Labelled(LowerWhile(st, n).code, n, LowerWhile(st, n).next)
    decreases st, 0
  {
    hide Labelled, Marked, LowerTest, LowerAll, LabelName;
    var loop, end := LabelName("wloop", n), LabelName("wend", n + 1);
    var a := LowerTest(Some(st.cond), end, n + 2);
    var b := LowerAll(st.body, Some(end), Some(loop), a.next);
    TestLabels(Some(st.cond), end, n + 2);
    AllLabels(st.body, Some(end), Some(loop), a.next);
    MarkInner(a.code, n + 2, a.next);
    MarkInner(b.code, a.next, b.next);
    var back := [LoopBoundary(loop, end, false), Jump(loop)];
    MarkNone(back, b.next);
    MarkOne("wend", n + 1, b.next);
    MarkOne("wloop", n, n + 2);
    MarkNone([LoopBoundary(loop, end, true)], a.next);
    Join(back, {}, [Label(end)], {n + 1}, {n + 1}, b.next, b.next, b.next);
    assert back + [Label(end)] == [LoopBoundary(loop, end, false), Jump(loop), Label(end)];
    var t1 := b.code + [LoopBoundary(loop, end, false), Jump(loop), Label(end)];
    Join(b.code, {}, back + [Label(end)], {n + 1}, {n + 1}, a.next, b.next, b.next);
    var t2 := [LoopBoundary(loop, end, true)] + t1;
    Join([LoopBoundary(loop, end, true)], {}, t1, {n + 1}, {n + 1}, a.next, a.next, b.next);
    Join(a.code, {}, t2, {n + 1}, {n + 1}, n + 2, a.next, b.next);
    Join([Label(loop)], {n}, a.code + t2, {n + 1}, {n, n + 1}, n + 2, n + 2, b.next);
    MarkedAll([Label(loop)] + (a.code + t2), {n, n + 1}, n, n + 2, b.next);
  }

  lemma DoWhileLabels(st: Statement, n: nat)
    requires st.DoWhile?
    ensures Labelled(LowerDoWhile(st, n).code, n, LowerDoWhile(st, n).next)
    decreases st, 0
  {
    hide Labelled, Marked, LowerTrue, LowerAll, LabelName;
    var loop, again, end := LabelName("dloop", n), LabelName("dcond", n + 1), LabelName("dend", n + 2);
    var b := LowerAll(st.body, Some(end), Some(again), n + 3);
    var a := LowerTrue(st.cond, loop, b.next);
    AllLabels(st.body, Some(end), Some(again), n + 3);
    TrueLabels(st.cond, loop, b.next);
    MarkInner(b.code, n + 3, b.next);
    MarkInner(a.code, b.next, a.next);
    MarkOne("dend", n + 2, a.next);
    MarkOne("dcond", n + 1, b.next);
    MarkOne("dloop", n, n + 3);
    MarkNone([LoopBoundary(again, end, true)], n + 3);
    MarkNone([LoopBoundary(again, end, false)], b.next);
    var t1 := a.code + [Label(end)];
    Join(a.code, {}, [Label(end)], {n + 2}, {n + 2}, b.next, a.next, a.next);
    var middle := [LoopBoundary(again, end, false), Label(again)];
    assert [LoopBoundary(again, end, false)] + [Label(again)] == middle;
    Join([LoopBoundary(again, end, false)], {}, [Label(again)], {n + 1}, {n + 1}, b.next, b.next, b.next);
    var t2 := middle + t1;
    Join(middle, {n + 1}, t1, {n + 2}, {n + 1, n + 2}, b.next, b.next, a.next);
    var t3 := b.code + t2;
    Join(b.code, {}, t2, {n + 1, n + 2}, {n + 1, n + 2}, n + 3, b.next, a.next);
    var front := [Label(loop), LoopBoundary(again, end, true)];
    assert [Label(loop)] + [LoopBoundary(again, end, true)] == front;
    Join([Label(loop)], {n}, [LoopBoundary(again, end, true)], {}, {n}, n + 3, n + 3, n + 3);
    Join(front, {n}, t3, {n + 1, n + 2}, {n, n + 1, n + 2}, n + 3, n + 3, a.next);
    MarkedAll(front + t3, {n, n + 1, n + 2}, n, n + 3, a.next);
  }

  lemma ForLabels(st: Statement, n: nat)
    requires st.For?
    ensures Labelled(LowerForLoop(st, n).code, n, LowerForLoop(st, n).next)
    decreases st, 0
  {
    hide Labelled, Marked, LowerTest, LowerAll, LowerSteps, LabelName;
    var loop, step, end := LabelName("floop", n), LabelName("fstep", n + 1), LabelName("fend", n + 2);
    var a := LowerTest(st.test, end, n + 3);
    var b := LowerAll(st.body, Some(end), Some(step), a.next);
    var d := LowerSteps(st.step, b.next);
    TestLabels(st.test, end, n + 3);
    AllLabels(st.body, Some(end), Some(step), a.next);
    StepsLabels(st.step, b.next);
    MarkInner(a.code, n + 3, a.next);
    MarkInner(b.code, a.next, b.next);
    MarkInner(d.code, b.next, d.next);
    MarkOne("fend", n + 2, d.next);
    MarkOne("fstep", n + 1, b.next);
    MarkOne("floop", n, n + 3);
    MarkNone([Jump(loop)], d.next);
    MarkNone([LoopBoundary(step, end, true)], a.next);
    MarkNone([LoopBoundary(step, end, false)], b.next);
    ForTail(b.code, d.code, loop, step, end, n, a.next, b.next, d.next);
    var t3 := b.code + ([LoopBoundary(step, end, false), Label(step)] + (d.code + [Jump(loop), Label(end)]));
    var t4 := [LoopBoundary(step, end, true)] + t3;
    Join([LoopBoundary(step, end, true)], {}, t3, {n + 1, n + 2}, {n + 1, n + 2}, a.next, a.next, d.next);
    Join(a.code, {}, t4, {n + 1, n + 2}, {n + 1, n + 2}, n + 3, a.next, d.next);
    Join([Label(loop)], {n}, a.code + t4, {n + 1, n + 2}, {n, n + 1, n + 2}, n + 3, n + 3, d.next);
    MarkedAll([Label(loop)] + (a.code + t4), {n, n + 1, n + 2}, n, n + 3, d.next);
  }

  lemma ForTail(b: Body, d: Body, loop: string, step: string, end: string, n: nat, lo: int, mid: int, hi: int)
    requires n + 3 <= lo <= mid <= hi && Marked(b, {}, lo, mid) && Marked(d, {}, mid, hi)
    requires Marked([Label(end)], {n + 2}, hi, hi) && Marked([Label(step)], {n + 1}, mid, mid)
    ensures Marked(b + ([LoopBoundary(step, end, false), Label(step)] + (d + [Jump(loop), Label(end)])), {n + 1, n + 2}, lo, hi)
  {
    hide Marked;
    MarkNone([Jump(loop)], hi);
    MarkNone([LoopBoundary(step, end, false)], mid);
    assert [Jump(loop)] + [Label(end)] == [Jump(loop), Label(end)];
    Join([Jump(loop)], {}, [Label(end)], {n + 2}, {n + 2}, hi, hi, hi);
    var t1 := d + [Jump(loop), Label(end)];
    Join(d, {}, [Jump(loop), Label(end)], {n + 2}, {n + 2}, mid, hi, hi);
    var middle := [LoopBoundary(step, end, false), Label(step)];
    assert [LoopBoundary(step, end, false)] + [Label(step)] == middle;
    Join([LoopBoundary(step, end, false)], {}, [Label(step)], {n + 1}, {n + 1}, mid, mid, mid);
    Join(middle, {n + 1}, t1, {n + 2}, {n + 1, n + 2}, mid, mid, hi);
    Join(b, {}, middle + t1, {n + 1, n + 2}, {n + 1, n + 2}, lo, mid, hi);
  }

  /** A lowered body defines no label twice. */
  lemma LoweredUnique(ss: seq<Statement>, n: nat)
    ensures UniqueLabels(LowerAll(ss, None, None, n).code)
  {
    AllLabels(ss, None, None, n);
    hide Number;
  }
}
