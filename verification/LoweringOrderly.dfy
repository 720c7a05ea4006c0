/** Lowered code copies into a temporary a literal, a temporary that is written once, or
    a value that the next instruction takes at once. */
module LoweringOrderly {
  import opened Common
  import opened IR
  import opened Cfg
  import opened Lowering
  import opened LoweringLabels
  import S = ScalarPipeline
  import O = ScalarMeaning
  import R = ScalarRounds

  // ----- Ordinary source -----

  /** No name of the source has the prefix of the temporaries. */
  ghost predicate Ordinary(e: Expr)
    decreases e
  {
    match e
    case Int(_) => true
    case Var(x) => !S.IsTemp(x)
    case CallOf(_, args) => OrdinaryArgs(args)
    case Binary(_, l, r) => Ordinary(l) && Ordinary(r)
    case And(l, r) => Ordinary(l) && Ordinary(r)
    case Or(l, r) => Ordinary(l) && Ordinary(r)
  }

  ghost predicate OrdinaryArgs(args: seq<Expr>)
    decreases args
  {
    forall k :: 0 <= k < |args| ==> Ordinary(args[k])
  }

  ghost predicate OrdinaryStep(item: StepItem) {
    Ordinary(item.value) && (item.Update? ==> !S.IsTemp(item.name))
  }

  ghost predicate OrdinaryStatement(st: Statement)
    decreases st, 1
  {
    match st
    case Assign(x, e) => !S.IsTemp(x) && Ordinary(e) && (SelfModify(x, e) ==> Leaf(e.right))
    case Perform(_, args) => OrdinaryArgs(args)
    case If(cond, body) => Ordinary(cond) && OrdinaryAll(body)
    case IfElse(cond, body, other) => Ordinary(cond) && OrdinaryAll(body) && OrdinaryAll(other)
    case While(cond, body) => Ordinary(cond) && OrdinaryAll(body)
    case DoWhile(body, cond) => Ordinary(cond) && OrdinaryAll(body)
    case For(init, test, step, body) =>
      OrdinaryAll(init) && (test.Some? ==> Ordinary(test.value)) && OrdinarySteps(step) && OrdinaryAll(body)
    case Break => true
    case Continue => true
    case Compound(body) => OrdinaryAll(body)
    case GiveBack(result) => result.Some? ==> Ordinary(result.value)
  }

  ghost predicate OrdinarySteps(steps: seq<StepItem>) {
    forall k :: 0 <= k < |steps| ==> OrdinaryStep(steps[k])
  }

  ghost predicate OrdinaryAll(ss: seq<Statement>)
    decreases ss, 0
  {
    forall k :: 0 <= k < |ss| ==> OrdinaryStatement(ss[k])
  }

  // ----- Temporaries are numbered, and copied only from ones defined once -----

  ghost predicate TempIn(x: string, lo: int, hi: int) { exists k: nat :: lo <= k < hi && x == TempName(k) }

  ghost predicate CopyFine(code: Body, i: Instruction) {
    i.Copy? && S.IsTemp(i.destination) && i.source.Name? ==> S.IsTemp(i.source.id) && S.CountDefs(code, i.source.id) == 1
  }

  ghost predicate DefinesIn(i: Instruction, lo: int, hi: int) {
    DestinationOf(i).Some? && S.IsTemp(DestinationOf(i).value) ==> TempIn(DestinationOf(i).value, lo, hi)
  }

  /** `code` defines only temporaries numbered from `lo` and below `hi`. */
  ghost predicate Fine(code: Body, lo: int, hi: int) {
    forall i :: i in code ==> DefinesIn(i, lo, hi) && !i.TailCall? && CopyFine(code, i)
  }

  lemma {:induction false} CountedIn(code: Body, x: string, lo: int, hi: int)
    requires S.IsTemp(x) && S.CountDefs(code, x) > 0 && forall i :: i in code ==> DefinesIn(i, lo, hi)
    ensures TempIn(x, lo, hi)
    decreases |code|
  {
    hide S.IsTemp, TempIn, DestinationOf;
    if DestinationOf(code[0]) != Some(x) { CountedIn(code[1..], x, lo, hi); } else { assert code[0] in code; }
  }

  lemma RangesApart(x: string, lo: int, hi: int, lo': int, hi': int)
    requires TempIn(x, lo, hi) && TempIn(x, lo', hi')
    ensures lo < hi' && lo' < hi
  {
    var k: nat :| lo <= k < hi && x == TempName(k);
    var j: nat :| lo' <= j < hi' && x == TempName(j);
    TempsDiffer(k, j);
  }

  lemma Elsewhere(a: Body, lo: int, hi: int, b: Body, lo': int, hi': int, x: string)
    requires Fine(a, lo, hi) && Fine(b, lo', hi') && (hi <= lo' || hi' <= lo) && S.IsTemp(x) && S.CountDefs(a, x) > 0
    ensures S.CountDefs(b, x) == 0
  {
    hide S.IsTemp, S.CountDefs, TempIn, DefinesIn, CopyFine;
    CountedIn(a, x, lo, hi);
    if S.CountDefs(b, x) != 0 {
      CountedIn(b, x, lo', hi');
      RangesApart(x, lo, hi, lo', hi');
    }
  }

  lemma Widened(i: Instruction, lo: int, hi: int, lo': int, hi': int)
    requires DefinesIn(i, lo, hi) && lo' <= lo && hi <= hi'
    ensures DefinesIn(i, lo', hi')
  {
    hide S.IsTemp;
  }

  lemma FineWider(code: Body, lo: int, hi: int, lo': int, hi': int)
    requires Fine(code, lo, hi) && lo' <= lo && hi <= hi'
    ensures Fine(code, lo', hi')
  {
    hide DefinesIn, CopyFine;
    forall i | i in code ensures DefinesIn(i, lo', hi') { Widened(i, lo, hi, lo', hi'); }
  }

  /** Two pieces that number their temporaries apart. */
  lemma FineBoth(a: Body, lo1: int, hi1: int, b: Body, lo2: int, hi2: int, lo: int, hi: int)
    requires Fine(a, lo1, hi1) && Fine(b, lo2, hi2) && (hi1 <= lo2 || hi2 <= lo1)
    requires lo <= lo1 && lo <= lo2 && hi1 <= hi && hi2 <= hi
    ensures Fine(a + b, lo, hi)
  {
    hide DefinesIn, S.IsTemp, S.CountDefs;
    forall i | i in a + b ensures DefinesIn(i, lo, hi) && !i.TailCall? && CopyFine(a + b, i) {
      if i in a { Widened(i, lo1, hi1, lo, hi); } else { Widened(i, lo2, hi2, lo, hi); }
      if i.Copy? && S.IsTemp(i.destination) && i.source.Name? {
        R.CountSplit(a, b, i.source.id);
        if i in a { Elsewhere(a, lo1, hi1, b, lo2, hi2, i.source.id); } else { Elsewhere(b, lo2, hi2, a, lo1, hi1, i.source.id); }
      }
    }
  }

  /** Code that writes no temporary. */
  lemma FinePlain(code: Body, at: int)
    requires forall i :: i in code ==> !i.TailCall? && (DestinationOf(i).Some? ==> !S.IsTemp(DestinationOf(i).value))
    ensures Fine(code, at, at)
  {
    hide S.IsTemp, TempIn;
  }

  lemma TempIsTemp(k: nat)
    ensures S.IsTemp(TempName(k)) && TempIn(TempName(k), k, k + 1)
  {
  }

  /** One instruction that writes its own temporary. */
  lemma FineTemp(i: Instruction, k: nat)
    requires DestinationOf(i) == Some(TempName(k)) && (i.Copy? ==> i.source.Literal?)
    ensures Fine([i], k, k + 1)
  {
    TempIsTemp(k);
    hide S.IsTemp, TempIn, TempName;
  }

  lemma {:induction false} ExprFine(e: Expr, n: nat)
    ensures Fine(LowerExpr(e, n).code, n, LowerExpr(e, n).next)
    decreases e, if ShortCircuit(e) then 1 else 0
  {
    hide Fine, LabelName, TempName;
    match e
    case Int(_) => FinePlain([], n);
    case Var(_) => FinePlain([], n);
    case Binary(op, l, r) =>
      var a := LowerExpr(l, n);
      var b := LowerExpr(r, a.next);
      ExprFine(l, n);
      ExprFine(r, a.next);
      FineBoth(a.code, n, a.next, b.code, a.next, b.next, n, b.next);
      var last := BinaryOperation(TempName(b.next), a.value, op, b.value);
      FineTemp(last, b.next);
      FineBoth(a.code + b.code, n, b.next, [last], b.next, b.next + 1, n, b.next + 1);
    case CallOf(f, args) =>
      var a := LowerArgs(args, n);
      ArgsFine(args, n);
      var last := Call(f, a.values, Some(TempName(a.next)));
      FineTemp(last, a.next);
      FineBoth(a.code, n, a.next, [last], a.next, a.next + 1, n, a.next + 1);
    case And(_, _) => BitFine(e, n);
    case Or(_, _) => BitFine(e, n);
  }

  lemma {:induction false} BitFine(e: Expr, n: nat)
    requires ShortCircuit(e)
    ensures Fine(LowerExpr(e, n).code, n, LowerExpr(e, n).next)
    decreases e, 1, 0
  {
    hide Fine, LabelName, TempName;
    var temp, yes, end := TempName(n), LabelName("btrue", n + 1), LabelName("bend", n + 2);
    var c := LowerTrue(e, yes, n + 3);
    TrueFine(e, yes, n + 3);
    BitTailFine(temp, yes, end, n);
    FineBoth(c.code, n + 3, c.next, [Copy(temp, Literal(0)), Jump(end), Label(yes), Copy(temp, Literal(1)), Label(end)], n, n + 1, n, c.next);
  }

  lemma BitTailFine(temp: string, yes: string, end: string, n: nat)
    requires temp == TempName(n)
    ensures Fine([Copy(temp, Literal(0)), Jump(end), Label(yes), Copy(temp, Literal(1)), Label(end)], n, n + 1)
  {
    TempIsTemp(n);
    hide S.IsTemp, TempIn, TempName;
  }

  lemma {:induction false} ArgsFine(args: seq<Expr>, n: nat)
    ensures Fine(LowerArgs(args, n).code, n, LowerArgs(args, n).next)
    decreases args, 0
  {
    hide Fine, LowerExpr;
    if args == [] {
      FinePlain([], n);
    } else {
      var init, last := args[..|args| - 1], args[|args| - 1];
      var a := LowerArgs(init, n);
      var b := LowerExpr(last, a.next);
      ArgsFine(init, n);
      ExprFine(last, a.next);
      FineBoth(a.code, n, a.next, b.code, a.next, b.next, n, b.next);
    }
  }

  /** Two pieces and one instruction that writes nothing. */
  lemma FineThen(a: Body, b: Body, i: Instruction, lo: int, mid: int, hi: int)
    requires Fine(a, lo, mid) && Fine(b, mid, hi) && lo <= mid <= hi && DestinationOf(i).None? && !i.TailCall?
    ensures Fine(a + b + [i], lo, hi)
  {
    FinePlain([i], hi);
    hide Fine;
    FineBoth(a, lo, mid, b, mid, hi, lo, hi);
    FineBoth(a + b, lo, hi, [i], hi, hi, lo, hi);
  }

  lemma {:induction false} FalseFine(e: Expr, target: string, n: nat)
    ensures Fine(LowerFalse(e, target, n).code, n, LowerFalse(e, target, n).next)
    decreases e, if ShortCircuit(e) then 0 else 1
  {
    hide Fine, LabelName, LowerExpr, LowerTrue;
    if e.And? {
      var a := LowerFalse(e.left, target, n);
      var b := LowerFalse(e.right, target, a.next);
      FalseFine(e.left, target, n);
      FalseFine(e.right, target, a.next);
      FineBoth(a.code, n, a.next, b.code, a.next, b.next, n, b.next);
    } else if e.Or? {
      var skip := LabelName("lor", n);
      var a := LowerTrue(e.left, skip, n + 1);
      var b := LowerFalse(e.right, target, a.next);
      TrueFine(e.left, skip, n + 1);
      FalseFine(e.right, target, a.next);
      FineThen(a.code, b.code, Label(skip), n + 1, a.next, b.next);
      FineWider(a.code + b.code + [Label(skip)], n + 1, b.next, n, b.next);
    } else if e.Binary? && IsComparison(e.operation) {
      var a := LowerExpr(e.left, n);
      var b := LowerExpr(e.right, a.next);
      ExprFine(e.left, n);
      ExprFine(e.right, a.next);
      FineThen(a.code, b.code, BranchFalse(a.value, e.operation, b.value, target), n, a.next, b.next);
    } else {
      var a := LowerExpr(e, n);
      ExprFine(e, n);
      FinePlain([], a.next);
      FineThen(a.code, [], BranchFalse(a.value, "!=", Literal(0), target), n, a.next, a.next);
      assert a.code + [] == a.code;
    }
  }

  lemma {:induction false} TrueFine(e: Expr, target: string, n: nat)
    ensures Fine(LowerTrue(e, target, n).code, n, LowerTrue(e, target, n).next)
    decreases e, if ShortCircuit(e) then 0 else 1
  {
    hide Fine, LabelName, LowerExpr, LowerFalse;
    if e.Or? {
      var a := LowerTrue(e.left, target, n);
      var b := LowerTrue(e.right, target, a.next);
      TrueFine(e.left, target, n);
      TrueFine(e.right, target, a.next);
      FineBoth(a.code, n, a.next, b.code, a.next, b.next, n, b.next);
    } else if e.And? {
      var skip := LabelName("land", n);
      var a := LowerFalse(e.left, skip, n + 1);
      var b := LowerTrue(e.right, target, a.next);
      FalseFine(e.left, skip, n + 1);
      TrueFine(e.right, target, a.next);
      FineThen(a.code, b.code, Label(skip), n + 1, a.next, b.next);
      FineWider(a.code + b.code + [Label(skip)], n + 1, b.next, n, b.next);
    } else if e.Binary? && IsComparison(e.operation) {
      var a := LowerExpr(e.left, n);
      var b := LowerExpr(e.right, a.next);
      ExprFine(e.left, n);
      ExprFine(e.right, a.next);
      FineThen(a.code, b.code, BranchFalse(a.value, Inverted(e.operation), b.value, target), n, a.next, b.next);
    } else {
      var a := LowerExpr(e, n);
      ExprFine(e, n);
      FinePlain([], a.next);
      FineThen(a.code, [], BranchFalse(a.value, "==", Literal(0), target), n, a.next, a.next);
      assert a.code + [] == a.code;
    }
  }

  /** Code and one instruction that writes no temporary. */
  lemma FineAnd(code: Body, i: Instruction, lo: int, hi: int)
    requires Fine(code, lo, hi) && lo <= hi && !i.TailCall? && (DestinationOf(i).Some? ==> !S.IsTemp(DestinationOf(i).value))
    ensures Fine(code + [i], lo, hi)
  {
    FinePlain([i], hi);
    hide Fine;
    FineBoth(code, lo, hi, [i], hi, hi, lo, hi);
  }

  // ----- Code reads only its own temporaries -----

  ghost predicate UsesIn(i: Instruction, lo: int, hi: int) {
    forall x :: x in Uses(i) && S.IsTemp(x) ==> TempIn(x, lo, hi)
  }

  ghost predicate Own(code: Body, lo: int, hi: int) {
    forall i :: i in code ==> UsesIn(i, lo, hi)
  }

  ghost predicate OwnValue(v: Value, lo: int, hi: int) {
    v.Name? && S.IsTemp(v.id) ==> TempIn(v.id, lo, hi)
  }

  lemma TempInWider(x: string, lo: int, hi: int, lo': int, hi': int)
    requires TempIn(x, lo, hi) && lo' <= lo && hi <= hi'
    ensures TempIn(x, lo', hi')
  {
    var k: nat :| lo <= k < hi && x == TempName(k);
  }

  lemma UsesWider(i: Instruction, lo: int, hi: int, lo': int, hi': int)
    requires UsesIn(i, lo, hi) && lo' <= lo && hi <= hi'
    ensures UsesIn(i, lo', hi')
  {
    hide TempIn, S.IsTemp, Uses;
    forall x | x in Uses(i) && S.IsTemp(x) ensures TempIn(x, lo', hi') { TempInWider(x, lo, hi, lo', hi'); }
  }

  lemma OwnWider(code: Body, lo: int, hi: int, lo': int, hi': int)
    requires Own(code, lo, hi) && lo' <= lo && hi <= hi'
    ensures Own(code, lo', hi')
  {
    hide UsesIn;
    forall i | i in code ensures UsesIn(i, lo', hi') { UsesWider(i, lo, hi, lo', hi'); }
  }

  lemma OwnValueWider(v: Value, lo: int, hi: int, lo': int, hi': int)
    requires OwnValue(v, lo, hi) && lo' <= lo && hi <= hi'
    ensures OwnValue(v, lo', hi')
  {
    hide TempIn, S.IsTemp;
    if v.Name? && S.IsTemp(v.id) { TempInWider(v.id, lo, hi, lo', hi'); }
  }

  lemma OwnBoth(a: Body, lo1: int, hi1: int, b: Body, lo2: int, hi2: int, lo: int, hi: int)
    requires Own(a, lo1, hi1) && Own(b, lo2, hi2) && lo <= lo1 && lo <= lo2 && hi1 <= hi && hi2 <= hi
    ensures Own(a + b, lo, hi)
  {
    OwnWider(a, lo1, hi1, lo, hi);
    OwnWider(b, lo2, hi2, lo, hi);
    hide UsesIn;
  }

  /** An instruction that reads at most these two values. */
  lemma OwnPair(i: Instruction, l: Value, r: Value, lo: int, hi: int)
    requires OwnValue(l, lo, hi) && OwnValue(r, lo, hi)
    requires Uses(i) <= NamesOf(l) + NamesOf(r)
    ensures Own([i], lo, hi)
  {
    hide TempIn, S.IsTemp, Uses;
  }

  lemma PairUses(i: Instruction)
    ensures i.BinaryOperation? ==> Uses(i) <= NamesOf(i.left) + NamesOf(i.right)
    ensures i.BranchFalse? ==> Uses(i) <= NamesOf(i.left) + NamesOf(i.right)
    ensures i.Copy? ==> Uses(i) <= NamesOf(i.source) + NamesOf(i.source)
    ensures i.Return? && i.value.Some? ==> Uses(i) <= NamesOf(i.value.value) + NamesOf(i.value.value)
  {
  }

  lemma OwnCall(i: Instruction, lo: int, hi: int)
    requires i.Call? && forall k :: 0 <= k < |i.args| ==> OwnValue(i.args[k], lo, hi)
    ensures Own([i], lo, hi)
  {
    hide TempIn, S.IsTemp;
    forall x | x in Uses(i) && S.IsTemp(x) ensures TempIn(x, lo, hi) {
      var k :| 0 <= k < |i.args| && i.args[k] == Name(x);
      assert OwnValue(i.args[k], lo, hi);
    }
  }

  lemma OwnNothing(code: Body, lo: int, hi: int)
    requires forall i :: i in code ==> Uses(i) == {}
    ensures Own(code, lo, hi)
  {
    hide Uses, S.IsTemp;
  }

  lemma OwnResult(k: nat, lo: int, hi: int)
    requires lo <= k < hi
    ensures OwnValue(Name(TempName(k)), lo, hi)
  {
    hide TempName, S.IsTemp;
  }

  lemma {:induction false} ExprOwn(e: Expr, n: nat)
    requires Ordinary(e)
    ensures Own(LowerExpr(e, n).code, n, LowerExpr(e, n).next) && OwnValue(LowerExpr(e, n).value, n, LowerExpr(e, n).next)
    decreases e, if ShortCircuit(e) then 1 else 0
  {
    hide Own, OwnValue, LabelName, TempName, S.IsTemp, Uses;
    match e
    case Int(_) => OwnNothing([], n, n); LeafOwn(e, n, n);
    case Var(_) => OwnNothing([], n, n); LeafOwn(e, n, n);
    case Binary(op, l, r) =>
      var a := LowerExpr(l, n);
      var b := LowerExpr(r, a.next);
      ExprOwn(l, n);
      ExprOwn(r, a.next);
      OwnBoth(a.code, n, a.next, b.code, a.next, b.next, n, b.next);
      var last := BinaryOperation(TempName(b.next), a.value, op, b.value);
      OwnValueWider(a.value, n, a.next, n, b.next + 1);
      OwnValueWider(b.value, a.next, b.next, n, b.next + 1);
      PairUses(last);
      OwnPair(last, a.value, b.value, n, b.next + 1);
      OwnBoth(a.code + b.code, n, b.next, [last], n, b.next + 1, n, b.next + 1);
      OwnResult(b.next, n, b.next + 1);
    case CallOf(f, args) =>
      var a := LowerArgs(args, n);
      ArgsOwn(args, n);
      var last := Call(f, a.values, Some(TempName(a.next)));
      forall k | 0 <= k < |a.values| ensures OwnValue(a.values[k], n, a.next + 1) { OwnValueWider(a.values[k], n, a.next, n, a.next + 1); }
      OwnCall(last, n, a.next + 1);
      OwnBoth(a.code, n, a.next, [last], n, a.next + 1, n, a.next + 1);
      OwnResult(a.next, n, a.next + 1);
    case And(_, _) => BitOwn(e, n);
    case Or(_, _) => BitOwn(e, n);
  }

  lemma LeafOwn(e: Expr, lo: int, hi: int)
    requires Ordinary(e)
    ensures e.Int? ==> OwnValue(Literal(e.n), lo, hi)
    ensures e.Var? ==> OwnValue(Name(e.name), lo, hi)
    ensures Leaf(e) ==> OwnValue(LeafValue(e), lo, hi)
  {
    hide S.IsTemp;
  }

  lemma {:induction false} BitOwn(e: Expr, n: nat)
    requires ShortCircuit(e) && Ordinary(e)
    ensures Own(LowerExpr(e, n).code, n, LowerExpr(e, n).next) && OwnValue(LowerExpr(e, n).value, n, LowerExpr(e, n).next)
    decreases e, 1, 0
  {
    hide Own, OwnValue, LabelName, TempName, S.IsTemp, Ordinary;
    var temp, yes, end := TempName(n), LabelName("btrue", n + 1), LabelName("bend", n + 2);
    var c := LowerTrue(e, yes, n + 3);
    TrueOwn(e, yes, n + 3);
    var tail := [Copy(temp, Literal(0)), Jump(end), Label(yes), Copy(temp, Literal(1)), Label(end)];
    OwnNothing(tail, n, n);
    OwnBoth(c.code, n + 3, c.next, tail, n, n, n, c.next);
    OwnResult(n, n, c.next);
  }

  lemma {:induction false} ArgsOwn(args: seq<Expr>, n: nat)
    requires OrdinaryArgs(args)
    ensures var a := LowerArgs(args, n); Own(a.code, n, a.next) && forall k :: 0 <= k < |a.values| ==> OwnValue(a.values[k], n, a.next)
    decreases args, 0
  {
    hide Own, OwnValue, LowerExpr, Ordinary, Uses;
    if args == [] {
      OwnNothing([], n, n);
    } else {
      var init, last := args[..|args| - 1], args[|args| - 1];
      var a := LowerArgs(init, n);
      var b := LowerExpr(last, a.next);
      ArgsOwn(init, n);
      ExprOwn(last, a.next);
      OwnBoth(a.code, n, a.next, b.code, a.next, b.next, n, b.next);
      forall k | 0 <= k < |a.values| ensures OwnValue(a.values[k], n, b.next) { OwnValueWider(a.values[k], n, a.next, n, b.next); }
      OwnValueWider(b.value, a.next, b.next, n, b.next);
    }
  }

  /** Two pieces and a label. */
  lemma OwnThenLabel(a: Body, b: Body, name: string, lo: int, mid: int, hi: int)
    requires Own(a, lo, mid) && Own(b, mid, hi) && lo <= mid <= hi
    ensures Own(a + b + [Label(name)], lo, hi)
  {
    OwnNothing([Label(name)], hi, hi);
    hide Own, Uses;
    OwnBoth(a, lo, mid, b, mid, hi, lo, hi);
    OwnBoth(a + b, lo, hi, [Label(name)], hi, hi, lo, hi);
  }

  /** The operands of a comparison and its branch. */
  lemma OwnCompare(a: Body, l: Value, b: Body, r: Value, op: string, target: string, lo: int, mid: int, hi: int)
    requires Own(a, lo, mid) && OwnValue(l, lo, mid) && Own(b, mid, hi) && OwnValue(r, mid, hi) && lo <= mid <= hi
    ensures Own(a + b + [BranchFalse(l, op, r, target)], lo, hi)
  {
    var last := BranchFalse(l, op, r, target);
    PairUses(last);
    hide Own, OwnValue, Uses;
    OwnValueWider(l, lo, mid, lo, hi);
    OwnValueWider(r, mid, hi, lo, hi);
    OwnPair(last, l, r, lo, hi);
    OwnBoth(a, lo, mid, b, mid, hi, lo, hi);
    OwnBoth(a + b, lo, hi, [last], lo, hi, lo, hi);
  }

  lemma OwnTested(a: Body, l: Value, op: string, target: string, lo: int, hi: int)
    requires Own(a, lo, hi) && OwnValue(l, lo, hi) && lo <= hi
    ensures Own(a + [BranchFalse(l, op, Literal(0), target)], lo, hi)
  {
    OwnNothing([], hi, hi);
    assert a + [] == a && OwnValue(Literal(0), hi, hi);
    OwnCompare(a, l, [], Literal(0), op, target, lo, hi, hi);
    hide Own, OwnValue;
  }

  lemma {:induction false} FalseOwn(e: Expr, target: string, n: nat)
    requires Ordinary(e)
    ensures Own(LowerFalse(e, target, n).code, n, LowerFalse(e, target, n).next)
    decreases e, if ShortCircuit(e) then 0 else 1
  {
    hide Own, OwnValue, LabelName, LowerExpr, LowerTrue, S.IsTemp;
    if e.And? {
      var a := LowerFalse(e.left, target, n);
      var b := LowerFalse(e.right, target, a.next);
      FalseOwn(e.left, target, n);
      FalseOwn(e.right, target, a.next);
      OwnBoth(a.code, n, a.next, b.code, a.next, b.next, n, b.next);
    } else if e.Or? {
      var skip := LabelName("lor", n);
      var a := LowerTrue(e.left, skip, n + 1);
      var b := LowerFalse(e.right, target, a.next);
      TrueOwn(e.left, skip, n + 1);
      FalseOwn(e.right, target, a.next);
      OwnThenLabel(a.code, b.code, skip, n + 1, a.next, b.next);
      OwnWider(a.code + b.code + [Label(skip)], n + 1, b.next, n, b.next);
    } else if e.Binary? && IsComparison(e.operation) {
      var a := LowerExpr(e.left, n);
      var b := LowerExpr(e.right, a.next);
      ExprOwn(e.left, n);
      ExprOwn(e.right, a.next);
      OwnCompare(a.code, a.value, b.code, b.value, e.operation, target, n, a.next, b.next);
    } else {
      var a := LowerExpr(e, n);
      ExprOwn(e, n);
      OwnTested(a.code, a.value, "!=", target, n, a.next);
    }
  }

  lemma {:induction false} TrueOwn(e: Expr, target: string, n: nat)
    requires Ordinary(e)
    ensures Own(LowerTrue(e, target, n).code, n, LowerTrue(e, target, n).next)
    decreases e, if ShortCircuit(e) then 0 else 1
  {
    hide Own, OwnValue, LabelName, LowerExpr, LowerFalse, S.IsTemp;
    if e.Or? {
      var a := LowerTrue(e.left, target, n);
      var b := LowerTrue(e.right, target, a.next);
      TrueOwn(e.left, target, n);
      TrueOwn(e.right, target, a.next);
      OwnBoth(a.code, n, a.next, b.code, a.next, b.next, n, b.next);
    } else if e.And? {
      var skip := LabelName("land", n);
      var a := LowerFalse(e.left, skip, n + 1);
      var b := LowerTrue(e.right, target, a.next);
      FalseOwn(e.left, skip, n + 1);
      TrueOwn(e.right, target, a.next);
      OwnThenLabel(a.code, b.code, skip, n + 1, a.next, b.next);
      OwnWider(a.code + b.code + [Label(skip)], n + 1, b.next, n, b.next);
    } else if e.Binary? && IsComparison(e.operation) {
      var a := LowerExpr(e.left, n);
      var b := LowerExpr(e.right, a.next);
      ExprOwn(e.left, n);
      ExprOwn(e.right, a.next);
      OwnCompare(a.code, a.value, b.code, b.value, Inverted(e.operation), target, n, a.next, b.next);
    } else {
      var a := LowerExpr(e, n);
      ExprOwn(e, n);
      OwnTested(a.code, a.value, "==", target, n, a.next);
    }
  }

  // ----- Statements -----

  ghost predicate CopyNeat(code: Body, i: Instruction) {
    i.Copy? && S.IsTemp(i.destination) && i.source.Name? ==>
      (S.IsTemp(i.source.id) && S.CountDefs(code, i.source.id) == 1) || O.UsedAtOnce(code, i.destination)
  }

  /** `code` defines and reads only temporaries numbered from `lo` and below `hi`, and
      copies into them what is written once or taken at once. */
  ghost predicate Neat(code: Body, lo: int, hi: int) {
    forall i :: i in code ==> DefinesIn(i, lo, hi) && UsesIn(i, lo, hi) && !i.TailCall? && CopyNeat(code, i)
  }

  lemma NeatFrom(code: Body, lo: int, hi: int)
    requires Fine(code, lo, hi) && Own(code, lo, hi)
    ensures Neat(code, lo, hi)
  {
    hide DefinesIn, UsesIn, S.IsTemp, S.CountDefs, O.UsedAtOnce;
    forall i | i in code ensures CopyNeat(code, i) { assert CopyFine(code, i); }
  }

  lemma {:induction false} NotRead(p: Option<Instruction>, code: Body, t: string)
    requires forall i :: i in code ==> t !in Uses(i)
    ensures O.AtOnce(p, code, t)
    decreases |code|
  {
    hide Uses, O.ReadsBehind;
    if code != [] {
      assert code[0] in code;
      NotRead(Some(code[0]), code[1..], t);
    }
  }

  /** A temporary of one piece is not read by one that numbers its own apart. */
  lemma NotReadBy(b: Body, lo: int, hi: int, lo': int, hi': int, t: string)
    requires Neat(b, lo', hi') && TempIn(t, lo, hi) && (hi <= lo' || hi' <= lo) && S.IsTemp(t)
    ensures forall i :: i in b ==> t !in Uses(i)
  {
    hide DefinesIn, CopyNeat, S.IsTemp, Uses, TempIn;
    forall i | i in b ensures t !in Uses(i) {
      assert UsesIn(i, lo', hi');
      if t in Uses(i) { RangesApart(t, lo, hi, lo', hi'); }
    }
  }

  lemma AtOnceWith(a: Body, b: Body, t: string)
    requires O.UsedAtOnce(a, t) && forall i :: i in b ==> t !in Uses(i)
    ensures O.UsedAtOnce(a + b, t) && O.UsedAtOnce(b + a, t)
  {
    hide Uses, O.AtOnce;
    NotRead(if a == [] then None else Some(a[|a| - 1]), b, t);
    NotRead(None, b, t);
    R.AtOnceJoin(None, a, b, t);
    R.AtOnceJoin(None, b, a, t);
    R.AnyBefore(None, if b == [] then None else Some(b[|b| - 1]), a, t);
  }

  lemma CountedElsewhere(b: Body, lo: int, hi: int, lo': int, hi': int, x: string)
    requires Neat(b, lo', hi') && TempIn(x, lo, hi) && (hi <= lo' || hi' <= lo) && S.IsTemp(x)
    ensures S.CountDefs(b, x) == 0
  {
    hide UsesIn, CopyNeat, S.IsTemp, S.CountDefs, TempIn, DefinesIn;
    if S.CountDefs(b, x) != 0 {
      CountedIn(b, x, lo', hi');
      RangesApart(x, lo, hi, lo', hi');
    }
  }

  /** A copy of one piece, with another piece in front of it or behind it. */
  lemma CopyStays(a: Body, lo1: int, hi1: int, b: Body, lo2: int, hi2: int, i: Instruction)
    requires Neat(a, lo1, hi1) && Neat(b, lo2, hi2) && (hi1 <= lo2 || hi2 <= lo1) && i in a
    ensures CopyNeat(a + b, i) && CopyNeat(b + a, i)
  {
    hide S.IsTemp, S.CountDefs, O.UsedAtOnce, TempIn, Uses;
    assert CopyNeat(a, i) && DefinesIn(i, lo1, hi1);
    if i.Copy? && S.IsTemp(i.destination) && i.source.Name? {
      if O.UsedAtOnce(a, i.destination) {
        NotReadBy(b, lo1, hi1, lo2, hi2, i.destination);
        AtOnceWith(a, b, i.destination);
      } else {
        var x := i.source.id;
        assert UsesIn(i, lo1, hi1) && x in Uses(i) by { CopyReads(i); }
        CountedElsewhere(b, lo1, hi1, lo2, hi2, x);
        R.CountSplit(a, b, x);
        R.CountSplit(b, a, x);
      }
    }
  }

  lemma CopyReads(i: Instruction)
    ensures i.Copy? && i.source.Name? ==> i.source.id in Uses(i)
  {
  }

  /** Two pieces that number their temporaries apart. */
  lemma NeatBoth(a: Body, lo1: int, hi1: int, b: Body, lo2: int, hi2: int, lo: int, hi: int)
    requires Neat(a, lo1, hi1) && Neat(b, lo2, hi2) && (hi1 <= lo2 || hi2 <= lo1)
    requires lo <= lo1 && lo <= lo2 && hi1 <= hi && hi2 <= hi
    ensures Neat(a + b, lo, hi)
  {
    hide DefinesIn, UsesIn, CopyNeat;
    forall i | i in a + b ensures DefinesIn(i, lo, hi) && UsesIn(i, lo, hi) && !i.TailCall? && CopyNeat(a + b, i) {
      if i in a {
        Widened(i, lo1, hi1, lo, hi);
        UsesWider(i, lo1, hi1, lo, hi);
        CopyStays(a, lo1, hi1, b, lo2, hi2, i);
      } else {
        Widened(i, lo2, hi2, lo, hi);
        UsesWider(i, lo2, hi2, lo, hi);
        CopyStays(b, lo2, hi2, a, lo1, hi1, i);
      }
    }
  }

  lemma ExprNeat(e: Expr, n: nat)
    requires Ordinary(e)
    ensures Neat(LowerExpr(e, n).code, n, LowerExpr(e, n).next)
  {
    ExprFine(e, n);
    ExprOwn(e, n);
    hide LowerExpr, Fine, Own, Neat;
    NeatFrom(LowerExpr(e, n).code, n, LowerExpr(e, n).next);
  }

  lemma FalseNeat(e: Expr, target: string, n: nat)
    requires Ordinary(e)
    ensures Neat(LowerFalse(e, target, n).code, n, LowerFalse(e, target, n).next)
  {
    FalseFine(e, target, n);
    FalseOwn(e, target, n);
    hide LowerFalse, Fine, Own, Neat;
    NeatFrom(LowerFalse(e, target, n).code, n, LowerFalse(e, target, n).next);
  }

  lemma TrueNeat(e: Expr, target: string, n: nat)
    requires Ordinary(e)
    ensures Neat(LowerTrue(e, target, n).code, n, LowerTrue(e, target, n).next)
  {
    TrueFine(e, target, n);
    TrueOwn(e, target, n);
    hide LowerTrue, Fine, Own, Neat;
    NeatFrom(LowerTrue(e, target, n).code, n, LowerTrue(e, target, n).next);
  }

  lemma TestNeat(test: Option<Expr>, target: string, n: nat)
    requires test.Some? ==> Ordinary(test.value)
    ensures Neat(LowerTest(test, target, n).code, n, LowerTest(test, target, n).next)
  {
    NeatFrame([], n);
    if test.Some? { FalseNeat(test.value, target, n); }
    hide Neat, LowerFalse;
  }

  /** An expression, and one instruction that takes its value and writes no temporary. */
  lemma ExprThen(e: Expr, n: nat, i: Instruction)
    requires Ordinary(e) && !i.TailCall? && (DestinationOf(i).Some? ==> !S.IsTemp(DestinationOf(i).value))
    requires Uses(i) <= NamesOf(LowerExpr(e, n).value)
    ensures Neat(LowerExpr(e, n).code + [i], n, LowerExpr(e, n).next)
  {
    ExprFine(e, n);
    ExprOwn(e, n);
    hide LowerExpr, Fine, Own, Neat, OwnValue, S.IsTemp, Uses, DestinationOf;
    var a := LowerExpr(e, n);
    FineAnd(a.code, i, n, a.next);
    OwnPair(i, a.value, a.value, n, a.next);
    OwnBoth(a.code, n, a.next, [i], n, a.next, n, a.next);
    NeatFrom(a.code + [i], n, a.next);
  }

  lemma ArgsThen(args: seq<Expr>, n: nat, i: Instruction)
    requires OrdinaryArgs(args) && i.Call? && i.result.None? && i.args == LowerArgs(args, n).values
    ensures Neat(LowerArgs(args, n).code + [i], n, LowerArgs(args, n).next)
  {
    ArgsFine(args, n);
    ArgsOwn(args, n);
    hide LowerArgs, Fine, Own, Neat, OwnValue;
    var a := LowerArgs(args, n);
    FineAnd(a.code, i, n, a.next);
    OwnCall(i, n, a.next);
    OwnBoth(a.code, n, a.next, [i], n, a.next, n, a.next);
    NeatFrom(a.code + [i], n, a.next);
  }

  /** A variable modified in place. */
  lemma SelfNeat(x: string, e: Expr, n: nat)
    requires SelfModify(x, e) && Leaf(e.right) && Ordinary(e) && !S.IsTemp(x)
    ensures Neat([BinaryOperation(x, Name(x), e.operation, LeafValue(e.right))], n, n)
  {
    var i := BinaryOperation(x, Name(x), e.operation, LeafValue(e.right));
    FinePlain([i], n);
    PairUses(i);
    LeafOwn(e.right, n, n);
    OwnPair(i, Name(x), LeafValue(e.right), n, n);
    NeatFrom([i], n, n);
    hide S.IsTemp;
  }

  lemma StepNeat(item: StepItem, n: nat)
    requires OrdinaryStep(item)
    ensures Neat(LowerStep(item, n).code, n, LowerStep(item, n).next)
  {
    var a := LowerExpr(item.value, n);
    ExprNeat(item.value, n);
    ExprFine(item.value, n);
    ExprOwn(item.value, n);
    if item.Update? { UpdateNeat(a.code, n, a.next, a.value, item.name); }
    hide LowerExpr, Ordinary, Neat, Fine, S.IsTemp;
  }

  /** The temporary of a `for` step is taken at once. */
  lemma UpdateNeat(code: Body, n: int, next: nat, v: Value, name: string)
    requires Neat(code, n, next) && Fine(code, n, next) && n <= next && !S.IsTemp(name) && OwnValue(v, n, next)
    ensures Neat(code + [Copy(TempName(next), v), Copy(name, Name(TempName(next)))], n, next + 1)
  {
    var t := TempName(next);
    TempIsTemp(next);
    var tail := [Copy(t, v), Copy(name, Name(t))];
    hide S.IsTemp, TempName, DefinesIn, UsesIn, CopyNeat, TempIn, OwnValue, Fine;
    UpdateTaken(code, n, next, t, v, name);
    forall i | i in code + tail ensures DefinesIn(i, n, next + 1) && UsesIn(i, n, next + 1) && !i.TailCall? && CopyNeat(code + tail, i) {
      if i in code {
        Widened(i, n, next, n, next + 1);
        UsesWider(i, n, next, n, next + 1);
        UpdateCopies(code, n, next, t, v, name, i);
      } else {
        TailDefines(i, t, v, name, n, next);
        TailUses(i, t, v, name, n, next);
        TakenIsNeat(code + tail, i, t);
      }
    }
  }

  lemma TakenIsNeat(code: Body, i: Instruction, t: string)
    requires O.UsedAtOnce(code, t) && i.Copy? && (i.destination == t || !S.IsTemp(i.destination))
    ensures CopyNeat(code, i)
  {
    hide S.IsTemp, O.UsedAtOnce;
  }

  lemma TailDefines(i: Instruction, t: string, v: Value, name: string, n: int, next: nat)
    requires (i == Copy(t, v) || i == Copy(name, Name(t))) && TempIn(t, next, next + 1) && !S.IsTemp(name) && n <= next
    ensures DefinesIn(i, n, next + 1)
  {
    TempInWider(t, next, next + 1, n, next + 1);
    hide S.IsTemp, TempIn;
  }

  lemma TailUses(i: Instruction, t: string, v: Value, name: string, n: int, next: nat)
    requires (i == Copy(t, v) || i == Copy(name, Name(t))) && TempIn(t, next, next + 1) && OwnValue(v, n, next) && n <= next
    ensures UsesIn(i, n, next + 1)
  {
    TempInWider(t, next, next + 1, n, next + 1);
    OwnValueWider(v, n, next, n, next + 1);
    hide S.IsTemp, TempIn;
  }

  /** Nothing in front reads the new temporary, and behind its copy comes its only read. */
  lemma UpdateTaken(code: Body, n: int, next: nat, t: string, v: Value, name: string)
    requires Neat(code, n, next) && S.IsTemp(t) && TempIn(t, next, next + 1) && !S.IsTemp(name) && OwnValue(v, n, next)
    ensures O.UsedAtOnce(code + [Copy(t, v), Copy(name, Name(t))], t)
  {
    var tail := [Copy(t, v), Copy(name, Name(t))];
    NotReadBy(code, next, next + 1, n, next, t);
    NotRead(None, code, t);
    R.AtOnceJoin(None, code, tail, t);
    var last := if code == [] then None else Some(code[|code| - 1]);
    if v == Name(t) { RangesApart(t, n, next, next, next + 1); }
    PairTaken(last, t, v, name);
    hide Neat, O.AtOnce, S.IsTemp;
  }

  lemma PairTaken(p: Option<Instruction>, t: string, v: Value, name: string)
    requires v != Name(t) && !S.IsTemp(name)
    ensures O.AtOnce(p, [Copy(t, v), Copy(name, Name(t))], t)
  {
    hide S.IsTemp, O.AtOnce;
    var first, second := Copy(t, v), Copy(name, Name(t));
    R.AtOnceCons(p, first, [second], t);
    R.AtOnceCons(Some(first), second, [], t);
    R.AtOnceCons(Some(second), second, [], t);
    assert [second] + [] == [second] && [first] + [second] == [first, second];
  }

  lemma UpdateCopies(code: Body, n: int, next: nat, t: string, v: Value, name: string, i: Instruction)
    requires Fine(code, n, next) && S.IsTemp(t) && TempIn(t, next, next + 1) && !S.IsTemp(name) && i in code
    ensures CopyNeat(code + [Copy(t, v), Copy(name, Name(t))], i)
  {
    var tail := [Copy(t, v), Copy(name, Name(t))];
    hide S.IsTemp, O.UsedAtOnce, TempIn, DefinesIn;
    assert CopyFine(code, i);
    if i.Copy? && S.IsTemp(i.destination) && i.source.Name? {
      var y := i.source.id;
      assert tail == [tail[0]] + [tail[1]];
      R.CountSplit(code, tail, y);
      R.CountSplit([tail[0]], [tail[1]], y);
      R.CountOfOne(tail[0], y);
      R.CountOfOne(tail[1], y);
      if y == t {
        CountedIn(code, y, n, next);
        RangesApart(y, n, next, next, next + 1);
      }
    }
    hide Fine, S.CountDefs;
  }

  lemma {:induction false} StepsNeat(steps: seq<StepItem>, n: nat)
    requires OrdinarySteps(steps)
    ensures Neat(LowerSteps(steps, n).code, n, LowerSteps(steps, n).next)
    decreases |steps|
  {
    hide Neat, LowerStep, OrdinaryStep;
    if steps == [] {
      NeatFrame([], n);
    } else {
      var a := LowerStep(steps[0], n);
      var b := LowerSteps(steps[1..], a.next);
      StepNeat(steps[0], n);
      StepsNeat(steps[1..], a.next);
      NeatBoth(a.code, n, a.next, b.code, a.next, b.next, n, b.next);
    }
  }

  lemma {:induction false} AllNeat(ss: seq<Statement>, brk: Option<string>, cont: Option<string>, n: nat)
    requires OrdinaryAll(ss)
    ensures Neat(LowerAll(ss, brk, cont, n).code, n, LowerAll(ss, brk, cont, n).next)
    decreases ss, 0
  {
    hide Neat, LowerStatement;
    if ss == [] {
      NeatFrame([], n);
    } else {
      var a := LowerStatement(ss[0], brk, cont, n);
      var b := LowerAll(ss[1..], brk, cont, a.next);
      assert OrdinaryStatement(ss[0]);
      hide OrdinaryStatement;
      StatementNeat(ss[0], brk, cont, n);
      AllNeat(ss[1..], brk, cont, a.next);
      NeatBoth(a.code, n, a.next, b.code, a.next, b.next, n, b.next);
    }
  }

  lemma TakesValue(v: Value, x: string)
    ensures Uses(Copy(x, v)) == NamesOf(v) && Uses(Return(Some(v))) == NamesOf(v)
    ensures DestinationOf(Copy(x, v)) == Some(x) && DestinationOf(Return(Some(v))) == None
  {
  }

  lemma ReturnNeat(at: int)
    ensures Neat([Return(None)], at, at)
  {
    FinePlain([Return(None)], at);
    OwnNothing([Return(None)], at, at);
    NeatFrom([Return(None)], at, at);
  }

  lemma {:induction false} StatementNeat(st: Statement, brk: Option<string>, cont: Option<string>, n: nat)
    requires OrdinaryStatement(st)
    ensures Neat(LowerStatement(st, brk, cont, n).code, n, LowerStatement(st, brk, cont, n).next)
    decreases st, 1
  {
    hide Neat, LowerExpr, LowerArgs, LowerAll, LowerIf, LowerIfElse, LowerWhile, LowerDoWhile, LowerForLoop, S.IsTemp, Ordinary, OrdinaryAll, OrdinarySteps;
    match st
    case Assign(x, e) =>
      TakesValue(LowerExpr(e, n).value, x);
      ExprThen(e, n, Copy(x, LowerExpr(e, n).value));
      if SelfModify(x, e) { SelfNeat(x, e, n); }
    case Perform(f, args) =>
      ArgsThen(args, n, Call(f, LowerArgs(args, n).values, None));
    case If(_, _) => LoopNeat(st, brk, cont, n);
    case IfElse(_, _, _) => LoopNeat(st, brk, cont, n);
    case While(_, _) => LoopNeat(st, brk, cont, n);
    case DoWhile(_, _) => LoopNeat(st, brk, cont, n);
    case For(init, _, _, _) =>
      var a := LowerAll(init, None, None, n);
      AllNeat(init, None, None, n);
      ForNeat(st, a.next);
      NeatBoth(a.code, n, a.next, LowerForLoop(st, a.next).code, a.next, LowerForLoop(st, a.next).next, n, LowerForLoop(st, a.next).next);
    case Break => NeatFrame(JumpTo(brk), n);
    case Continue => NeatFrame(JumpTo(cont), n);
    case Compound(body) => AllNeat(body, brk, cont, n);
    case GiveBack(result) =>
      ReturnNeat(n);
      if result.Some? {
        TakesValue(LowerExpr(result.value, n).value, "");
        ExprThen(result.value, n, Return(Some(LowerExpr(result.value, n).value)));
      }
  }

  /** Labels, marks and jumps. */
  ghost predicate Frame(code: Body) {
    forall i :: i in code ==> i.Label? || i.LoopBoundary? || i.Jump?
  }

  lemma NeatFrame(code: Body, at: int)
    requires Frame(code)
    ensures Neat(code, at, at)
  {
    hide S.IsTemp, O.UsedAtOnce;
  }

  /** Some code, marks, and more code. */
  lemma NeatAround(a: Body, marks: Body, b: Body, lo: int, mid: int, hi: int)
    requires Neat(a, lo, mid) && Frame(marks) && Neat(b, mid, hi) && lo <= mid <= hi
    ensures Neat(a + (marks + b), lo, hi)
  {
    NeatFrame(marks, mid);
    hide Neat, Frame;
    NeatBoth(marks, mid, mid, b, mid, hi, mid, hi);
    NeatBoth(a, lo, mid, marks + b, mid, hi, lo, hi);
  }

  lemma {:induction false} LoopNeat(st: Statement, brk: Option<string>, cont: Option<string>, n: nat)
    requires OrdinaryStatement(st) && (st.If? || st.IfElse? || st.While? || st.DoWhile?)
    ensures Neat(LowerStatement(st, brk, cont, n).code, n, LowerStatement(st, brk, cont, n).next)
    decreases st, 0
  {
    hide Neat, LowerFalse, LowerTrue, LowerTest, LowerAll, LabelName, Ordinary, OrdinaryAll;
    NeatFrame([], n);
    match st
    case If(cond, body) =>
      var end := LabelName("endif", n);
      var a := LowerFalse(cond, end, n + 1);
      var b := LowerAll(body, brk, cont, a.next);
      FalseNeat(cond, end, n + 1);
      AllNeat(body, brk, cont, a.next);
      NeatFrame([Label(end)], b.next);
      NeatBoth(b.code, a.next, b.next, [Label(end)], b.next, b.next, a.next, b.next);
      NeatBoth(a.code, n + 1, a.next, b.code + [Label(end)], a.next, b.next, n, b.next);
    case IfElse(cond, body, other) =>
      var otherwise, end := LabelName("else", n), LabelName("endif", n + 1);
      var a := LowerFalse(cond, otherwise, n + 2);
      var b := LowerAll(body, brk, cont, a.next);
      var d := LowerAll(other, brk, cont, b.next);
      FalseNeat(cond, otherwise, n + 2);
      AllNeat(body, brk, cont, a.next);
      AllNeat(other, brk, cont, b.next);
      NeatFrame([Label(end)], d.next);
      NeatBoth(d.code, b.next, d.next, [Label(end)], d.next, d.next, b.next, d.next);
      NeatAround(b.code, [Jump(end), Label(otherwise)], d.code + [Label(end)], a.next, b.next, d.next);
      NeatBoth(a.code, n + 2, a.next, b.code + ([Jump(end), Label(otherwise)] + (d.code + [Label(end)])), a.next, d.next, n, d.next);
    case While(cond, body) =>
      var loop, end := LabelName("wloop", n), LabelName("wend", n + 1);
      var a := LowerTest(Some(cond), end, n + 2);
      var b := LowerAll(body, Some(end), Some(loop), a.next);
      TestNeat(Some(cond), end, n + 2);
      AllNeat(body, Some(end), Some(loop), a.next);
      var tail := [LoopBoundary(loop, end, false), Jump(loop), Label(end)];
      NeatFrame(tail, b.next);
      NeatBoth(b.code, a.next, b.next, tail, b.next, b.next, a.next, b.next);
      NeatAround(a.code, [LoopBoundary(loop, end, true)], b.code + tail, n + 2, a.next, b.next);
      NeatFrame([Label(loop)], n + 2);
      NeatBoth([Label(loop)], n + 2, n + 2, a.code + ([LoopBoundary(loop, end, true)] + (b.code + tail)), n + 2, b.next, n, b.next);
    case DoWhile(body, cond) =>
      var loop, again, end := LabelName("dloop", n), LabelName("dcond", n + 1), LabelName("dend", n + 2);
      var b := LowerAll(body, Some(end), Some(again), n + 3);
      var a := LowerTrue(cond, loop, b.next);
      AllNeat(body, Some(end), Some(again), n + 3);
      TrueNeat(cond, loop, b.next);
      NeatFrame([Label(end)], a.next);
      NeatBoth(a.code, b.next, a.next, [Label(end)], a.next, a.next, b.next, a.next);
      NeatAround(b.code, [LoopBoundary(again, end, false), Label(again)], a.code + [Label(end)], n + 3, b.next, a.next);
      NeatFrame([Label(loop), LoopBoundary(again, end, true)], n + 3);
      NeatBoth([Label(loop), LoopBoundary(again, end, true)], n + 3, n + 3,
        b.code + ([LoopBoundary(again, end, false), Label(again)] + (a.code + [Label(end)])), n + 3, a.next, n, a.next);
  }

  lemma {:induction false} ForNeat(st: Statement, n: nat)
    requires st.For? && OrdinaryStatement(st)
    ensures Neat(LowerForLoop(st, n).code, n, LowerForLoop(st, n).next)
    decreases st, 0
  {
    hide Neat, LowerTest, LowerAll, LowerSteps, LabelName, Ordinary, OrdinaryAll, OrdinarySteps;
    var loop, step, end := LabelName("floop", n), LabelName("fstep", n + 1), LabelName("fend", n + 2);
    var a := LowerTest(st.test, end, n + 3);
    var b := LowerAll(st.body, Some(end), Some(step), a.next);
    var d := LowerSteps(st.step, b.next);
    TestNeat(st.test, end, n + 3);
    AllNeat(st.body, Some(end), Some(step), a.next);
    StepsNeat(st.step, b.next);
    NeatFrame([Jump(loop), Label(end)], d.next);
    NeatBoth(d.code, b.next, d.next, [Jump(loop), Label(end)], d.next, d.next, b.next, d.next);
    var t1 := d.code + [Jump(loop), Label(end)];
    NeatAround(b.code, [LoopBoundary(step, end, false), Label(step)], t1, a.next, b.next, d.next);
    var t2 := b.code + ([LoopBoundary(step, end, false), Label(step)] + t1);
    NeatAround(a.code, [LoopBoundary(step, end, true)], t2, n + 3, a.next, d.next);
    NeatFrame([Label(loop)], n + 3);
    NeatBoth([Label(loop)], n + 3, n + 3, a.code + ([LoopBoundary(step, end, true)] + t2), n + 3, d.next, n, d.next);
  }
}
