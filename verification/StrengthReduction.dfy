/** Strength reduction in loops (cc/loops.py:343-411, 1118-1169, 1172-1226): a
    multiplication of an induction variable by a constant becomes an addition. */
module StrengthReduction {
  import opened Common
  import opened IR
  import opened Cfg
  import opened BlockRuns

  // ----- Arithmetic of machine words -----

  /** The word that represents `x`: unsigned for `low == 0`, signed for a negative
      `low`. */
  function Wrap(size: int, low: int, x: int): int
    requires size > 0
  {
    low + (x - low) % size
  }

  ghost predicate WordMachine(m: Machine, size: int, low: int) {
    && m.homes == map[] && size > 0
    && forall a, b ::
         && m.arithmetic("+", a, b) == Wrap(size, low, a + b)
         && m.arithmetic("-", a, b) == Wrap(size, low, a - b)
         && m.arithmetic("*", a, b) == Wrap(size, low, a * b)
  }

  lemma SameRemainder(size: int, x: int, y: int, q: int)
    requires size > 0 && x == y + q * size
    ensures x % size == y % size
  {
    var a, b := x / size, y / size;
    assert x == a * size + x % size && y == b * size + y % size;
    var d := a - b - q;
    assert d * size == y % size - x % size;
    Multiple(size, d, y % size - x % size);
  }

  lemma Multiple(size: int, d: int, e: int)
    requires size > 0 && d * size == e && -size < e < size
    ensures e == 0
  {
    assert d >= 1 ==> d * size >= size;
    assert d <= -1 ==> d * size <= -size;
  }

  /** Wrapping adds a multiple of the word size. */
  lemma WrapOffset(size: int, low: int, x: int) returns (q: int)
    requires size > 0
    ensures Wrap(size, low, x) == x + q * size
  {
    q := -((x - low) / size);
    assert x - low == (x - low) / size * size + (x - low) % size;
  }

  lemma WrapSame(size: int, low: int, x: int, y: int, q: int)
    requires size > 0 && x == y + q * size
    ensures Wrap(size, low, x) == Wrap(size, low, y)
  {
    SameRemainder(size, x - low, y - low, q);
  }

  lemma Distribute(a: int, s: int, q: int, k: int)
    ensures (a + s + q) * k == a * k + s * k + q * k
  {
  }

  /** Stepping and then multiplying, or multiplying and then adding the step times
      the factor: the same word. */
  lemma AccumulatorStep(size: int, low: int, a: int, s: int, k: int)
    requires size > 0
    ensures Wrap(size, low, Wrap(size, low, a * k) + s * k) == Wrap(size, low, Wrap(size, low, a + s) * k)
  {
    var p := WrapOffset(size, low, a * k);
    var q := WrapOffset(size, low, a + s);
    Distribute(a, s, q * size, k);
    var x, y := Wrap(size, low, a * k) + s * k, Wrap(size, low, a + s) * k;
    assert q * size * k == q * k * size;
    assert x == y + (p - q * k) * size;
    WrapSame(size, low, x, y, p - q * k);
  }

  // ----- The rewrite -----

  /** One reduction: the induction variable, the factor, and the new name that
      holds their product. */
  datatype Reduction = Reduction(iv: string, factor: int, acc: string)

  /** The step of `iv = iv + n` and `iv = iv - n`. */
  function StepOf(i: Instruction, iv: string): Option<int> {
    if i.BinaryOperation? && i.destination == iv && i.left == Name(iv) && i.right.Literal? && (i.operation == "+" || i.operation == "-")
    then Some(if i.operation == "+" then i.right.n else -i.right.n)
    else None
  }

  predicate IsProduct(i: Instruction, d: Reduction) {
    && i.BinaryOperation? && i.operation == "*"
    && ((i.left == Name(d.iv) && i.right == Literal(d.factor)) || (i.left == Literal(d.factor) && i.right == Name(d.iv)))
  }

  function Initial(d: Reduction): Instruction { BinaryOperation(d.acc, Name(d.iv), "*", Literal(d.factor)) }

  function Update(d: Reduction, step: int): Instruction { BinaryOperation(d.acc, Name(d.acc), "+", Literal(step * d.factor)) }

  /** Adds the accumulator's step after each step of the variable. */
  function Updated(code: Body, d: Reduction): Body {
    if code == [] then []
    else
      var s := StepOf(code[0], d.iv);
      (if s.Some? then [code[0], Update(d, s.value)] else [code[0]]) + Updated(code[1..], d)
  }

  function Replaced(code: Body, at: int, acc: string): Body {
    if 0 <= at < |code| && code[at].BinaryOperation? then code[at := Copy(code[at].destination, Name(acc))] else code
  }

  /** `after` follows the step of the variable with the accumulator's step, and may
      read the accumulator instead of multiplying. */
  ghost predicate Reduced(before: Body, after: Body, d: Reduction)
    decreases |before|
  {
    if before == [] then after == []
    else
      var s := StepOf(before[0], d.iv);
      if s.Some? then
        |after| >= 2 && after[0] == before[0] && after[1] == Update(d, s.value) && Reduced(before[1..], after[2..], d)
      else
        && after != [] && Reduced(before[1..], after[1..], d)
        && (after[0] == before[0] || (IsProduct(before[0], d) && after[0] == Copy(before[0].destination, Name(d.acc))))
  }

  lemma {:induction false} UpdatedIsReduced(code: Body, d: Reduction)
    ensures Reduced(code, Updated(code, d), d)
  {
    if code != [] {
      UpdatedIsReduced(code[1..], d);
      var s := StepOf(code[0], d.iv);
      assert Updated(code, d)[if s.Some? then 2 else 1..] == Updated(code[1..], d);
    }
  }

  lemma {:induction false} ReplacedIsReduced(code: Body, at: int, d: Reduction)
    requires 0 <= at < |code| && IsProduct(code[at], d)
    ensures Reduced(code, Updated(Replaced(code, at, d.acc), d), d)
    decreases at
  {
    var changed := Replaced(code, at, d.acc);
    var s := StepOf(code[0], d.iv);
    if at == 0 {
      assert changed[1..] == code[1..];
      UpdatedIsReduced(code[1..], d);
      assert Updated(changed, d) == [Copy(code[0].destination, Name(d.acc))] + Updated(code[1..], d);
    } else {
      assert changed[0] == code[0] && changed[1..] == Replaced(code[1..], at - 1, d.acc);
      ReplacedIsReduced(code[1..], at - 1, d);
      assert Updated(changed, d)[if s.Some? then 2 else 1..] == Updated(changed[1..], d);
    }
  }

  /** Without a step in it, code stays as it is. */
  lemma {:induction false} UnchangedIsReduced(code: Body, d: Reduction)
    requires forall k :: 0 <= k < |code| ==> StepOf(code[k], d.iv).None?
    ensures Reduced(code, code, d)
  {
    if code != [] {
      assert StepOf(code[0], d.iv).None?;
      forall k | 0 <= k < |code[1..]| ensures StepOf(code[1..][k], d.iv).None? { assert code[1..][k] == code[k + 1]; }
      UnchangedIsReduced(code[1..], d);
    }
  }

  // ----- The two runs -----

  ghost predicate FreshIn(code: Body, name: string) {
    forall k :: 0 <= k < |code| ==> name !in Uses(code[k]) && name !in Defs(code[k])
  }

  /** The variable is written only by its own steps. */
  ghost predicate OnlySteps(code: Body, iv: string) {
    forall k :: 0 <= k < |code| && iv in Defs(code[k]) ==> StepOf(code[k], iv).Some?
  }

  /** The stores agree on every name but the accumulator. */
  ghost predicate Agree(m: Machine, d: Reduction, u: Store, v: Store) {
    forall x :: x != d.acc ==> Read(m, u, x) == Read(m, v, x)
  }

  /** The accumulator holds the product. */
  ghost predicate Holding(m: Machine, d: Reduction, v: Store) {
    Read(m, v, d.acc) == m.arithmetic("*", Read(m, v, d.iv), d.factor)
  }

  ghost predicate ExitsAgree(m: Machine, d: Reduction, a: Exit, b: Exit, holding: bool) {
    match a
    case End(v, tr) => b == End(v, tr)
    case Leave(branch, s, tr) => b.Leave? && b.branch == branch && b.trace == tr && Agree(m, d, s, b.store) && (holding ==> Holding(m, d, b.store))
  }

  lemma ValueAgrees(m: Machine, d: Reduction, u: Store, v: Store, x: Value)
    requires Agree(m, d, u, v) && d.acc !in NamesOf(x)
    ensures ValueOf(m, u, x) == ValueOf(m, v, x)
  {
    if x.Name? { assert x.id in NamesOf(x); }
    hide Read;
  }

  lemma ValuesAgree(m: Machine, d: Reduction, u: Store, v: Store, xs: seq<Value>)
    requires Agree(m, d, u, v) && d.acc !in NamesOfAll(xs)
    ensures ValuesOf(m, u, xs) == ValuesOf(m, v, xs)
  {
    hide Agree, ValueOf;
    forall k | 0 <= k < |xs| ensures ValueOf(m, u, xs[k]) == ValueOf(m, v, xs[k]) {
      assert NamesOf(xs[k]) <= NamesOfAll(xs);
      ValueAgrees(m, d, u, v, xs[k]);
    }
  }

  lemma WriteAgrees(m: Machine, d: Reduction, u: Store, v: Store, x: string, n: int)
    requires m.homes == map[] && Agree(m, d, u, v) && x != d.acc
    ensures Agree(m, d, Write(m, u, x, n), Write(m, v, x, n))
    ensures x != d.iv && d.iv != d.acc && Holding(m, d, v) ==> Holding(m, d, Write(m, v, x, n))
  {
    var u', v' := Write(m, u, x, n), Write(m, v, x, n);
    forall y | y != d.acc ensures Read(m, u', y) == Read(m, v', y) {
      assert Read(m, u, y) == Read(m, v, y);
    }
    assert forall y :: y != x ==> Read(m, v', y) == Read(m, v, y);
  }

  /** One straight-line instruction that stays as it is. */
  lemma StepAgrees(m: Machine, d: Reduction, u: Store, v: Store, i: Instruction, trace: seq<Event>)
    requires m.homes == map[] && Agree(m, d, u, v) && d.acc !in Uses(i) && d.acc !in Defs(i) && d.iv != d.acc
    ensures Calls(m, i, u, trace) == Calls(m, i, v, trace)
    ensures Agree(m, d, Effect(m, i, u, trace), Effect(m, i, v, trace))
    ensures d.iv !in Defs(i) && Holding(m, d, v) ==> Holding(m, d, Effect(m, i, v, trace))
  {
    hide Agree, Holding, Write, ValueOf, ValuesOf;
    match i
    case Copy(x, a) =>
      ValueAgrees(m, d, u, v, a);
      WriteAgrees(m, d, u, v, x, ValueOf(m, v, a));
    case BinaryOperation(x, l, op, r) =>
      ValueAgrees(m, d, u, v, l);
      ValueAgrees(m, d, u, v, r);
      WriteAgrees(m, d, u, v, x, m.arithmetic(op, ValueOf(m, v, l), ValueOf(m, v, r)));
    case Call(_, args, result) =>
      ValuesAgree(m, d, u, v, args);
      if result.Some? { WriteAgrees(m, d, u, v, result.value, m.answer(Calls(m, i, v, trace))); }
    case TailCall(_, args) => ValuesAgree(m, d, u, v, args);
    case _ =>
  }

  /** A block's last instruction decides alike. */
  lemma LastAgrees(m: Machine, d: Reduction, u: Store, v: Store, i: Instruction, trace: seq<Event>)
    requires Agree(m, d, u, v) && d.acc !in Uses(i) && IsTerminator(i)
    ensures i.BranchFalse? ==> Holds(m, u, i) == Holds(m, v, i)
    ensures i.Return? && i.value.Some? ==> ValueOf(m, u, i.value.value) == ValueOf(m, v, i.value.value)
    ensures Calls(m, i, u, trace) == Calls(m, i, v, trace)
  {
    hide Agree, ValueOf, ValuesOf;
    match i
    case BranchFalse(l, _, r, _) =>
      ValueAgrees(m, d, u, v, l);
      ValueAgrees(m, d, u, v, r);
    case Return(x) => if x.Some? { ValueAgrees(m, d, u, v, x.value); }
    case TailCall(_, args) => ValuesAgree(m, d, u, v, args);
    case _ =>
  }

  lemma ProductIs(m: Machine, size: int, low: int, d: Reduction, i: Instruction, v: Store, trace: seq<Event>)
    requires WordMachine(m, size, low) && IsProduct(i, d) && Holding(m, d, v)
    ensures Effect(m, i, v, trace) == Effect(m, Copy(i.destination, Name(d.acc)), v, trace)
  {
    var a := Read(m, v, d.iv);
    assert a * d.factor == d.factor * a;
    hide Read, Write, Wrap;
  }

  /** A step of the variable and a step of the accumulator. */
  lemma BothSteps(m: Machine, size: int, low: int, d: Reduction, i: Instruction, v: Store, trace: seq<Event>)
    requires WordMachine(m, size, low) && StepOf(i, d.iv).Some? && Holding(m, d, v) && d.iv != d.acc
    ensures var w := Effect(m, i, v, trace); var w' := Effect(m, Update(d, StepOf(i, d.iv).value), w, trace);
      Holding(m, d, w') && Agree(m, d, w, w')
  {
    var s := StepOf(i, d.iv).value;
    var a := Read(m, v, d.iv);
    AccumulatorStep(size, low, a, s, d.factor);
    StepEffect(m, size, low, d, i, v, trace);
    var w := Effect(m, i, v, trace);
    var x := m.arithmetic("+", Read(m, w, d.acc), s * d.factor);
    assert Effect(m, Update(d, s), w, trace) == Write(m, w, d.acc, x);
    OnlyAccumulator(m, d, w, x);
    hide Effect, Wrap, Write, Read, Update, StepOf;
  }

  lemma StepEffect(m: Machine, size: int, low: int, d: Reduction, i: Instruction, v: Store, trace: seq<Event>)
    requires WordMachine(m, size, low) && StepOf(i, d.iv).Some? && d.iv != d.acc
    ensures var w := Effect(m, i, v, trace);
      Read(m, w, d.iv) == Wrap(size, low, Read(m, v, d.iv) + StepOf(i, d.iv).value) && Read(m, w, d.acc) == Read(m, v, d.acc)
  {
    hide Wrap;
  }

  lemma OnlyAccumulator(m: Machine, d: Reduction, w: Store, x: int)
    requires m.homes == map[] && d.iv != d.acc
    ensures Agree(m, d, w, Write(m, w, d.acc, x)) && Read(m, Write(m, w, d.acc, x), d.acc) == x && Read(m, Write(m, w, d.acc, x), d.iv) == Read(m, w, d.iv)
  {
  }

  lemma AgreeThen(m: Machine, d: Reduction, u: Store, v: Store, w: Store)
    requires Agree(m, d, u, v) && Agree(m, d, v, w)
    ensures Agree(m, d, u, w)
  {
    hide Read;
  }

  // ----- One block -----

  lemma {:induction false} LoopCodeAgrees(m: Machine, size: int, low: int, d: Reduction, before: Body, after: Body, u: Store, v: Store, trace: seq<Event>)
    requires WordMachine(m, size, low) && Reduced(before, after, d) && FreshIn(before, d.acc) && OnlySteps(before, d.iv) && d.iv != d.acc
    requires Agree(m, d, u, v) && Holding(m, d, v)
    ensures ExitsAgree(m, d, RunCode(m, before, u, trace), RunCode(m, after, v, trace), true)
    decreases |before|
  {
    hide WordMachine, Agree, Holding, Effect, Calls, Holds, Uses, Defs, OnlySteps, FreshIn, StepOf, IsProduct, Update;
    if before != [] {
      var i, j := before[0], after[0];
      TailConditions(before, d);
      StepKind(i, d);
      if StepOf(i, d.iv).Some? {
        SteppedAgrees(m, size, low, d, i, after[1], u, v, trace);
        var w := Effect(m, i, v, trace);
        TwoSteps(m, after, v, trace);
        LoopCodeAgrees(m, size, low, d, before[1..], after[2..], Effect(m, i, u, trace), Effect(m, after[1], w, trace), Calls(m, i, u, trace));
      } else if IsTerminator(i) {
        LastAgrees(m, d, u, v, i, trace);
        if i.BranchFalse? && Holds(m, u, i) {
          LoopCodeAgrees(m, size, low, d, before[1..], after[1..], u, v, trace);
        }
      } else {
        PlainAgrees(m, size, low, d, i, j, u, v, trace);
        RunCodeStep(m, after, v, trace);
        LoopCodeAgrees(m, size, low, d, before[1..], after[1..], Effect(m, i, u, trace), Effect(m, j, v, trace), Calls(m, i, u, trace));
      }
    }
  }

  lemma TailConditions(code: Body, d: Reduction)
    requires code != [] && FreshIn(code, d.acc) && OnlySteps(code, d.iv)
    ensures FreshIn(code[1..], d.acc) && OnlySteps(code[1..], d.iv)
    ensures d.acc !in Uses(code[0]) && d.acc !in Defs(code[0]) && (d.iv in Defs(code[0]) ==> StepOf(code[0], d.iv).Some?)
  {
    hide Uses, Defs, StepOf;
    var tail := code[1..];
    forall k | 0 <= k < |tail| ensures d.acc !in Uses(tail[k]) && d.acc !in Defs(tail[k]) && (d.iv in Defs(tail[k]) ==> StepOf(tail[k], d.iv).Some?) {
      assert tail[k] == code[k + 1];
    }
  }

  lemma StepKind(i: Instruction, d: Reduction)
    ensures StepOf(i, d.iv).Some? ==> !IsTerminator(i) && i.BinaryOperation?
    ensures IsProduct(i, d) ==> !IsTerminator(i) && i.BinaryOperation?
  {
  }

  lemma TwoSteps(m: Machine, code: Body, v: Store, trace: seq<Event>)
    requires |code| >= 2 && code[0].BinaryOperation? && code[1].BinaryOperation?
    ensures RunCode(m, code, v, trace) == RunCode(m, code[2..], Effect(m, code[1], Effect(m, code[0], v, trace), trace), trace)
    ensures Calls(m, code[0], v, trace) == trace
  {
    assert code[1..][1..] == code[2..] && code[1..][0] == code[1];
    RunCodeStep(m, code, v, trace);
    RunCodeStep(m, code[1..], Effect(m, code[0], v, trace), trace);
    hide RunCode, Effect;
  }

  /** A step of the variable, followed by the accumulator's. */
  lemma SteppedAgrees(m: Machine, size: int, low: int, d: Reduction, i: Instruction, j: Instruction, u: Store, v: Store, trace: seq<Event>)
    requires WordMachine(m, size, low) && d.iv != d.acc && Agree(m, d, u, v) && Holding(m, d, v)
    requires StepOf(i, d.iv).Some? && j == Update(d, StepOf(i, d.iv).value) && d.acc !in Uses(i) && d.acc !in Defs(i)
    ensures i.BinaryOperation? && j.BinaryOperation?
    ensures var w := Effect(m, j, Effect(m, i, v, trace), trace); Agree(m, d, Effect(m, i, u, trace), w) && Holding(m, d, w)
    ensures Calls(m, i, u, trace) == trace
  {
    WordHomes(m, size, low);
    StepKind(i, d);
    StepAgrees(m, d, u, v, i, trace);
    BothSteps(m, size, low, d, i, v, trace);
    var w := Effect(m, i, v, trace);
    AgreeThen(m, d, Effect(m, i, u, trace), w, Effect(m, j, w, trace));
    hide Effect, Agree, Holding, StepOf, WordMachine, Uses, Defs;
  }

  lemma WordHomes(m: Machine, size: int, low: int)
    requires WordMachine(m, size, low)
    ensures m.homes == map[]
  {
  }

  /** An instruction that stays, or a product that is read from the accumulator. */
  lemma PlainAgrees(m: Machine, size: int, low: int, d: Reduction, i: Instruction, j: Instruction, u: Store, v: Store, trace: seq<Event>)
    requires WordMachine(m, size, low) && d.iv != d.acc && Agree(m, d, u, v) && Holding(m, d, v) && !IsTerminator(i)
    requires d.acc !in Uses(i) && d.acc !in Defs(i) && d.iv !in Defs(i)
    requires j == i || (IsProduct(i, d) && j == Copy(i.destination, Name(d.acc)))
    ensures Agree(m, d, Effect(m, i, u, trace), Effect(m, j, v, trace)) && Holding(m, d, Effect(m, j, v, trace))
    ensures Calls(m, i, u, trace) == Calls(m, j, v, trace) && !IsTerminator(j)
  {
    WordHomes(m, size, low);
    StepAgrees(m, d, u, v, i, trace);
    if j != i {
      ProductIs(m, size, low, d, i, v, trace);
      StepKind(i, d);
    }
    hide Effect, Agree, Holding, WordMachine, Uses, Defs, IsProduct;
  }

  /** Outside the loop the code is the same. */
  lemma {:induction false} SameCodeAgrees(m: Machine, d: Reduction, code: Body, u: Store, v: Store, trace: seq<Event>)
    requires m.homes == map[] && FreshIn(code, d.acc) && d.iv != d.acc && Agree(m, d, u, v)
    ensures ExitsAgree(m, d, RunCode(m, code, u, trace), RunCode(m, code, v, trace), false)
    decreases |code|
  {
    hide Agree, Holding, Effect, Calls, Holds, Uses, Defs;
    if code != [] {
      var i := code[0];
      forall k | 0 <= k < |code[1..]| ensures d.acc !in Uses(code[1..][k]) && d.acc !in Defs(code[1..][k]) { assert code[1..][k] == code[k + 1]; }
      if IsTerminator(i) {
        LastAgrees(m, d, u, v, i, trace);
        if i.BranchFalse? && Holds(m, u, i) { SameCodeAgrees(m, d, code[1..], u, v, trace); }
      } else {
        StepAgrees(m, d, u, v, i, trace);
        SameCodeAgrees(m, d, code[1..], Effect(m, i, u, trace), Effect(m, i, v, trace), Calls(m, i, u, trace));
      }
    }
  }

  /** The preheader computes the first product before it leaves. */
  lemma PreheaderAgrees(m: Machine, d: Reduction, code: Body, u: Store, v: Store, trace: seq<Event>)
    requires m.homes == map[] && FreshIn(code, d.acc) && d.iv != d.acc && Agree(m, d, u, v) && Straight(code) && OneWay(code)
    ensures ExitsAgree(m, d, RunCode(m, code, u, trace), RunCode(m, WithCopies(code, [Initial(d)]), v, trace), true)
  {
    SameCodeAgrees(m, d, code, u, v, trace);
    OneWayLeaves(m, code, v, trace);
    CopiesRunLast(m, code, [Initial(d)], v, trace);
    var x := RunCode(m, code, v, trace);
    OneCopy(m, Initial(d), x.store);
    hide RunCode, WithCopies, RunCopies, Agree, Holding, Straight, OneWay, FreshIn;
    InitialHolds(m, d, RunCode(m, code, u, trace).store, x.store);
  }

  lemma OneCopy(m: Machine, i: Instruction, s: Store)
    ensures RunCopies(m, [i], s) == Effect(m, i, s, [])
  {
    assert [i][..0] == [];
  }

  lemma InitialHolds(m: Machine, d: Reduction, u: Store, v: Store)
    requires m.homes == map[] && d.iv != d.acc && Agree(m, d, u, v)
    ensures var w := Effect(m, Initial(d), v, []); Agree(m, d, u, w) && Holding(m, d, w)
  {
    var x := m.arithmetic("*", Read(m, v, d.iv), d.factor);
    OnlyAccumulator(m, d, v, x);
    assert Effect(m, Initial(d), v, []) == Write(m, v, d.acc, x);
    AgreeThen(m, d, u, v, Write(m, v, d.acc, x));
    hide Write, Read;
  }

  // ----- Whole runs -----

  /** Control comes into the region only from the preheader, and the preheader leads
      nowhere else. */
  ghost predicate SingleEntry(g: Graph, region: set<int>, pre: int, header: int) {
    && 0 <= pre < |g.succ| && pre !in region && g.succ[pre] == [header]
    && forall p, x :: 0 <= p < |g.succ| && x in g.succ[p] && x in region && p !in region ==> p == pre
  }

  /** The blocks before and after one reduction. */
  ghost predicate BlocksReduced(g: Graph, region: set<int>, pre: int, d: Reduction, before: seq<Body>, after: seq<Body>) {
    && |before| == |after| == |g.succ|
    && forall b :: 0 <= b < |before| ==> BlockReduced(region, pre, d, b, before[b], after[b])
  }

  ghost predicate BlockReduced(region: set<int>, pre: int, d: Reduction, b: int, before: Body, after: Body) {
    && FreshIn(before, d.acc)
    && (b in region ==> OnlySteps(before, d.iv) && Reduced(before, after, d))
    && (b == pre ==> Straight(before) && OneWay(before) && after == WithCopies(before, [Initial(d)]))
    && (b !in region && b != pre ==> after == before)
  }

  lemma {:induction false} ReducedEnds(before: Body, after: Body, d: Reduction)
    requires Reduced(before, after, d)
    ensures EndsInBranch(after) == EndsInBranch(before) && (after == [] <==> before == [])
    decreases |before|
  {
    hide IsProduct, Update;
    if before != [] {
      StepKind(before[0], d);
      UpdateKind(d, 0);
      if StepOf(before[0], d.iv).Some? {
        UpdateKind(d, StepOf(before[0], d.iv).value);
        ReducedEnds(before[1..], after[2..], d);
      } else {
        ReducedEnds(before[1..], after[1..], d);
      }
      hide Reduced, StepOf;
      LastOf(before, 1);
      LastOf(after, if StepOf(before[0], d.iv).Some? then 2 else 1);
    }
  }

  lemma UpdateKind(d: Reduction, step: int)
    ensures Update(d, step).BinaryOperation?
  {
  }

  lemma LastOf(code: Body, n: int)
    requires 0 <= n <= |code|
    ensures code[n..] != [] ==> EndsInBranch(code[n..]) == EndsInBranch(code)
    ensures code[n..] == [] <==> n == |code|
  {
    if n < |code| { assert code[n..][|code[n..]| - 1] == code[|code| - 1]; }
  }

  lemma BlockExits(m: Machine, size: int, low: int, g: Graph, region: set<int>, pre: int, header: int, d: Reduction, before: Body, after: Body,
                   b: int, u: Store, v: Store, trace: seq<Event>)
    requires WordMachine(m, size, low) && d.iv != d.acc && SingleEntry(g, region, pre, header) && BlockReduced(region, pre, d, b, before, after)
    requires Agree(m, d, u, v) && (b in region ==> Holding(m, d, v))
    ensures ExitsAgree(m, d, RunCode(m, before, u, trace), RunCode(m, after, v, trace), b in region || b == pre)
    ensures EndsInBranch(after) == EndsInBranch(before)
  {
    WordHomes(m, size, low);
    hide WordMachine, RunCode, Agree, Holding, FreshIn, OnlySteps, Reduced, Straight, OneWay, WithCopies, EndsInBranch;
    if b in region {
      LoopCodeAgrees(m, size, low, d, before, after, u, v, trace);
      ReducedEnds(before, after, d);
    } else if b == pre {
      PreheaderAgrees(m, d, before, u, v, trace);
      assert AllPlain([Initial(d)]);
      CopiesKeepEnding(before, [Initial(d)]);
    } else {
      SameCodeAgrees(m, d, before, u, v, trace);
    }
  }

  /** Both runs from any block on: the same calls and the same end, on every machine
      whose words wrap. */
  lemma {:induction false} RunsAgree(m: Machine, size: int, low: int, g: Graph, region: set<int>, pre: int, header: int, d: Reduction,
                                     before: seq<Body>, after: seq<Body>, b: int, u: Store, v: Store, trace: seq<Event>, fuel: nat)
    requires WordMachine(m, size, low) && d.iv != d.acc && SingleEntry(g, region, pre, header) && BlocksReduced(g, region, pre, d, before, after)
    requires 0 <= b < |before| && Agree(m, d, u, v) && (b in region ==> Holding(m, d, v))
    ensures RunBlocks(m, before, g, b, u, trace, fuel) == RunBlocks(m, after, g, b, v, trace, fuel)
    decreases fuel
  {
    hide WordMachine, RunCode, Agree, Holding, BlockReduced, EndsInBranch;
    assert BlockReduced(region, pre, d, b, before[b], after[b]);
    BlockExits(m, size, low, g, region, pre, header, d, before[b], after[b], b, u, v, trace);
    var x, y := RunCode(m, before[b], u, trace), RunCode(m, after[b], v, trace);
    if x.Leave? {
      var next := NextBlock(before[b], g.succ[b], x.branch);
      if next.Some? && fuel > 0 && 0 <= next.value < |before| {
        var c := next.value;
        assert c in g.succ[b];
        RunsAgree(m, size, low, g, region, pre, header, d, before, after, c, x.store, y.store, x.trace, fuel - 1);
      }
    }
  }
}
