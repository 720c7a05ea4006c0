/** Lowered code does what the source says: same store, same calls in the same
    order, same result, and it diverges exactly when the source does. */
module LoweringMeaning {
  import opened Common
  import opened IR
  import opened Cfg
  import opened SsaNames
  import opened Lowering
  import opened LoweringLabels

  // ----- Points of a run -----

  datatype Point = Point(at: int, store: Store, trace: seq<Event>)

  function From(m: Machine, body: Body, p: Point, fuel: nat): Result
    requires 0 <= p.at <= |body|
  {
    Eval(m, body, body[p.at..], p.store, p.trace, fuel)
  }

  /** From `p` the run comes to `q` after `k` control transfers. */
  ghost predicate Reaches(m: Machine, body: Body, p: Point, q: Point, k: nat) {
    0 <= p.at <= |body| && 0 <= q.at <= |body| && forall f: nat :: From(m, body, p, f + k) == From(m, body, q, f)
  }

  lemma ReachesSelf(m: Machine, body: Body, p: Point)
    requires 0 <= p.at <= |body|
    ensures Reaches(m, body, p, p, 0)
  {
    hide From;
  }

  lemma ReachesWith(m: Machine, body: Body, p: Point, q: Point, k: nat, f: nat)
    requires Reaches(m, body, p, q, k)
    ensures 0 <= p.at <= |body| && 0 <= q.at <= |body| && From(m, body, p, f + k) == From(m, body, q, f)
  {
  }

  lemma Then(m: Machine, body: Body, p: Point, q: Point, r: Point, j: nat, k: nat)
    requires Reaches(m, body, p, q, j) && Reaches(m, body, q, r, k)
    ensures Reaches(m, body, p, r, j + k)
  {
    forall f: nat ensures From(m, body, p, f + (j + k)) == From(m, body, r, f) {
      ReachesWith(m, body, q, r, k, f);
      ReachesWith(m, body, p, q, j, f + k);
      hide *;
      assert f + (j + k) == f + k + j;
    }
    hide From;
  }

  lemma ReachesLanded(m: Machine, body: Body, p: Point, q: Point, j: nat, trace: seq<Event>, k: nat)
    requires Reaches(m, body, p, q, j) && Landed(m, body, q, trace, k)
    ensures Landed(m, body, p, trace, j + k)
  {
    ReachesWith(m, body, p, q, j, k - 1);
    hide From;
    assert k - 1 + j == j + k - 1;
  }

  lemma StepOver(m: Machine, body: Body, p: Point)
    requires 0 <= p.at < |body| && !IsTerminator(body[p.at])
    ensures Reaches(m, body, p, Point(p.at + 1, Effect(m, body[p.at], p.store, p.trace), Calls(m, body[p.at], p.store, p.trace)), 0)
  {
    var rest := body[p.at..];
    assert rest[0] == body[p.at] && rest[1..] == body[p.at + 1..];
  }

  lemma JumpOver(m: Machine, body: Body, p: Point, target: string)
    requires 0 <= p.at < |body| && body[p.at] == Jump(target)
    ensures Reaches(m, body, p, p.(at := LabelIndex(body, target)), 1) && Landed(m, body, p, p.trace, 1)
  {
    var rest, q := body[p.at..], p.(at := LabelIndex(body, target));
    assert rest[0] == body[p.at];
    assert From(m, body, p, 0) == Transfer(m, body, target, p.store, p.trace, 0);
    forall f: nat ensures From(m, body, p, f + 1) == From(m, body, q, f) {
      assert From(m, body, p, f + 1) == Transfer(m, body, target, p.store, p.trace, f + 1);
    }
    hide LabelIndex;
  }

  lemma BranchOver(m: Machine, body: Body, p: Point) returns (k: nat)
    requires 0 <= p.at < |body| && body[p.at].BranchFalse?
    ensures Reaches(m, body, p, p.(at := if Holds(m, p.store, body[p.at]) then p.at + 1 else LabelIndex(body, body[p.at].target)), k)
    ensures !Holds(m, p.store, body[p.at]) ==> Landed(m, body, p, p.trace, k)
  {
    var rest := body[p.at..];
    assert rest[0] == body[p.at] && rest[1..] == body[p.at + 1..];
    if Holds(m, p.store, body[p.at]) {
      k := 0;
    } else {
      k := 1;
      var target := body[p.at].target;
      assert From(m, body, p, 0) == Transfer(m, body, target, p.store, p.trace, 0);
      forall f: nat ensures From(m, body, p, f + 1) == From(m, body, p.(at := LabelIndex(body, target)), f) {
        assert From(m, body, p, f + 1) == Transfer(m, body, target, p.store, p.trace, f + 1);
      }
    }
    hide LabelIndex, Holds;
  }

  // ----- Code in its place -----

  predicate Placed(body: Body, at: int, code: Body) {
    0 <= at && at + |code| <= |body| && body[at..at + |code|] == code
  }

  lemma PlacedBoth(body: Body, at: int, a: Body, b: Body)
    requires Placed(body, at, a + b)
    ensures Placed(body, at, a) && Placed(body, at + |a|, b)
  {
    var c := a + b;
    assert body[at..at + |a|] == c[..|a|];
    assert body[at + |a|..at + |a| + |b|] == c[|a|..];
  }

  lemma PlacedAt(body: Body, at: int, code: Body, k: int)
    requires Placed(body, at, code) && 0 <= k < |code|
    ensures 0 <= at + k < |body| && body[at + k] == code[k]
  {
    assert body[at..at + |code|][k] == code[k];
  }

  lemma LabelAt(body: Body, at: int, name: string)
    requires UniqueLabels(body) && Placed(body, at, [Label(name)])
    ensures LabelIndex(body, name) == at && 0 <= at < |body| && body[at] == Label(name)
  {
    PlacedAt(body, at, [Label(name)], 0);
    LabelIndexIs(body, at);
  }

  // ----- Stores -----

  ghost predicate TempFrom(x: string, lo: nat) {
    exists n: nat :: lo <= n && x == TempName(n)
  }

  /** `v` differs from `u` only in temporaries numbered from `lo`. */
  ghost predicate Kept(m: Machine, u: Store, v: Store, lo: nat) {
    forall x :: !TempFrom(x, lo) ==> Read(m, v, x) == Read(m, u, x)
  }

  /** `u` holds what `s` holds in every variable. */
  ghost predicate Matches(m: Machine, s: Store, u: Store) {
    forall x :: !TempFrom(x, 0) ==> Read(m, s, x) == Read(m, u, x)
  }

  ghost predicate StableValue(v: Value, hi: nat) {
    v.Name? ==> !TempFrom(v.id, hi)
  }

  lemma TempFromLess(x: string, lo: nat, hi: nat)
    requires TempFrom(x, hi) && lo <= hi
    ensures TempFrom(x, lo)
  {
    var n: nat :| hi <= n && x == TempName(n);
  }

  lemma OwnTemp(n: nat)
    ensures TempFrom(TempName(n), n) && !TempFrom(TempName(n), n + 1)
  {
    if TempFrom(TempName(n), n + 1) {
      var k: nat :| n + 1 <= k && TempName(n) == TempName(k);
      TempsDiffer(n, k);
    }
  }

  lemma KeptSelf(m: Machine, u: Store, lo: nat)
    ensures Kept(m, u, u, lo)
  {
  }

  lemma KeptThen(m: Machine, u: Store, v: Store, w: Store, lo: nat, hi: nat)
    requires Kept(m, u, v, lo) && Kept(m, v, w, hi) && lo <= hi
    ensures Kept(m, u, w, lo)
  {
    forall x | !TempFrom(x, lo) ensures Read(m, w, x) == Read(m, u, x) {
      if TempFrom(x, hi) { TempFromLess(x, lo, hi); }
    }
    hide TempFrom;
  }

  lemma KeptMatches(m: Machine, s: Store, u: Store, v: Store, lo: nat)
    requires Matches(m, s, u) && Kept(m, u, v, lo)
    ensures Matches(m, s, v)
  {
    forall x | !TempFrom(x, 0) ensures Read(m, s, x) == Read(m, v, x) {
      if TempFrom(x, lo) { TempFromLess(x, 0, lo); }
    }
    hide TempFrom;
  }

  lemma StableKept(m: Machine, u: Store, v: Store, x: Value, hi: nat)
    requires Kept(m, u, v, hi) && StableValue(x, hi)
    ensures ValueOf(m, v, x) == ValueOf(m, u, x)
  {
    hide TempFrom;
  }

  lemma StableLonger(x: Value, hi: nat, more: nat)
    requires StableValue(x, hi) && hi <= more
    ensures StableValue(x, more)
  {
    if x.Name? && TempFrom(x.id, more) { TempFromLess(x.id, hi, more); }
  }

  /** Writing a fresh temporary. */
  lemma WriteTemp(m: Machine, u: Store, n: nat, x: int)
    requires m.homes == map[]
    ensures Kept(m, u, Write(m, u, TempName(n), x), n) && Read(m, Write(m, u, TempName(n), x), TempName(n)) == x
    ensures StableValue(Name(TempName(n)), n + 1)
  {
    OwnTemp(n);
    hide TempName, TempFrom;
  }

  lemma WriteBoth(m: Machine, s: Store, u: Store, x: string, n: int)
    requires m.homes == map[] && Matches(m, s, u)
    ensures Matches(m, Write(m, s, x, n), Write(m, u, x, n))
  {
    hide TempFrom;
  }

  // ----- What is assumed -----

  /** A comparison used as a value is 1 or 0. */
  ghost predicate SaneMachine(m: Machine) {
    m.homes == map[] && forall op, l, r :: IsComparison(op) ==> m.arithmetic(op, l, r) == Bit(Compare(m, op, l, r))
  }

  /** No variable of the source is named like a temporary. */
  ghost predicate CleanExpr(e: Expr)
    decreases e
  {
    match e
    case Int(_) => true
    case Var(x) => !TempFrom(x, 0)
    case CallOf(_, args) => CleanArgs(args)
    case Binary(_, l, r) => CleanExpr(l) && CleanExpr(r)
    case And(l, r) => CleanExpr(l) && CleanExpr(r)
    case Or(l, r) => CleanExpr(l) && CleanExpr(r)
  }

  ghost predicate CleanArgs(args: seq<Expr>)
    decreases args
  {
    forall k :: 0 <= k < |args| ==> CleanExpr(args[k])
  }

  // ----- Expressions -----

  ghost predicate Ready(m: Machine, body: Body, s: Store, u: Store) {
    SaneMachine(m) && UniqueLabels(body) && Matches(m, s, u)
  }

  /** What running an expression's code has achieved. */
  ghost predicate ExprDone(m: Machine, body: Body, p: Point, c: ExprCode, n: nat, r: Answered, u: Store, k: nat) {
    && Reaches(m, body, p, Point(p.at + |c.code|, u, r.trace), k)
    && Kept(m, p.store, u, n) && StableValue(c.value, c.next) && ValueOf(m, u, c.value) == r.value
  }

  ghost predicate ArgsDone(m: Machine, body: Body, p: Point, c: ArgsCode, n: nat, r: AllAnswered, u: Store, k: nat) {
    && Reaches(m, body, p, Point(p.at + |c.code|, u, r.trace), k)
    && Kept(m, p.store, u, n) && (forall i :: 0 <= i < |c.values| ==> StableValue(c.values[i], c.next)) && ValuesOf(m, u, c.values) == r.values
  }

  /** The last thing that happened was a transfer: with one unit of fuel less the
      run stops just before it. */
  ghost predicate Landed(m: Machine, body: Body, p: Point, trace: seq<Event>, k: nat) {
    0 <= p.at <= |body| && k >= 1 && From(m, body, p, k - 1) == Exhausted(trace)
  }

  /** A condition's code has come to its end or to its target. */
  ghost predicate CondDone(m: Machine, body: Body, p: Point, end: int, target: string, jumps: bool, n: nat, trace: seq<Event>, u: Store, k: nat) {
    && Reaches(m, body, p, Point(if jumps then LabelIndex(body, target) else end, u, trace), k)
    && Kept(m, p.store, u, n) && (jumps ==> Landed(m, body, p, trace, k))
  }

  // ----- Shapes and facts, one step deep -----

  lemma EvalIs(m: Machine, s: Store, e: Expr, trace: seq<Event>)
    requires e.Binary? || ShortCircuit(e)
    ensures var x := EvalExpr(m, s, e.left, trace); var y := EvalExpr(m, s, e.right, x.trace); var z := EvalExpr(m, s, e, trace);
      && (e.And? ==> z == if x.value == 0 then Answered(0, x.trace) else Answered(Bit(y.value != 0), y.trace))
      && (e.Or? ==> z == if x.value != 0 then Answered(1, x.trace) else Answered(Bit(y.value != 0), y.trace))
      && (e.Binary? && IsComparison(e.operation) ==> z == Answered(Bit(Compare(m, e.operation, x.value, y.value)), y.trace))
      && (e.Binary? && SaneMachine(m) ==> z == Answered(m.arithmetic(e.operation, x.value, y.value), y.trace))
  {
  }

  lemma BitIs(b: bool)
    ensures (Bit(b) == 0) == !b && (b ==> Bit(b) == 1)
  {
  }

  lemma CleanIs(e: Expr)
    requires CleanExpr(e)
    ensures e.Binary? || e.And? || e.Or? ==> CleanExpr(e.left) && CleanExpr(e.right)
    ensures e.CallOf? ==> CleanArgs(e.args)
  {
  }

  lemma FalseIs(e: Expr, target: string, n: nat)
    ensures var c := LowerFalse(e, target, n);
      if e.And? then
        var a := LowerFalse(e.left, target, n); var b := LowerFalse(e.right, target, a.next); c == Code(a.code + b.code, b.next)
      else if e.Or? then
        var a := LowerTrue(e.left, LabelName("lor", n), n + 1); var b := LowerFalse(e.right, target, a.next);
        c == Code(a.code + b.code + [Label(LabelName("lor", n))], b.next)
      else if e.Binary? && IsComparison(e.operation) then
        var a := LowerExpr(e.left, n); var b := LowerExpr(e.right, a.next);
        c == Code(a.code + b.code + [BranchFalse(a.value, e.operation, b.value, target)], b.next)
      else
        var a := LowerExpr(e, n); c == Code(a.code + [BranchFalse(a.value, "!=", Literal(0), target)], a.next)
  {
  }

  lemma TrueIs(e: Expr, target: string, n: nat)
    ensures var c := LowerTrue(e, target, n);
      if e.Or? then
        var a := LowerTrue(e.left, target, n); var b := LowerTrue(e.right, target, a.next); c == Code(a.code + b.code, b.next)
      else if e.And? then
        var a := LowerFalse(e.left, LabelName("land", n), n + 1); var b := LowerTrue(e.right, target, a.next);
        c == Code(a.code + b.code + [Label(LabelName("land", n))], b.next)
      else if e.Binary? && IsComparison(e.operation) then
        var a := LowerExpr(e.left, n); var b := LowerExpr(e.right, a.next);
        c == Code(a.code + b.code + [BranchFalse(a.value, Inverted(e.operation), b.value, target)], b.next)
      else
        var a := LowerExpr(e, n); c == Code(a.code + [BranchFalse(a.value, "==", Literal(0), target)], a.next)
  {
  }

  lemma ExprFacts(m: Machine, body: Body, p: Point, c: ExprCode, n: nat, r: Answered, u: Store, k: nat)
    requires ExprDone(m, body, p, c, n, r, u, k)
    ensures Reaches(m, body, p, Point(p.at + |c.code|, u, r.trace), k)
    ensures Kept(m, p.store, u, n) && StableValue(c.value, c.next) && ValueOf(m, u, c.value) == r.value
  {
  }

  lemma CondFacts(m: Machine, body: Body, p: Point, end: int, target: string, jumps: bool, n: nat, trace: seq<Event>, u: Store, k: nat)
    requires CondDone(m, body, p, end, target, jumps, n, trace, u, k)
    ensures Reaches(m, body, p, Point(if jumps then LabelIndex(body, target) else end, u, trace), k) && Kept(m, p.store, u, n)
    ensures jumps ==> Landed(m, body, p, trace, k)
  {
  }

  lemma CondIs(m: Machine, body: Body, p: Point, end: int, target: string, jumps: bool, n: nat, trace: seq<Event>, u: Store, k: nat)
    requires Reaches(m, body, p, Point(if jumps then LabelIndex(body, target) else end, u, trace), k) && Kept(m, p.store, u, n)
    requires jumps ==> Landed(m, body, p, trace, k)
    ensures CondDone(m, body, p, end, target, jumps, n, trace, u, k)
  {
  }

  // ----- Straight pieces -----

  /** Runs the one instruction at the end of an expression's code. */
  lemma LastStep(m: Machine, body: Body, p: Point, at: int, u: Store, trace: seq<Event>, k: nat, i: Instruction)
    requires Reaches(m, body, p, Point(at, u, trace), k) && Placed(body, at, [i]) && !IsTerminator(i)
    ensures Reaches(m, body, p, Point(at + 1, Effect(m, i, u, trace), Calls(m, i, u, trace)), k)
  {
    PlacedAt(body, at, [i], 0);
    StepOver(m, body, Point(at, u, trace));
    hide Reaches, Effect, Calls;
    Then(m, body, p, Point(at, u, trace), Point(at + 1, Effect(m, i, u, trace), Calls(m, i, u, trace)), k, 0);
  }

  /** A temporary receives the value of an operation or a call. */
  lemma TempDone(m: Machine, body: Body, p: Point, code: Body, n: nat, at: int, u: Store, trace: seq<Event>, k: nat, i: Instruction, t: nat, r: Answered) returns (v: Store)
    requires m.homes == map[] && Reaches(m, body, p, Point(at, u, trace), k) && Placed(body, at, [i]) && !IsTerminator(i) && Kept(m, p.store, u, n) && n <= t
    requires at + 1 == p.at + |code|
    requires Effect(m, i, u, trace) == Write(m, u, TempName(t), r.value) && Calls(m, i, u, trace) == r.trace
    ensures ExprDone(m, body, p, ExprCode(code, Name(TempName(t)), t + 1), n, r, v, k)
  {
    LastStep(m, body, p, at, u, trace, k, i);
    WriteTemp(m, u, t, r.value);
    v := Write(m, u, TempName(t), r.value);
    hide Reaches, Effect, Calls, Write, TempName, Kept, StableValue, Read;
    KeptThen(m, p.store, u, v, n, t);
  }

  /** Two operands, one after the other. */
  lemma {:induction false} TwoRun(m: Machine, body: Body, p: Point, e: Expr, n: nat, s: Store) returns (u: Store, k: nat)
    requires e.Binary? && Ready(m, body, s, p.store) && CleanExpr(e)
    requires Placed(body, p.at, LowerExpr(e.left, n).code + LowerExpr(e.right, LowerExpr(e.left, n).next).code)
    ensures var a := LowerExpr(e.left, n); var b := LowerExpr(e.right, a.next);
      var x := EvalExpr(m, s, e.left, p.trace); var y := EvalExpr(m, s, e.right, x.trace);
      && Reaches(m, body, p, Point(p.at + |a.code| + |b.code|, u, y.trace), k) && Kept(m, p.store, u, n)
      && ValueOf(m, u, a.value) == x.value && ValueOf(m, u, b.value) == y.value
    decreases e, 0
  {
    hide *;
    CleanIs(e);
    var l, r := e.left, e.right;
    var a := LowerExpr(l, n);
    var b := LowerExpr(r, a.next);
    var x := EvalExpr(m, s, l, p.trace);
    PlacedBoth(body, p.at, a.code, b.code);
    var v, i := ExprRuns(m, body, p, l, n, s);
    ExprFacts(m, body, p, a, n, x, v, i);
    var q := Point(p.at + |a.code|, v, x.trace);
    ReadyAfter(m, body, s, p.store, v, n);
    var w, j := ExprRuns(m, body, q, r, a.next, s);
    u, k := w, i + j;
    var y := EvalExpr(m, s, r, x.trace);
    ExprFacts(m, body, q, b, a.next, y, u, j);
    Then(m, body, p, q, Point(q.at + |b.code|, u, y.trace), i, j);
    KeptThen(m, p.store, v, u, n, a.next);
    StableKept(m, v, u, a.value, a.next);
  }

  lemma LeafRuns(m: Machine, body: Body, p: Point, e: Expr, n: nat, s: Store)
    requires Ready(m, body, s, p.store) && CleanExpr(e) && Leaf(e) && 0 <= p.at <= |body|
    ensures ExprDone(m, body, p, LowerExpr(e, n), n, EvalExpr(m, s, e, p.trace), p.store, 0)
  {
    ReachesSelf(m, body, p);
    forall x | TempFrom(x, n) ensures TempFrom(x, 0) { TempFromLess(x, 0, n); }
    hide Reaches, TempFrom;
  }

  lemma {:induction false} ExprRuns(m: Machine, body: Body, p: Point, e: Expr, n: nat, s: Store) returns (u: Store, k: nat)
    requires Ready(m, body, s, p.store) && CleanExpr(e) && Placed(body, p.at, LowerExpr(e, n).code)
    ensures ExprDone(m, body, p, LowerExpr(e, n), n, EvalExpr(m, s, e, p.trace), u, k)
    decreases e, if ShortCircuit(e) then 3 else 1
  {
    hide *;
    if ShortCircuit(e) {
      u, k := BitRuns(m, body, p, e, n, s);
    } else {
      u, k := PlainExpr(m, body, p, e, n, s);
    }
  }

  lemma BinaryIs(e: Expr, n: nat)
    requires e.Binary?
    ensures var a := LowerExpr(e.left, n); var b := LowerExpr(e.right, a.next);
      LowerExpr(e, n) == ExprCode(a.code + b.code + [BinaryOperation(TempName(b.next), a.value, e.operation, b.value)], Name(TempName(b.next)), b.next + 1)
  {
  }

  lemma OperationEffect(m: Machine, i: Instruction, v: Store, trace: seq<Event>, x: int, y: int)
    requires i.BinaryOperation? && ValueOf(m, v, i.left) == x && ValueOf(m, v, i.right) == y
    ensures !IsTerminator(i) && Calls(m, i, v, trace) == trace
    ensures Effect(m, i, v, trace) == Write(m, v, i.destination, m.arithmetic(i.operation, x, y))
  {
  }

  lemma {:induction false} BinaryRuns(m: Machine, body: Body, p: Point, e: Expr, n: nat, s: Store) returns (u: Store, k: nat)
    requires e.Binary? && Ready(m, body, s, p.store) && CleanExpr(e) && Placed(body, p.at, LowerExpr(e, n).code)
    ensures ExprDone(m, body, p, LowerExpr(e, n), n, EvalExpr(m, s, e, p.trace), u, k)
    decreases e, 1, 0
  {
    hide *;
    var a := LowerExpr(e.left, n);
    var b := LowerExpr(e.right, a.next);
    var i := BinaryOperation(TempName(b.next), a.value, e.operation, b.value);
    var c, r := LowerExpr(e, n), EvalExpr(m, s, e, p.trace);
    BinaryIs(e, n);
    var x := EvalExpr(m, s, e.left, p.trace);
    var y := EvalExpr(m, s, e.right, x.trace);
    SaneHomes(m, body, s, p.store);
    EvalIs(m, s, e, p.trace);
    PlacedBoth(body, p.at, a.code + b.code, [i]);
    PlacedBoth(body, p.at, a.code, b.code);
    var v;
    v, k := TwoRun(m, body, p, e, n, s);
    OperationEffect(m, i, v, y.trace, x.value, y.value);
    u := TempDone(m, body, p, c.code, n, p.at + |a.code| + |b.code|, v, y.trace, k, i, b.next, r);
  }

  lemma SaneHomes(m: Machine, body: Body, s: Store, u: Store)
    requires Ready(m, body, s, u)
    ensures m.homes == map[] && UniqueLabels(body) && Matches(m, s, u) && SaneMachine(m)
  {
  }

  lemma ReadyAfter(m: Machine, body: Body, s: Store, u: Store, v: Store, lo: nat)
    requires Ready(m, body, s, u) && Kept(m, u, v, lo)
    ensures Ready(m, body, s, v)
  {
    KeptMatches(m, s, u, v, lo);
  }

  lemma CallIs(m: Machine, s: Store, e: Expr, n: nat, trace: seq<Event>)
    requires e.CallOf?
    ensures var a := LowerArgs(e.args, n);
      LowerExpr(e, n) == ExprCode(a.code + [Call(e.callee, a.values, Some(TempName(a.next)))], Name(TempName(a.next)), a.next + 1)
    ensures var x := EvalArgs(m, s, e.args, trace); var t := x.trace + [Event(e.callee, x.values)];
      EvalExpr(m, s, e, trace) == Answered(m.answer(t), t)
  {
  }

  lemma CallEffect(m: Machine, i: Instruction, v: Store, trace: seq<Event>, values: seq<int>)
    requires i.Call? && i.result.Some? && ValuesOf(m, v, i.args) == values
    ensures var t := trace + [Event(i.callee, values)];
      !IsTerminator(i) && Calls(m, i, v, trace) == t && Effect(m, i, v, trace) == Write(m, v, i.result.value, m.answer(t))
  {
  }

  lemma {:induction false} CallRuns(m: Machine, body: Body, p: Point, e: Expr, n: nat, s: Store) returns (u: Store, k: nat)
    requires e.CallOf? && Ready(m, body, s, p.store) && CleanExpr(e) && Placed(body, p.at, LowerExpr(e, n).code)
    ensures ExprDone(m, body, p, LowerExpr(e, n), n, EvalExpr(m, s, e, p.trace), u, k)
    decreases e, 1, 0
  {
    hide *;
    var a := LowerArgs(e.args, n);
    var i := Call(e.callee, a.values, Some(TempName(a.next)));
    var c, r := LowerExpr(e, n), EvalExpr(m, s, e, p.trace);
    CallIs(m, s, e, n, p.trace);
    CleanIs(e);
    var x := EvalArgs(m, s, e.args, p.trace);
    PlacedBoth(body, p.at, a.code, [i]);
    var v;
    v, k := ArgsRuns(m, body, p, e.args, n, s);
    ArgsFacts(m, body, p, a, n, x, v, k);
    SaneHomes(m, body, s, p.store);
    CallEffect(m, i, v, x.trace, x.values);
    u := TempDone(m, body, p, c.code, n, p.at + |a.code|, v, x.trace, k, i, a.next, r);
  }

  lemma {:induction false} ArgsRuns(m: Machine, body: Body, p: Point, args: seq<Expr>, n: nat, s: Store) returns (u: Store, k: nat)
    requires Ready(m, body, s, p.store) && CleanArgs(args) && Placed(body, p.at, LowerArgs(args, n).code)
    ensures ArgsDone(m, body, p, LowerArgs(args, n), n, EvalArgs(m, s, args, p.trace), u, k)
    decreases args, 0, 0
  {
    hide *;
    if args == [] {
      u, k := p.store, 0;
      NoArgs(m, body, p, n, s);
    } else {
      var init, last := args[..|args| - 1], args[|args| - 1];
      ArgsIs(m, s, args, n, p.trace);
      var a := LowerArgs(init, n);
      var b := LowerExpr(last, a.next);
      var x := EvalArgs(m, s, init, p.trace);
      var y := EvalExpr(m, s, last, x.trace);
      PlacedBoth(body, p.at, a.code, b.code);
      var v, i := ArgsRuns(m, body, p, init, n, s);
      ArgsFacts(m, body, p, a, n, x, v, i);
      ReadyAfter(m, body, s, p.store, v, n);
      var q := Point(p.at + |a.code|, v, x.trace);
      var w, j := ExprRuns(m, body, q, last, a.next, s);
      u, k := w, i + j;
      ExprFacts(m, body, q, b, a.next, y, u, j);
      Then(m, body, p, q, Point(q.at + |b.code|, u, y.trace), i, j);
      KeptThen(m, p.store, v, u, n, a.next);
      ArgsMore(m, a.values, b.value, v, u, a.next, b.next);
      ArgsAre(m, body, p, LowerArgs(args, n), n, EvalArgs(m, s, args, p.trace), u, k);
    }
  }

  lemma NoArgs(m: Machine, body: Body, p: Point, n: nat, s: Store)
    requires Placed(body, p.at, LowerArgs([], n).code)
    ensures ArgsDone(m, body, p, LowerArgs([], n), n, EvalArgs(m, s, [], p.trace), p.store, 0)
  {
    ReachesSelf(m, body, p);
    hide Reaches;
  }

  lemma ArgsIs(m: Machine, s: Store, args: seq<Expr>, n: nat, trace: seq<Event>)
    requires args != [] && CleanArgs(args)
    ensures var init, last := args[..|args| - 1], args[|args| - 1];
      var a := LowerArgs(init, n); var b := LowerExpr(last, a.next); var x := EvalArgs(m, s, init, trace); var y := EvalExpr(m, s, last, x.trace);
      && LowerArgs(args, n) == ArgsCode(a.code + b.code, a.values + [b.value], b.next)
      && EvalArgs(m, s, args, trace) == AllAnswered(x.values + [y.value], y.trace)
      && CleanArgs(init) && CleanExpr(last)
  {
  }

  lemma ArgsFacts(m: Machine, body: Body, p: Point, c: ArgsCode, n: nat, r: AllAnswered, u: Store, k: nat)
    requires ArgsDone(m, body, p, c, n, r, u, k)
    ensures Reaches(m, body, p, Point(p.at + |c.code|, u, r.trace), k)
    ensures Kept(m, p.store, u, n) && (forall i :: 0 <= i < |c.values| ==> StableValue(c.values[i], c.next)) && ValuesOf(m, u, c.values) == r.values
  {
  }

  lemma ArgsAre(m: Machine, body: Body, p: Point, c: ArgsCode, n: nat, r: AllAnswered, u: Store, k: nat)
    requires Reaches(m, body, p, Point(p.at + |c.code|, u, r.trace), k)
    requires Kept(m, p.store, u, n) && (forall i :: 0 <= i < |c.values| ==> StableValue(c.values[i], c.next)) && ValuesOf(m, u, c.values) == r.values
    ensures ArgsDone(m, body, p, c, n, r, u, k)
  {
  }

  /** Earlier arguments keep their values while the last one is computed. */
  lemma ArgsMore(m: Machine, values: seq<Value>, value: Value, v: Store, u: Store, mid: nat, hi: nat)
    requires (forall i :: 0 <= i < |values| ==> StableValue(values[i], mid)) && StableValue(value, hi) && Kept(m, v, u, mid) && mid <= hi
    ensures forall i :: 0 <= i < |values + [value]| ==> StableValue((values + [value])[i], hi)
    ensures ValuesOf(m, u, values + [value]) == ValuesOf(m, v, values) + [ValueOf(m, u, value)]
  {
    forall i | 0 <= i < |values| ensures StableValue(values[i], hi) && ValueOf(m, u, values[i]) == ValueOf(m, v, values[i]) {
      StableLonger(values[i], mid, hi);
      StableKept(m, v, u, values[i], mid);
    }
    hide StableValue, ValueOf, Kept;
  }

  // ----- Conditions -----

  /** A branch on the operands just computed. */
  lemma BranchDone(m: Machine, body: Body, p: Point, at: int, v: Store, j: nat, i: Instruction, jumps: bool, n: nat, trace: seq<Event>) returns (k: nat)
    requires Reaches(m, body, p, Point(at, v, trace), j) && Kept(m, p.store, v, n) && Placed(body, at, [i]) && i.BranchFalse?
    requires jumps == !Holds(m, v, i)
    ensures CondDone(m, body, p, at + 1, i.target, jumps, n, trace, v, k)
  {
    PlacedAt(body, at, [i], 0);
    var q := Point(at, v, trace);
    var b := BranchOver(m, body, q);
    hide Reaches, Holds, Kept, LabelIndex;
    k := j + b;
    if !Holds(m, v, i) { ReachesLanded(m, body, p, q, j, trace, b); }
    Then(m, body, p, q, q.(at := if Holds(m, v, i) then at + 1 else LabelIndex(body, i.target)), j, b);
  }

  lemma InvertedCompares(m: Machine, op: string, l: int, r: int)
    requires IsComparison(op)
    ensures Compare(m, Inverted(op), l, r) == !Compare(m, op, l, r)
  {
  }

  lemma {:induction false} ComparisonRuns(m: Machine, body: Body, p: Point, e: Expr, op: string, target: string, n: nat, s: Store) returns (u: Store, k: nat)
    requires e.Binary? && IsComparison(e.operation) && (op == e.operation || op == Inverted(e.operation)) && Ready(m, body, s, p.store) && CleanExpr(e)
    requires var a := LowerExpr(e.left, n); var b := LowerExpr(e.right, a.next);
      Placed(body, p.at, a.code + b.code + [BranchFalse(a.value, op, b.value, target)])
    ensures var a := LowerExpr(e.left, n); var b := LowerExpr(e.right, a.next); var r := EvalExpr(m, s, e, p.trace);
      CondDone(m, body, p, p.at + |a.code| + |b.code| + 1, target, (r.value == 0) == (op == e.operation), n, r.trace, u, k)
    decreases e, 1, 0
  {
    hide *;
    var a := LowerExpr(e.left, n);
    var b := LowerExpr(e.right, a.next);
    var i := BranchFalse(a.value, op, b.value, target);
    var x := EvalExpr(m, s, e.left, p.trace);
    var y := EvalExpr(m, s, e.right, x.trace);
    var r := EvalExpr(m, s, e, p.trace);
    EvalIs(m, s, e, p.trace);
    PlacedBoth(body, p.at, a.code + b.code, [i]);
    var j;
    u, j := TwoRun(m, body, p, e, n, s);
    ComparisonJumps(m, u, i, e.operation, x.value, y.value);
    BitIs(Compare(m, e.operation, x.value, y.value));
    k := BranchDone(m, body, p, p.at + |a.code| + |b.code|, u, j, i, !Holds(m, u, i), n, r.trace);
  }

  lemma ComparisonJumps(m: Machine, u: Store, i: Instruction, op: string, x: int, y: int)
    requires i.BranchFalse? && IsComparison(op) && (i.operation == op || i.operation == Inverted(op))
    requires ValueOf(m, u, i.left) == x && ValueOf(m, u, i.right) == y
    ensures !Holds(m, u, i) == (!Compare(m, op, x, y) == (i.operation == op))
  {
    InvertedCompares(m, op, x, y);
    assert Inverted(op) != op;
  }

  lemma {:induction false} PlainRuns(m: Machine, body: Body, p: Point, e: Expr, op: string, target: string, n: nat, s: Store) returns (u: Store, k: nat)
    requires !ShortCircuit(e) && (op == "!=" || op == "==") && Ready(m, body, s, p.store) && CleanExpr(e)
    requires var a := LowerExpr(e, n); Placed(body, p.at, a.code + [BranchFalse(a.value, op, Literal(0), target)])
    ensures var a := LowerExpr(e, n); var r := EvalExpr(m, s, e, p.trace);
      CondDone(m, body, p, p.at + |a.code| + 1, target, (r.value == 0) == (op == "!="), n, r.trace, u, k)
    decreases e, 2, 0
  {
    hide *;
    var a, r := LowerExpr(e, n), EvalExpr(m, s, e, p.trace);
    var i := BranchFalse(a.value, op, Literal(0), target);
    PlacedBoth(body, p.at, a.code, [i]);
    var j;
    u, j := PlainExpr(m, body, p, e, n, s);
    ExprFacts(m, body, p, a, n, r, u, j);
    PlainJumps(m, u, i, r.value);
    k := BranchDone(m, body, p, p.at + |a.code|, u, j, i, !Holds(m, u, i), n, r.trace);
  }

  lemma {:induction false} PlainExpr(m: Machine, body: Body, p: Point, e: Expr, n: nat, s: Store) returns (u: Store, k: nat)
    requires !ShortCircuit(e) && Ready(m, body, s, p.store) && CleanExpr(e) && Placed(body, p.at, LowerExpr(e, n).code)
    ensures ExprDone(m, body, p, LowerExpr(e, n), n, EvalExpr(m, s, e, p.trace), u, k)
    decreases e, 1, 1
  {
    if e.Binary? {
      u, k := BinaryRuns(m, body, p, e, n, s);
    } else if e.CallOf? {
      u, k := CallRuns(m, body, p, e, n, s);
    } else {
      LeafRuns(m, body, p, e, n, s);
      u, k := p.store, 0;
    }
    hide *;
  }

  lemma PlainJumps(m: Machine, u: Store, i: Instruction, x: int)
    requires i.BranchFalse? && ValueOf(m, u, i.left) == x && i.right == Literal(0) && (i.operation == "==" || i.operation == "!=")
    ensures !Holds(m, u, i) == ((x == 0) == (i.operation == "!="))
  {
  }

  /** After a first condition, on with the second. */
  lemma CondThen(m: Machine, body: Body, p: Point, q: Point, j: nat, n: nat, mid: nat, end: int, target: string, jumps: bool, trace: seq<Event>, u: Store, k: nat)
    requires Reaches(m, body, p, q, j) && Kept(m, p.store, q.store, n) && n <= mid
    requires CondDone(m, body, q, end, target, jumps, mid, trace, u, k)
    ensures CondDone(m, body, p, end, target, jumps, n, trace, u, j + k)
  {
    hide Reaches, Kept, LabelIndex, Landed;
    if jumps { ReachesLanded(m, body, p, q, j, trace, k); }
    Then(m, body, p, q, Point(if jumps then LabelIndex(body, target) else end, u, trace), j, k);
    KeptThen(m, p.store, q.store, u, n, mid);
  }

  /** Falling on a label. */
  lemma OverLabel(m: Machine, body: Body, p: Point, at: int, u: Store, trace: seq<Event>, k: nat, name: string)
    requires Reaches(m, body, p, Point(at, u, trace), k) && Placed(body, at, [Label(name)])
    ensures Reaches(m, body, p, Point(at + 1, u, trace), k)
  {
    LastStep(m, body, p, at, u, trace, k, Label(name));
  }

  /** Code that jumps when the condition is false. */
  lemma {:induction false} FalseRuns(m: Machine, body: Body, p: Point, e: Expr, target: string, n: nat, s: Store) returns (u: Store, k: nat)
    requires Ready(m, body, s, p.store) && CleanExpr(e) && Placed(body, p.at, LowerFalse(e, target, n).code)
    ensures var r := EvalExpr(m, s, e, p.trace);
      CondDone(m, body, p, p.at + |LowerFalse(e, target, n).code|, target, r.value == 0, n, r.trace, u, k)
    decreases e, 2
  {
    hide *;
    FalseIs(e, target, n);
    if e.And? {
      u, k := FalseAnd(m, body, p, e, target, n, s);
    } else if e.Or? {
      u, k := FalseOr(m, body, p, e, target, n, s);
    } else if e.Binary? && IsComparison(e.operation) {
      u, k := ComparisonRuns(m, body, p, e, e.operation, target, n, s);
    } else {
      NotShort(e);
      u, k := PlainRuns(m, body, p, e, "!=", target, n, s);
    }
  }

  lemma {:induction false} FalseAnd(m: Machine, body: Body, p: Point, e: Expr, target: string, n: nat, s: Store) returns (u: Store, k: nat)
    requires e.And? && Ready(m, body, s, p.store) && CleanExpr(e) && Placed(body, p.at, LowerFalse(e, target, n).code)
    ensures var r := EvalExpr(m, s, e, p.trace);
      CondDone(m, body, p, p.at + |LowerFalse(e, target, n).code|, target, r.value == 0, n, r.trace, u, k)
    decreases e, 1, 0
  {
    hide *;
    var l, r := e.left, e.right;
    var a := LowerFalse(l, target, n);
    var b := LowerFalse(r, target, a.next);
    FalseIs(e, target, n);
    var x := EvalExpr(m, s, l, p.trace);
    var y := EvalExpr(m, s, r, x.trace);
    var z := EvalExpr(m, s, e, p.trace);
    IsShort(e);
    EvalIs(m, s, e, p.trace);
    BitIs(y.value != 0);
    CleanIs(e);
    PlacedBoth(body, p.at, a.code, b.code);
    var v, j := FalseRuns(m, body, p, l, target, n, s);
    CondFacts(m, body, p, p.at + |a.code|, target, x.value == 0, n, x.trace, v, j);
    if x.value == 0 {
      u, k := v, j;
      CondIs(m, body, p, p.at + |LowerFalse(e, target, n).code|, target, true, n, x.trace, u, k);
    } else {
      var q := Point(p.at + |a.code|, v, x.trace);
      ReadyAfter(m, body, s, p.store, v, n);
      var i;
      u, i := FalseRuns(m, body, q, r, target, a.next, s);
      k := j + i;
      CondThen(m, body, p, q, j, n, a.next, q.at + |b.code|, target, y.value == 0, y.trace, u, i);
    }
  }

  lemma {:induction false} FalseOr(m: Machine, body: Body, p: Point, e: Expr, target: string, n: nat, s: Store) returns (u: Store, k: nat)
    requires e.Or? && Ready(m, body, s, p.store) && CleanExpr(e) && Placed(body, p.at, LowerFalse(e, target, n).code)
    ensures var r := EvalExpr(m, s, e, p.trace);
      CondDone(m, body, p, p.at + |LowerFalse(e, target, n).code|, target, r.value == 0, n, r.trace, u, k)
    decreases e, 1, 0
  {
    hide *;
    var l, r, skip := e.left, e.right, LabelName("lor", n);
    var a := LowerTrue(l, skip, n + 1);
    var b := LowerFalse(r, target, a.next);
    FalseIs(e, target, n);
    var x := EvalExpr(m, s, l, p.trace);
    var y := EvalExpr(m, s, r, x.trace);
    var z := EvalExpr(m, s, e, p.trace);
    IsShort(e);
    EvalIs(m, s, e, p.trace);
    BitIs(y.value != 0);
    CleanIs(e);
    PlacedBoth(body, p.at, a.code + b.code, [Label(skip)]);
    PlacedBoth(body, p.at, a.code, b.code);
    SaneHomes(m, body, s, p.store);
    var at := p.at + |a.code| + |b.code|;
    LabelAt(body, at, skip);
    var v, j := TrueRuns(m, body, p, l, skip, n + 1, s);
    CondFacts(m, body, p, p.at + |a.code|, skip, x.value != 0, n + 1, x.trace, v, j);
    KeptLess(m, p.store, v, n, n + 1);
    if x.value != 0 {
      u, k := v, j;
      OverLabel(m, body, p, at, u, x.trace, k, skip);
      CondIs(m, body, p, at + 1, target, false, n, x.trace, u, k);
    } else {
      var q := Point(p.at + |a.code|, v, x.trace);
      ReadyAfter(m, body, s, p.store, v, n);
      var i;
      u, i := FalseRuns(m, body, q, r, target, a.next, s);
      k := j + i;
      CondThen(m, body, p, q, j, n, a.next, at, target, y.value == 0, y.trace, u, i);
      CondFacts(m, body, p, at, target, y.value == 0, n, y.trace, u, k);
      if !(y.value == 0) { OverLabel(m, body, p, at, u, y.trace, k, skip); }
      CondIs(m, body, p, at + 1, target, y.value == 0, n, y.trace, u, k);
    }
  }

  lemma NotShort(e: Expr)
    requires !e.And? && !e.Or?
    ensures !ShortCircuit(e)
  {
  }

  lemma IsShort(e: Expr)
    requires e.And? || e.Or?
    ensures ShortCircuit(e)
  {
  }

  lemma InvertedDiffers(op: string)
    requires IsComparison(op)
    ensures Inverted(op) != op
  {
  }

  lemma KeptLess(m: Machine, u: Store, v: Store, lo: nat, hi: nat)
    requires Kept(m, u, v, hi) && lo <= hi
    ensures Kept(m, u, v, lo)
  {
    KeptSelf(m, u, lo);
    KeptThen(m, u, u, v, lo, hi);
  }

  /** Code that jumps when the condition is true. */
  lemma {:induction false} TrueRuns(m: Machine, body: Body, p: Point, e: Expr, target: string, n: nat, s: Store) returns (u: Store, k: nat)
    requires Ready(m, body, s, p.store) && CleanExpr(e) && Placed(body, p.at, LowerTrue(e, target, n).code)
    ensures var r := EvalExpr(m, s, e, p.trace);
      CondDone(m, body, p, p.at + |LowerTrue(e, target, n).code|, target, r.value != 0, n, r.trace, u, k)
    decreases e, 2
  {
    hide *;
    TrueIs(e, target, n);
    if e.Or? {
      u, k := TrueOr(m, body, p, e, target, n, s);
    } else if e.And? {
      u, k := TrueAnd(m, body, p, e, target, n, s);
    } else if e.Binary? && IsComparison(e.operation) {
      InvertedDiffers(e.operation);
      u, k := ComparisonRuns(m, body, p, e, Inverted(e.operation), target, n, s);
    } else {
      NotShort(e);
      u, k := PlainRuns(m, body, p, e, "==", target, n, s);
    }
  }

  lemma {:induction false} TrueOr(m: Machine, body: Body, p: Point, e: Expr, target: string, n: nat, s: Store) returns (u: Store, k: nat)
    requires e.Or? && Ready(m, body, s, p.store) && CleanExpr(e) && Placed(body, p.at, LowerTrue(e, target, n).code)
    ensures var r := EvalExpr(m, s, e, p.trace);
      CondDone(m, body, p, p.at + |LowerTrue(e, target, n).code|, target, r.value != 0, n, r.trace, u, k)
    decreases e, 1, 0
  {
    hide *;
    var l, r := e.left, e.right;
    var a := LowerTrue(l, target, n);
    var b := LowerTrue(r, target, a.next);
    TrueIs(e, target, n);
    var x := EvalExpr(m, s, l, p.trace);
    var y := EvalExpr(m, s, r, x.trace);
    var z := EvalExpr(m, s, e, p.trace);
    IsShort(e);
    EvalIs(m, s, e, p.trace);
    BitIs(y.value != 0);
    CleanIs(e);
    PlacedBoth(body, p.at, a.code, b.code);
    var v, j := TrueRuns(m, body, p, l, target, n, s);
    CondFacts(m, body, p, p.at + |a.code|, target, x.value != 0, n, x.trace, v, j);
    if x.value != 0 {
      u, k := v, j;
      CondIs(m, body, p, p.at + |LowerTrue(e, target, n).code|, target, true, n, x.trace, u, k);
    } else {
      var q := Point(p.at + |a.code|, v, x.trace);
      ReadyAfter(m, body, s, p.store, v, n);
      var i;
      u, i := TrueRuns(m, body, q, r, target, a.next, s);
      k := j + i;
      CondThen(m, body, p, q, j, n, a.next, q.at + |b.code|, target, y.value != 0, y.trace, u, i);
    }
  }

  lemma {:induction false} TrueAnd(m: Machine, body: Body, p: Point, e: Expr, target: string, n: nat, s: Store) returns (u: Store, k: nat)
    requires e.And? && Ready(m, body, s, p.store) && CleanExpr(e) && Placed(body, p.at, LowerTrue(e, target, n).code)
    ensures var r := EvalExpr(m, s, e, p.trace);
      CondDone(m, body, p, p.at + |LowerTrue(e, target, n).code|, target, r.value != 0, n, r.trace, u, k)
    decreases e, 1, 0
  {
    hide *;
    var l, r, skip := e.left, e.right, LabelName("land", n);
    var a := LowerFalse(l, skip, n + 1);
    var b := LowerTrue(r, target, a.next);
    TrueIs(e, target, n);
    var x := EvalExpr(m, s, l, p.trace);
    var y := EvalExpr(m, s, r, x.trace);
    var z := EvalExpr(m, s, e, p.trace);
    IsShort(e);
    EvalIs(m, s, e, p.trace);
    BitIs(y.value != 0);
    CleanIs(e);
    PlacedBoth(body, p.at, a.code + b.code, [Label(skip)]);
    PlacedBoth(body, p.at, a.code, b.code);
    SaneHomes(m, body, s, p.store);
    var at := p.at + |a.code| + |b.code|;
    LabelAt(body, at, skip);
    var v, j := FalseRuns(m, body, p, l, skip, n + 1, s);
    CondFacts(m, body, p, p.at + |a.code|, skip, x.value == 0, n + 1, x.trace, v, j);
    KeptLess(m, p.store, v, n, n + 1);
    if x.value == 0 {
      u, k := v, j;
      OverLabel(m, body, p, at, u, x.trace, k, skip);
      CondIs(m, body, p, at + 1, target, false, n, x.trace, u, k);
    } else {
      var q := Point(p.at + |a.code|, v, x.trace);
      ReadyAfter(m, body, s, p.store, v, n);
      var i;
      u, i := TrueRuns(m, body, q, r, target, a.next, s);
      k := j + i;
      CondThen(m, body, p, q, j, n, a.next, at, target, y.value != 0, y.trace, u, i);
      CondFacts(m, body, p, at, target, y.value != 0, n, y.trace, u, k);
      if !(y.value != 0) { OverLabel(m, body, p, at, u, y.trace, k, skip); }
      CondIs(m, body, p, at + 1, target, y.value != 0, n, y.trace, u, k);
    }
  }

  lemma BitCodeIs(e: Expr, n: nat)
    requires ShortCircuit(e)
    ensures var c := LowerTrue(e, LabelName("btrue", n + 1), n + 3);
      LowerExpr(e, n) == ExprCode(c.code + [Copy(TempName(n), Literal(0)), Jump(LabelName("bend", n + 2)), Label(LabelName("btrue", n + 1)),
                                            Copy(TempName(n), Literal(1)), Label(LabelName("bend", n + 2))], Name(TempName(n)), c.next)
  {
  }

  lemma ExprIs(m: Machine, body: Body, p: Point, c: ExprCode, n: nat, r: Answered, u: Store, k: nat)
    requires Reaches(m, body, p, Point(p.at + |c.code|, u, r.trace), k) && c.value.Name?
    requires Kept(m, p.store, u, n) && StableValue(c.value, c.next) && Read(m, u, c.value.id) == r.value
    ensures ExprDone(m, body, p, c, n, r, u, k)
  {
  }

  lemma BitIsZeroOrOne(m: Machine, s: Store, e: Expr, trace: seq<Event>)
    requires ShortCircuit(e)
    ensures EvalExpr(m, s, e, trace).value == Bit(EvalExpr(m, s, e, trace).value != 0)
  {
  }

  /** `&&` and `||` as values. */
  lemma {:induction false} BitRuns(m: Machine, body: Body, p: Point, e: Expr, n: nat, s: Store) returns (u: Store, k: nat)
    requires ShortCircuit(e) && Ready(m, body, s, p.store) && CleanExpr(e) && Placed(body, p.at, LowerExpr(e, n).code)
    ensures ExprDone(m, body, p, LowerExpr(e, n), n, EvalExpr(m, s, e, p.trace), u, k)
    decreases e, 3, 0
  {
    hide *;
    var temp, yes, end := TempName(n), LabelName("btrue", n + 1), LabelName("bend", n + 2);
    var c := LowerTrue(e, yes, n + 3);
    var tail := [Copy(temp, Literal(0)), Jump(end), Label(yes), Copy(temp, Literal(1)), Label(end)];
    BitCodeIs(e, n);
    var r := EvalExpr(m, s, e, p.trace);
    BitIsZeroOrOne(m, s, e, p.trace);
    PlacedBoth(body, p.at, c.code, tail);
    SaneHomes(m, body, s, p.store);
    var v, j := TrueRuns(m, body, p, e, yes, n + 3, s);
    var at := p.at + |c.code|;
    CondFacts(m, body, p, at, yes, r.value != 0, n + 3, r.trace, v, j);
    KeptLess(m, p.store, v, n, n + 3);
    k := BitTail(m, body, at, p, temp, yes, end, v, r.trace, j, r.value != 0);
    u := Write(m, v, temp, r.value);
    WriteTemp(m, v, n, r.value);
    KeptThen(m, p.store, v, u, n, n);
    StableLonger(Name(temp), n + 1, c.next);
    ExprIs(m, body, p, LowerExpr(e, n), n, r, u, k);
  }

  lemma BitTail(m: Machine, body: Body, at: int, p: Point, temp: string, yes: string, end: string, v: Store, trace: seq<Event>, j: nat, truth: bool) returns (k: nat)
    requires UniqueLabels(body) && Placed(body, at, [Copy(temp, Literal(0)), Jump(end), Label(yes), Copy(temp, Literal(1)), Label(end)])
    requires Reaches(m, body, p, Point(if truth then LabelIndex(body, yes) else at, v, trace), j)
    ensures Reaches(m, body, p, Point(at + 5, Write(m, v, temp, Bit(truth)), trace), k)
  {
    var tail := [Copy(temp, Literal(0)), Jump(end), Label(yes), Copy(temp, Literal(1)), Label(end)];
    forall i | 0 <= i < 5 ensures Placed(body, at + i, [tail[i]]) { PlacedAt(body, at, tail, i); }
    assert Placed(body, at, [Copy(temp, Literal(0))]) by { assert tail[0] == Copy(temp, Literal(0)); assert Placed(body, at + 0, [tail[0]]); }
    assert Placed(body, at + 1, [Jump(end)]) by { assert tail[1] == Jump(end); }
    assert Placed(body, at + 2, [Label(yes)]) by { assert tail[2] == Label(yes); }
    assert Placed(body, at + 3, [Copy(temp, Literal(1))]) by { assert tail[3] == Copy(temp, Literal(1)); }
    assert Placed(body, at + 4, [Label(end)]) by { assert tail[4] == Label(end); }
    hide Reaches, LabelIndex, Placed, Write;
    LabelAt(body, at + 2, yes);
    LabelAt(body, at + 4, end);
    if truth {
      k := j;
      OverLabel(m, body, p, at + 2, v, trace, k, yes);
      LastStep(m, body, p, at + 3, v, trace, k, Copy(temp, Literal(1)));
      OverLabel(m, body, p, at + 4, Write(m, v, temp, 1), trace, k, end);
    } else {
      LastStep(m, body, p, at, v, trace, j, Copy(temp, Literal(0)));
      var w := Write(m, v, temp, 0);
      JumpsOn(m, body, p, at + 1, w, trace, j, end);
      k := j + 1;
      OverLabel(m, body, p, at + 4, w, trace, k, end);
    }
  }

  lemma JumpsOn(m: Machine, body: Body, p: Point, at: int, u: Store, trace: seq<Event>, k: nat, target: string)
    requires Reaches(m, body, p, Point(at, u, trace), k) && Placed(body, at, [Jump(target)])
    ensures Reaches(m, body, p, Point(LabelIndex(body, target), u, trace), k + 1) && Landed(m, body, p, trace, k + 1)
  {
    PlacedAt(body, at, [Jump(target)], 0);
    JumpOver(m, body, Point(at, u, trace), target);
    hide Reaches, LabelIndex, Landed;
    ReachesLanded(m, body, p, Point(at, u, trace), k, trace, 1);
    Then(m, body, p, Point(at, u, trace), Point(LabelIndex(body, target), u, trace), k, 1);
  }
}
