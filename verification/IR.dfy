/** The flat three-address code that every pass of the compiler's middle end
    works on (cc/ir.py), together with its meaning.

    The meaning is an interpreter that counts control transfers: `Eval` runs
    straight-line code to the end and spends one unit of fuel for each jump or
    taken branch.  A run that ends is `Finished`; one that uses up its fuel is
    `Exhausted` and reports the calls made so far.  A program diverges exactly
    when it is `Exhausted` for every amount of fuel. */
module IR {
  import opened Common

  /** An operand: an integer constant or a name. */
  datatype Value = Literal(n: int) | Name(id: string)

  datatype Instruction =
    | Copy(destination: string, source: Value)
    | BinaryOperation(destination: string, left: Value, operation: string, right: Value)
    | BranchFalse(left: Value, operation: string, right: Value, target: string)
    | Jump(target: string)
    | Label(name: string)
    | LoopBoundary(continueLabel: string, endLabel: string, push: bool)
    | Call(callee: string, args: seq<Value>, result: Option<string>)
    | TailCall(callee: string, args: seq<Value>)
    | Return(value: Option<Value>)

  type Body = seq<Instruction>

  lemma Associative(a: Body, b: Body, c: Body)
    ensures a + (b + c) == a + b + c
  {
  }

  // ----- Shape of a body -----

  predicate IsTerminator(i: Instruction) {
    i.BranchFalse? || i.Jump? || i.Return? || i.TailCall?
  }

  /** Index of the first `Label(name)`, or the length of the body if there is none. */
  function LabelIndex(body: Body, name: string): (k: nat)
    ensures k <= |body|
    ensures k < |body| ==> body[k] == Label(name)
    ensures forall j :: 0 <= j < k ==> body[j] != Label(name)
  {
    if body == [] then 0
    else if body[0] == Label(name) then 0
    else 1 + LabelIndex(body[1..], name)
  }

  /** No label is defined twice. */
  ghost predicate UniqueLabels(body: Body) {
    forall i, j :: 0 <= i < j < |body| && body[i].Label? && body[j].Label? ==> body[i] != body[j]
  }

  predicate Branches(i: Instruction) { i.Jump? || i.BranchFalse? }

  ghost predicate TargetsDefined(body: Body) {
    forall i :: 0 <= i < |body| && Branches(body[i]) ==> Label(body[i].target) in body
  }

  lemma LabelIndexIs(body: Body, k: nat)
    requires UniqueLabels(body)
    requires k < |body| && body[k].Label?
    ensures LabelIndex(body, body[k].name) == k
  {
    assert LabelIndex(body, body[k].name) <= k;
  }

  // ----- What an instruction reads and writes -----

  function NamesOf(v: Value): set<string> {
    if v.Name? then {v.id} else {}
  }

  function NamesOfAll(vs: seq<Value>): set<string> {
    set i | 0 <= i < |vs| && vs[i].Name? :: vs[i].id
  }

  /** The names an instruction reads. */
  function Uses(i: Instruction): set<string> {
    match i
    case Copy(_, s) => NamesOf(s)
    case BinaryOperation(_, l, _, r) => NamesOf(l) + NamesOf(r)
    case BranchFalse(l, _, r, _) => NamesOf(l) + NamesOf(r)
    case Call(_, args, _) => NamesOfAll(args)
    case TailCall(_, args) => NamesOfAll(args)
    case Return(v) => if v.Some? then NamesOf(v.value) else {}
    case Jump(_) => {}
    case Label(_) => {}
    case LoopBoundary(_, _, _) => {}
  }

  /** The names an instruction writes: at most one. */
  function Defs(i: Instruction): set<string> {
    match i
    case Copy(d, _) => {d}
    case BinaryOperation(d, _, _, _) => {d}
    case Call(_, _, r) => if r.Some? then {r.value} else {}
    case _ => {}
  }

  /** The name an instruction writes, if any. */
  function DestinationOf(i: Instruction): Option<string> {
    match i
    case Copy(d, _) => Some(d)
    case BinaryOperation(d, _, _, _) => Some(d)
    case Call(_, _, d) => d
    case _ => None
  }

  lemma DestinationDefs(i: Instruction)
    ensures Defs(i) == if DestinationOf(i).Some? then {DestinationOf(i).value} else {}
  {
  }

  // ----- Meaning -----

  /** Where a name lives: in a register, or in its own memory slot. */
  datatype Location = Register(reg: string) | Slot(name: string)

  datatype Event = Event(callee: string, args: seq<int>)

  /** Everything the code itself does not fix: which names live in registers,
      the arithmetic, the ordering behind `<` (signed or unsigned), the truth of
      operators the compiler does not know, and what a call returns after a
      history of calls. */
  datatype Machine = Machine(
    homes: map<string, string>,
    arithmetic: (string, int, int) -> int,
    less: (int, int) -> bool,
    unknown: (string, int, int) -> bool,
    answer: seq<Event> -> int)

  type Store = map<Location, int>

  datatype Result =
    | Finished(outcome: Option<int>, store: Store, trace: seq<Event>)
    | Exhausted(trace: seq<Event>)

  function Home(m: Machine, name: string): Location {
    if name in m.homes then Register(m.homes[name]) else Slot(name)
  }

  function Read(m: Machine, s: Store, name: string): int {
    if Home(m, name) in s then s[Home(m, name)] else 0
  }

  function Write(m: Machine, s: Store, name: string, n: int): Store {
    s[Home(m, name) := n]
  }

  function ValueOf(m: Machine, s: Store, v: Value): int {
    match v
    case Literal(n) => n
    case Name(x) => Read(m, s, x)
  }

  function ValuesOf(m: Machine, s: Store, vs: seq<Value>): seq<int> {
    seq(|vs|, i requires 0 <= i < |vs| => ValueOf(m, s, vs[i]))
  }

  function Compare(m: Machine, operation: string, l: int, r: int): bool {
    if operation == "==" then l == r
    else if operation == "!=" then l != r
    else if operation == "<" then m.less(l, r)
    else if operation == ">=" then !m.less(l, r)
    else if operation == ">" then m.less(r, l)
    else if operation == "<=" then !m.less(r, l)
    else m.unknown(operation, l, r)
  }

  function Holds(m: Machine, s: Store, i: Instruction): bool
    requires i.BranchFalse?
  {
    Compare(m, i.operation, ValueOf(m, s, i.left), ValueOf(m, s, i.right))
  }

  /** The store after one straight-line instruction. */
  function Effect(m: Machine, i: Instruction, s: Store, trace: seq<Event>): Store {
    match i
    case Copy(d, v) => Write(m, s, d, ValueOf(m, s, v))
    case BinaryOperation(d, l, op, r) => Write(m, s, d, m.arithmetic(op, ValueOf(m, s, l), ValueOf(m, s, r)))
    case Call(_, _, Some(d)) => Write(m, s, d, m.answer(Calls(m, i, s, trace)))
    case _ => s
  }

  /** The calls made once one instruction has run. */
  function Calls(m: Machine, i: Instruction, s: Store, trace: seq<Event>): seq<Event> {
    match i
    case Call(f, args, _) => trace + [Event(f, ValuesOf(m, s, args))]
    case TailCall(f, args) => trace + [Event(f, ValuesOf(m, s, args))]
    case _ => trace
  }

  /** Runs `rest`, a piece of `body`, with `fuel` control transfers allowed. */
  function Eval(m: Machine, body: Body, rest: Body, s: Store, trace: seq<Event>, fuel: nat): Result
    decreases fuel, |rest|
  {
    if rest == [] then Finished(None, s, trace)
    else
      var i := rest[0];
      match i
      case Jump(target) =>
        Transfer(m, body, target, s, trace, fuel)
      case BranchFalse(_, _, _, target) =>
        if Holds(m, s, i) then Eval(m, body, rest[1..], s, trace, fuel)
        else Transfer(m, body, target, s, trace, fuel)
      case Return(v) =>
        Finished(if v.Some? then Some(ValueOf(m, s, v.value)) else None, s, trace)
      case TailCall(_, _) =>
        var t := Calls(m, i, s, trace);
        Finished(Some(m.answer(t)), s, t)
      case _ =>
        Eval(m, body, rest[1..], Effect(m, i, s, trace), Calls(m, i, s, trace), fuel)
  }

  /** Control moves to a label: one unit of fuel. */
  function Transfer(m: Machine, body: Body, target: string, s: Store, trace: seq<Event>, fuel: nat): Result
    decreases fuel, 0
  {
    if fuel == 0 then Exhausted(trace)
    else Eval(m, body, body[LabelIndex(body, target)..], s, trace, fuel - 1)
  }

  function Run(m: Machine, body: Body, s: Store, fuel: nat): Result {
    Eval(m, body, body, s, [], fuel)
  }

  /** `b` is what `a` becomes when it is allowed to run on. */
  ghost predicate Extends(a: Result, b: Result) {
    match a
    case Finished(_, _, _) => a == b
    case Exhausted(t) => t <= b.trace
  }

  /** With enough fuel, `body` does everything that `r` did. */
  ghost predicate Achieves(m: Machine, body: Body, s: Store, r: Result) {
    exists f: nat :: Extends(r, Run(m, body, s, f))
  }

  ghost predicate Simulates(m: Machine, a: Body, b: Body) {
    forall s: Store, fuel: nat :: Achieves(m, b, s, Run(m, a, s, fuel))
  }

  /** Two bodies mean the same: whatever one does with some fuel, a finished
      result or a history of calls, the other does with enough fuel. */
  ghost predicate SameMeaning(m: Machine, a: Body, b: Body) {
    Simulates(m, a, b) && Simulates(m, b, a)
  }

  // ----- Facts about runs -----

  /** A run only ever adds calls to its history. */
  lemma {:induction false} TraceGrows(m: Machine, body: Body, rest: Body, s: Store, trace: seq<Event>, fuel: nat)
    ensures trace <= Eval(m, body, rest, s, trace, fuel).trace
    decreases fuel, |rest|
  {
    if rest != [] {
      var i := rest[0];
      if Branches(i) {
        if fuel > 0 {
          TraceGrows(m, body, body[LabelIndex(body, i.target)..], s, trace, fuel - 1);
        }
        if i.BranchFalse? {
          TraceGrows(m, body, rest[1..], s, trace, fuel);
        }
      } else if !IsTerminator(i) {
        TraceGrows(m, body, rest[1..], Effect(m, i, s, trace), Calls(m, i, s, trace), fuel);
      }
    }
  }

  /** More fuel lets a run go on; it never changes what the run did. */
  lemma {:induction false} MoreFuel(m: Machine, body: Body, rest: Body, s: Store, trace: seq<Event>, fuel: nat, more: nat)
    requires fuel <= more
    ensures Extends(Eval(m, body, rest, s, trace, fuel), Eval(m, body, rest, s, trace, more))
    decreases fuel, |rest|
  {
    if rest != [] {
      var i := rest[0];
      if Branches(i) {
        if i.BranchFalse? && Holds(m, s, i) {
          MoreFuel(m, body, rest[1..], s, trace, fuel, more);
        } else if fuel > 0 {
          MoreFuel(m, body, body[LabelIndex(body, i.target)..], s, trace, fuel - 1, more - 1);
        } else {
          TraceGrows(m, body, rest, s, trace, more);
        }
      } else if !IsTerminator(i) {
        MoreFuel(m, body, rest[1..], Effect(m, i, s, trace), Calls(m, i, s, trace), fuel, more);
      }
    }
  }

  lemma ExtendsTransitive(a: Result, b: Result, c: Result)
    requires Extends(a, b) && Extends(b, c)
    ensures Extends(a, c)
  {
  }

  lemma SimulatesEnds(m: Machine, a: Body, b: Body, s: Store, fuel: nat) returns (f: nat)
    requires Simulates(m, a, b)
    requires Run(m, a, s, fuel).Finished?
    ensures Run(m, b, s, f) == Run(m, a, s, fuel)
  {
    assert Achieves(m, b, s, Run(m, a, s, fuel));
    f :| Extends(Run(m, a, s, fuel), Run(m, b, s, f));
  }

  /** Bodies with the same meaning end alike, and so they also diverge alike. */
  lemma SameMeaningEndsAlike(m: Machine, a: Body, b: Body, s: Store, r: Result)
    requires SameMeaning(m, a, b)
    requires r.Finished?
    ensures (exists f: nat :: Run(m, a, s, f) == r) <==> (exists f: nat :: Run(m, b, s, f) == r)
  {
    if exists f: nat :: Run(m, a, s, f) == r {
      var f: nat :| Run(m, a, s, f) == r;
      var _ := SimulatesEnds(m, a, b, s, f);
    }
    if exists f: nat :: Run(m, b, s, f) == r {
      var f: nat :| Run(m, b, s, f) == r;
      var _ := SimulatesEnds(m, b, a, s, f);
    }
  }

  lemma SimulatesTransitive(m: Machine, a: Body, b: Body, c: Body)
    requires Simulates(m, a, b) && Simulates(m, b, c)
    ensures Simulates(m, a, c)
  {
    forall s: Store, fuel: nat
      ensures Achieves(m, c, s, Run(m, a, s, fuel))
    {
      assert Achieves(m, b, s, Run(m, a, s, fuel));
      var g: nat :| Extends(Run(m, a, s, fuel), Run(m, b, s, g));
      assert Achieves(m, c, s, Run(m, b, s, g));
      var h: nat :| Extends(Run(m, b, s, g), Run(m, c, s, h));
      ExtendsTransitive(Run(m, a, s, fuel), Run(m, b, s, g), Run(m, c, s, h));
    }
  }

  /** Sameness of meaning composes, so passes may be chained. */
  lemma SameMeaningTransitive(m: Machine, a: Body, b: Body, c: Body)
    requires SameMeaning(m, a, b) && SameMeaning(m, b, c)
    ensures SameMeaning(m, a, c)
  {
    SimulatesTransitive(m, a, b, c);
    SimulatesTransitive(m, c, b, a);
  }
}
