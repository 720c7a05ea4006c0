/** The allocator end to end (cc/regalloc.py:288-306), and the theorem that it is
    for: code whose names live where the allocation puts them does what the code
    over separate names does. */
module RegisterAllocation {
  import opened Common
  import opened IR
  import opened Cfg
  import opened Liveness
  import opened Interference
  import opened Coalescing
  import opened Coloring

  /** The same machine with names kept in the registers of an allocation. */
  function OnRegisters(m: Machine, homes: map<string, string>): Machine {
    m.(homes := homes)
  }

  /** Every name whose value still matters at `pc` has the same value in both
      stores: names outside the allocation always, allocatable names while live. */
  ghost predicate Agree(body: Body, allocatable: set<string>, m: Machine, homes: map<string, string>, pc: int, s: Store, t: Store) {
    forall n :: n !in allocatable || Live(body, n, pc) ==> Read(m, s, n) == Read(OnRegisters(m, homes), t, n)
  }

  /** Both runs end with the same value and calls, or both run out of fuel after
      the same calls. */
  ghost predicate SameOutcome(a: Result, b: Result) {
    a.Finished? == b.Finished? && a.trace == b.trace && (a.Finished? ==> a.outcome == b.outcome)
  }

  /** No register is written while another value in it still matters. */
  ghost predicate Harmless(body: Body, allocatable: set<string>, homes: map<string, string>) {
    && homes.Keys <= allocatable
    && forall pc, a, b :: Clash(body, pc, a, b) && a in homes && b in homes ==> homes[a] != homes[b]
  }

  lemma ProperIsHarmless(body: Body, allocatable: set<string>, graph: Adjacency, homes: map<string, string>)
    requires GraphExact(body, allocatable, Span(body, 0, |body|), graph) && ProperOn(graph, homes) && homes.Keys <= allocatable
    ensures Harmless(body, allocatable, homes)
  {
    forall pc, a, b | Clash(body, pc, a, b) && a in homes && b in homes ensures homes[a] != homes[b] {
      assert !body[pc].Label?;
      assert pc in Span(body, 0, |body|);
      assert ClashIn(body, Span(body, 0, |body|), a, b);
      assert Edge(graph, a, b);
    }
  }

  /** What an instruction reads has the same value in both stores. */
  lemma ReadsAgree(body: Body, allocatable: set<string>, m: Machine, homes: map<string, string>, pc: int, s: Store, t: Store, v: Value)
    requires 0 <= pc < |body| && Agree(body, allocatable, m, homes, pc, s, t)
    requires NamesOf(v) <= Uses(body[pc])
    ensures ValueOf(m, s, v) == ValueOf(OnRegisters(m, homes), t, v)
  {
    if v.Name? { LiveEquation(body, v.id, pc); }
  }

  lemma ArgumentsAgree(body: Body, allocatable: set<string>, m: Machine, homes: map<string, string>, pc: int, s: Store, t: Store, vs: seq<Value>)
    requires 0 <= pc < |body| && Agree(body, allocatable, m, homes, pc, s, t)
    requires NamesOfAll(vs) <= Uses(body[pc])
    ensures ValuesOf(m, s, vs) == ValuesOf(OnRegisters(m, homes), t, vs)
  {
    forall i | 0 <= i < |vs| ensures ValueOf(m, s, vs[i]) == ValueOf(OnRegisters(m, homes), t, vs[i]) {
      assert NamesOf(vs[i]) <= NamesOfAll(vs);
      ReadsAgree(body, allocatable, m, homes, pc, s, t, vs[i]);
    }
  }

  /** Passing control without writing keeps the agreement. */
  lemma FlowAgrees(body: Body, allocatable: set<string>, m: Machine, homes: map<string, string>, pc: int, next: int, s: Store, t: Store)
    requires 0 <= pc < |body| && Flows(body, pc, next) && Defs(body[pc]) == {}
    requires Agree(body, allocatable, m, homes, pc, s, t)
    ensures Agree(body, allocatable, m, homes, next, s, t)
  {
    forall n | n !in allocatable || Live(body, n, next)
      ensures Read(m, s, n) == Read(OnRegisters(m, homes), t, n)
    {
      if Live(body, n, next) { LiveFlows(body, n, pc, next); }
    }
  }

  lemma LiveFlows(body: Body, name: string, pc: int, next: int)
    requires 0 <= pc < |body| && Flows(body, pc, next) && Live(body, name, next)
    ensures LiveAfter(body, name, pc)
    ensures name !in Defs(body[pc]) ==> Live(body, name, pc)
  {
    var p :| ReadAlong(body, name, p) && p[0] == next;
    assert 0 <= next < |body|;
    assert LiveAfter(body, name, pc);
    LiveEquation(body, name, pc);
  }

  /** Writing the same value to a name and to its home keeps the agreement. */
  lemma WriteAgrees(body: Body, allocatable: set<string>, m: Machine, homes: map<string, string>, pc: int, s: Store, t: Store, d: string, x: int)
    requires 0 <= pc < |body| && Flows(body, pc, pc + 1) && Defs(body[pc]) == {d}
    requires m.homes == map[] && Harmless(body, allocatable, homes)
    requires Agree(body, allocatable, m, homes, pc, s, t)
    ensures Agree(body, allocatable, m, homes, pc + 1, Write(m, s, d, x), Write(OnRegisters(m, homes), t, d, x))
  {
    forall n | n !in allocatable || Live(body, n, pc + 1)
      ensures Read(m, Write(m, s, d, x), n) == Read(OnRegisters(m, homes), Write(OnRegisters(m, homes), t, d, x), n)
    {
      if n != d {
        if Live(body, n, pc + 1) {
          LiveFlows(body, n, pc, pc + 1);
          assert Clash(body, pc, d, n);
        }
      }
    }
  }

  /** One straight-line instruction keeps the agreement and makes the same calls. */
  lemma EffectAgrees(body: Body, allocatable: set<string>, m: Machine, homes: map<string, string>, pc: int, s: Store, t: Store, trace: seq<Event>)
    requires 0 <= pc < |body| && !IsTerminator(body[pc])
    requires m.homes == map[] && Harmless(body, allocatable, homes)
    requires Agree(body, allocatable, m, homes, pc, s, t)
    ensures Calls(m, body[pc], s, trace) == Calls(OnRegisters(m, homes), body[pc], t, trace)
    ensures Agree(body, allocatable, m, homes, pc + 1,
      Effect(m, body[pc], s, trace), Effect(OnRegisters(m, homes), body[pc], t, trace))
  {
    var i := body[pc];
    hide Agree, Harmless;
    match i
    case Copy(d, v) =>
      ReadsAgree(body, allocatable, m, homes, pc, s, t, v);
      WriteAgrees(body, allocatable, m, homes, pc, s, t, d, ValueOf(m, s, v));
    case BinaryOperation(d, l, op, r) =>
      ReadsAgree(body, allocatable, m, homes, pc, s, t, l);
      ReadsAgree(body, allocatable, m, homes, pc, s, t, r);
      WriteAgrees(body, allocatable, m, homes, pc, s, t, d, m.arithmetic(op, ValueOf(m, s, l), ValueOf(m, s, r)));
    case Call(f, args, result) =>
      ArgumentsAgree(body, allocatable, m, homes, pc, s, t, args);
      if result.Some? {
        WriteAgrees(body, allocatable, m, homes, pc, s, t, result.value, m.answer(Calls(m, i, s, trace)));
      } else {
        FlowAgrees(body, allocatable, m, homes, pc, pc + 1, s, t);
      }
    case Label(_) => FlowAgrees(body, allocatable, m, homes, pc, pc + 1, s, t);
    case LoopBoundary(_, _, _) => FlowAgrees(body, allocatable, m, homes, pc, pc + 1, s, t);
  }

  lemma {:induction false} TransferAgrees(body: Body, allocatable: set<string>, m: Machine, homes: map<string, string>, pc: int,
                                          s: Store, t: Store, trace: seq<Event>, fuel: nat)
    requires 0 <= pc < |body| && Branches(body[pc])
    requires m.homes == map[] && Harmless(body, allocatable, homes)
    requires Agree(body, allocatable, m, homes, pc, s, t)
    ensures SameOutcome(Transfer(m, body, body[pc].target, s, trace, fuel), Transfer(OnRegisters(m, homes), body, body[pc].target, t, trace, fuel))
    decreases fuel, 0
  {
    if fuel > 0 {
      var next := LabelIndex(body, body[pc].target);
      FlowAgrees(body, allocatable, m, homes, pc, next, s, t);
      RunsAgree(body, allocatable, m, homes, next, s, t, trace, fuel - 1);
    }
  }

  /** From agreeing stores, both machines do the same. */
  lemma {:induction false} RunsAgree(body: Body, allocatable: set<string>, m: Machine, homes: map<string, string>, pc: int,
                                     s: Store, t: Store, trace: seq<Event>, fuel: nat)
    requires 0 <= pc <= |body|
    requires m.homes == map[] && Harmless(body, allocatable, homes)
    requires Agree(body, allocatable, m, homes, pc, s, t)
    ensures SameOutcome(Eval(m, body, body[pc..], s, trace, fuel), Eval(OnRegisters(m, homes), body, body[pc..], t, trace, fuel))
    decreases fuel, |body| - pc + 1
  {
    if pc == |body| { return; }
    hide Agree, Harmless, Effect, Live, Uses, Defs, Transfer, Compare;
    var i := body[pc];
    assert body[pc..][1..] == body[pc + 1..] && body[pc..][0] == i;
    if Branches(i) {
      TransferAgrees(body, allocatable, m, homes, pc, s, t, trace, fuel);
      if i.BranchFalse? {
        ReadsAgree(body, allocatable, m, homes, pc, s, t, i.left);
        ReadsAgree(body, allocatable, m, homes, pc, s, t, i.right);
        FlowAgrees(body, allocatable, m, homes, pc, pc + 1, s, t);
        RunsAgree(body, allocatable, m, homes, pc + 1, s, t, trace, fuel);
      }
    } else if i.Return? {
      if i.value.Some? { ReadsAgree(body, allocatable, m, homes, pc, s, t, i.value.value); }
    } else if i.TailCall? {
      ArgumentsAgree(body, allocatable, m, homes, pc, s, t, i.args);
    } else {
      EffectAgrees(body, allocatable, m, homes, pc, s, t, trace);
      RunsAgree(body, allocatable, m, homes, pc + 1, Effect(m, i, s, trace), Effect(OnRegisters(m, homes), i, t, trace), Calls(m, i, s, trace), fuel);
    }
  }

  /** Every run over separate names is matched by the run over the allocation's
      homes: same branches, so the same calls and the same value.  The stores need
      only agree at entry on what is live there, which is nothing when every
      allocatable name is written before it is read. */
  ghost predicate PreservesMeaning(body: Body, allocatable: set<string>, homes: map<string, string>) {
    forall m: Machine, s: Store, t: Store, fuel: nat ::
      m.homes == map[] && Agree(body, allocatable, m, homes, 0, s, t) ==>
        SameOutcome(Run(m, body, s, fuel), Run(OnRegisters(m, homes), body, t, fuel))
  }

  lemma HarmlessPreserves(body: Body, allocatable: set<string>, homes: map<string, string>)
    requires Harmless(body, allocatable, homes)
    ensures PreservesMeaning(body, allocatable, homes)
  {
    forall m: Machine, s: Store, t: Store, fuel: nat | m.homes == map[] && Agree(body, allocatable, m, homes, 0, s, t)
      ensures SameOutcome(Run(m, body, s, fuel), Run(OnRegisters(m, homes), body, t, fuel))
    {
      assert body[0..] == body;
      RunsAgree(body, allocatable, m, homes, 0, s, t, [], fuel);
    }
  }

  lemma ExactIsSimple(body: Body, allocatable: set<string>, done: set<int>, graph: Adjacency)
    requires GraphExact(body, allocatable, done, graph)
    ensures Simple(graph)
  {
    forall a, b | Edge(graph, a, b) ensures a != b && b in graph && Edge(graph, b, a) {
      assert ClashIn(body, done, b, a);
    }
  }

  lemma MovesArePairs(body: Body, allocatable: set<string>, done: set<int>, moves: set<Move>)
    requires MovesExact(body, allocatable, done, moves)
    ensures forall m :: m in moves ==> |m| == 2 && m <= allocatable
  {
    forall m | m in moves ensures |m| == 2 && m <= allocatable {
      var pc :| pc in done && 0 <= pc < |body| && IsMove(body[pc], allocatable) && MoveOf(body[pc]) == m;
    }
  }

  /** When no allocatable name is read before it is written, nothing is asked of the
      allocatable names at entry. */
  lemma WrittenFirstPreserves(body: Body, allocatable: set<string>, homes: map<string, string>, m: Machine, s: Store, t: Store, fuel: nat)
    requires PreservesMeaning(body, allocatable, homes) && m.homes == map[]
    requires forall n :: n in allocatable ==> !Live(body, n, 0)
    requires forall n :: n !in allocatable ==> Read(m, s, n) == Read(OnRegisters(m, homes), t, n)
    ensures SameOutcome(Run(m, body, s, fuel), Run(OnRegisters(m, homes), body, t, fuel))
  {
    assert Agree(body, allocatable, m, homes, 0, s, t);
  }

  /** Two values that interfere are pinned to the same register. */
  ghost predicate PinsClash(body: Body, allocatable: set<string>, pins: map<string, string>) {
    exists a, b :: a in allocatable && b in allocatable && a in pins && b in pins && pins[a] == pins[b] && ClashIn(body, Span(body, 0, |body|), a, b)
  }

  lemma PinsClashIs(body: Body, allocatable: set<string>, graph: Adjacency, pins: map<string, string>)
    requires GraphExact(body, allocatable, Span(body, 0, |body|), graph)
    ensures PinsClash(body, allocatable, pins) <==> !ProperOn(graph, pins)
  {
    hide ClashIn, Span;
    if PinsClash(body, allocatable, pins) {
      var a, b :| a in allocatable && b in allocatable && a in pins && b in pins && pins[a] == pins[b] && ClashIn(body, Span(body, 0, |body|), a, b);
      assert Edge(graph, a, b);
    }
  }

  /** Fails exactly when interfering values are pinned together; otherwise gives
      every value the permitted register that is cheapest to save or spills it because
      none left is worth saving, and the code means the same.  On an unconstrained graph in which every set of values has one
      with few neighbours, nothing is spilled. */
  method Allocate(body: Body, allocatable: set<string>, c: RegisterConstraints, costs: CostModel)
    returns (r: Outcome, ghost graph: Adjacency, ghost moves: set<Move>, ghost run: Passage)
    requires WellFormed(body)
    ensures r.PrecoloredClash? <==> PinsClash(body, allocatable, c.precolored)
    ensures r.Allocated? ==> r.allocation.homes.Keys + r.allocation.spilled == allocatable && r.allocation.homes.Keys !! r.allocation.spilled
    ensures r.Allocated? ==> Permitted(c, r.allocation.homes)
    ensures GraphExact(body, allocatable, Span(body, 0, |body|), graph) && MovesExact(body, allocatable, Span(body, 0, |body|), moves)
    ensures r.Allocated? ==> Justified(c, costs, graph, run.rep, r.allocation)
    ensures r.Allocated? ==> Chronicle(c, costs, graph, moves, run)
    ensures r.Allocated? ==> run.rep.Keys == graph.Keys && Inherits(graph.Keys, run.rep, run.homes, r.allocation)
    ensures r.Allocated? && Free(c, costs) && Sparse(graph, |c.pool|) ==> r.allocation.spilled == {}
    ensures r.Allocated? ==> PreservesMeaning(body, allocatable, r.allocation.homes)
  {
    hide WellFormed, PreservesMeaning, PinsClash, GraphExact, MovesExact, AcrossExact, CountsExact, ProperOn, Permitted, Span, Simple, Justified, Chronicle, Inherits, JoinedByMoves, Sparse, Free, CountsAsMeant;
    var i := BuildInterference(body, allocatable);
    ExactIsSimple(body, allocatable, Span(body, 0, |body|), i.graph);
    MovesArePairs(body, allocatable, Span(body, 0, |body|), i.moves);
    assert i.graph.Keys == allocatable by { ExactKeys(body, allocatable, Span(body, 0, |body|), i.graph); }
    PinsClashIs(body, allocatable, i.graph, c.precolored);
    graph, moves := i.graph, i.moves;
    r, run := Color(c, costs, i.graph, i.moves);
    if r.Allocated? {
      ProperIsHarmless(body, allocatable, i.graph, r.allocation.homes);
      HarmlessPreserves(body, allocatable, r.allocation.homes);
    }
  }

  lemma ExactKeys(body: Body, allocatable: set<string>, done: set<int>, graph: Adjacency)
    requires GraphExact(body, allocatable, done, graph)
    ensures graph.Keys == allocatable
  {
  }
}
