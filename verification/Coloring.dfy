/** Optimistic Chaitin-Briggs colouring (cc/regalloc.py:139-144, 278-285,
    391-460). */
module Coloring {
  import opened Common
  import opened IR
  import opened NameOrder
  import opened Interference
  import opened Coalescing

  datatype CostModel = CostModel(registerSaveCost: map<string, map<string, int>>, spillBenefit: map<string, int>)

  datatype Allocation = Allocation(homes: map<string, string>, spilled: set<string>)

  /** What saving `register` costs a value; nothing where the model has no entry. */
  function SaveCost(costs: CostModel, name: string, register: string): (cost: int)
    ensures name !in costs.registerSaveCost || register !in costs.registerSaveCost[name] ==> cost == 0
    ensures name in costs.registerSaveCost && register in costs.registerSaveCost[name] ==> cost == costs.registerSaveCost[name][register]
  {
    if name in costs.registerSaveCost && register in costs.registerSaveCost[name]
    then costs.registerSaveCost[name][register] else 0
  }

  /** The pool registers a value may occupy. */
  predicate MayUse(c: RegisterConstraints, name: string, register: string) {
    register in c.pool && (name in c.allowed ==> register in c.allowed[name])
  }

  // ----- Simplification -----

  /** When `stack[i]` was pushed, fewer than `k` of its neighbours were left. */
  ghost predicate PushedLow(graph: Adjacency, nodes: set<string>, stack: seq<string>, k: int, i: int)
    requires 0 <= i < |stack|
  {
    stack[i] in graph && |graph[stack[i]] * (nodes - Elements(stack[..i + 1]))| < k
  }

  ghost predicate AllLow(graph: Adjacency, nodes: set<string>, stack: seq<string>, k: int) {
    forall i {:trigger PushedLow(graph, nodes, stack, k, i)} :: 0 <= i < |stack| ==> PushedLow(graph, nodes, stack, k, i)
  }

  ghost predicate Partial(nodes: set<string>, stack: seq<string>, remaining: set<string>) {
    Distinct(stack) && Elements(stack) !! remaining && Elements(stack) + remaining == nodes
  }

  lemma Push(nodes: set<string>, stack: seq<string>, remaining: set<string>, n: string)
    requires Partial(nodes, stack, remaining) && n in remaining
    ensures Partial(nodes, stack + [n], remaining - {n})
  {
    ElementsPush(stack, n);
    assert forall i :: 0 <= i < |stack| ==> stack[i] in Elements(stack);
  }

  lemma PushLow(graph: Adjacency, nodes: set<string>, stack: seq<string>, remaining: set<string>, n: string, k: int, wide: set<string>)
    requires Partial(nodes, stack, remaining) && n in remaining && remaining <= wide && n in graph
    requires |graph[n] * wide| < k && AllLow(graph, nodes, stack, k)
    ensures AllLow(graph, nodes, stack + [n], k)
  {
    var all := stack + [n];
    forall i | 0 <= i < |all| ensures PushedLow(graph, nodes, all, k, i) {
      if i < |stack| {
        assert PushedLow(graph, nodes, stack, k, i);
        assert all[..i + 1] == stack[..i + 1];
      } else {
        assert all[..i + 1] == all;
        ElementsPush(stack, n);
        Smaller(graph[n] * (nodes - Elements(all)), graph[n] * wide);
      }
    }
  }

  /** Benefit for each neighbour still in the graph: the least is spilled first. */
  function SpillMetric(costs: CostModel, graph: Adjacency, name: string, remaining: set<string>): real
    requires name in graph
  {
    var degree := |graph[name] * remaining|;
    var benefit := if name in costs.spillBenefit then costs.spillBenefit[name] else 0;
    benefit as real / (if degree == 0 then 1 else degree) as real
  }

  /** What a value is worth; a value without an entry is worth nothing. */
  ghost function Worth(costs: CostModel, name: string): int {
    if name in costs.spillBenefit then costs.spillBenefit[name] else 0
  }

  /** How many neighbours are left, counting at least one. */
  ghost function Degree(graph: Adjacency, name: string, remaining: set<string>): int
    requires name in graph
  {
    if graph[name] * remaining == {} then 1 else |graph[name] * remaining|
  }

  /** `v` goes before `n`: it is worth less for each neighbour left, or as much and
      its name comes first. */
  ghost predicate Weaker(costs: CostModel, graph: Adjacency, remaining: set<string>, v: string, n: string)
    requires v in graph && n in graph
  {
    var left, right := Worth(costs, v) * Degree(graph, n, remaining), Worth(costs, n) * Degree(graph, v, remaining);
    left < right || (left == right && Before(v, n))
  }

  ghost predicate Victim(costs: CostModel, graph: Adjacency, remaining: set<string>, v: string)
    requires remaining <= graph.Keys
  {
    v in remaining && forall n :: n in remaining && n != v ==> Weaker(costs, graph, remaining, v, n)
  }

  lemma Quotients(a: int, b: int, c: int, d: int)
    requires b > 0 && d > 0
    ensures a as real / b as real < c as real / d as real <==> a * d < c * b
    ensures a as real / b as real == c as real / d as real <==> a * d == c * b
  {
    var x, y := a as real / b as real, c as real / d as real;
    assert x * b as real == a as real && y * d as real == c as real;
    var e := b as real * d as real;
    assert e > 0.0;
    assert (a * d) as real == x * e && (c * b) as real == y * e;
    if x < y { assert (y - x) * e > 0.0; }
    if y < x { assert (x - y) * e > 0.0; }
  }

  lemma WeakerIs(costs: CostModel, graph: Adjacency, remaining: set<string>, v: string, n: string)
    requires v in graph && n in graph
    ensures var x, y := SpillMetric(costs, graph, v, remaining), SpillMetric(costs, graph, n, remaining);
            Weaker(costs, graph, remaining, v, n) <==> x < y || (x == y && Before(v, n))
  {
    Quotients(Worth(costs, v), Degree(graph, v, remaining), Worth(costs, n), Degree(graph, n, remaining));
    hide Before;
  }

  method ChooseVictim(costs: CostModel, graph: Adjacency, remaining: set<string>) returns (victim: string)
    requires remaining != {} && remaining <= graph.Keys
    ensures Victim(costs, graph, remaining, victim)
  {
    hide Before, SpillMetric, Weaker;
    victim :| victim in remaining;
    var left := remaining - {victim};
    while left != {}
      invariant left <= remaining && victim in remaining && victim !in left
      invariant forall n :: n in remaining - left && n != victim ==> Weaker(costs, graph, remaining, victim, n)
    {
      var n :| n in left;
      var x, y := SpillMetric(costs, graph, n, remaining), SpillMetric(costs, graph, victim, remaining);
      ghost var done, before := remaining - left, victim;
      left := left - {n};
      if x < y || (x == y && Before(n, victim)) {
        WeakerIs(costs, graph, remaining, n, victim);
        WeakerTransfers(costs, graph, remaining, done, before, n);
        victim := n;
      } else {
        BeforeTotal(n, victim);
        WeakerIs(costs, graph, remaining, victim, n);
      }
    }
  }

  lemma WeakerTransfers(costs: CostModel, graph: Adjacency, remaining: set<string>, names: set<string>, v: string, w: string)
    requires names <= graph.Keys && v in names && w in graph && Weaker(costs, graph, remaining, w, v)
    requires forall n :: n in names && n != v ==> Weaker(costs, graph, remaining, v, n)
    ensures forall n :: n in names ==> Weaker(costs, graph, remaining, w, n)
  {
    hide Before, SpillMetric, Weaker;
    forall n | n in names ensures Weaker(costs, graph, remaining, w, n) {
      if n != v {
        WeakerIs(costs, graph, remaining, w, v);
        WeakerIs(costs, graph, remaining, v, n);
        WeakerIs(costs, graph, remaining, w, n);
        if Before(w, v) && Before(v, n) { BeforeTransitive(w, v, n); }
      }
    }
  }

  /** Pushes every value in `low` in the order of the names, each with fewer than
      `k` neighbours in `wide`. */
  method PushAll(graph: Adjacency, ghost nodes: set<string>, stack0: seq<string>, ghost wide: set<string>, low: set<string>, k: int)
    returns (stack: seq<string>, ghost wave: seq<string>)
    requires Partial(nodes, stack0, wide) && low <= wide <= graph.Keys
    requires forall n :: n in low ==> |graph[n] * wide| < k
    ensures stack == stack0 + wave && Lists(low, wave)
    ensures Partial(nodes, stack, wide - low)
    ensures AllLow(graph, nodes, stack0, k) ==> AllLow(graph, nodes, stack, k)
  {
    hide *;
    stack, wave := stack0, [];
    var left := low;
    ghost var remaining := wide;
    NothingListed(low);
    while left != {}
      invariant left <= low && left <= remaining <= wide && remaining == wide - (low - left)
      invariant stack == stack0 + wave && Lists(low - left, wave)
      invariant forall x, y :: x in low - left && y in left ==> Before(x, y)
      invariant Partial(nodes, stack, remaining)
      invariant AllLow(graph, nodes, stack0, k) ==> AllLow(graph, nodes, stack, k)
    {
      var n := First(left);
      LeastIn(left, n);
      Push(nodes, stack, remaining, n);
      if AllLow(graph, nodes, stack, k) { PushLow(graph, nodes, stack, remaining, n, k, wide); }
      ListsPush(low, wave, left, n);
      stack, wave := stack + [n], wave + [n];
      remaining := remaining - {n};
      left := left - {n};
    }
    assert wide - (low - left) == wide - low;
    assert low - left == low;
  }

  lemma NothingListed(names: set<string>)
    ensures Lists(names - names, [])
  {
  }

  lemma LeastIn(names: set<string>, n: string)
    requires Least(names, n)
    ensures n in names
  {
  }

  /** The values with fewer than `k` neighbours left. */
  ghost function Low(graph: Adjacency, remaining: set<string>, k: int): set<string>
    requires remaining <= graph.Keys
  {
    set n | n in remaining && |graph[n] * remaining| < k
  }

  /** How `remaining` goes on the stack: as long as some values have fewer than `k`
      neighbours left, all of them in the order of their names, otherwise the victim. */
  ghost predicate Ordered(graph: Adjacency, remaining: set<string>, k: int, costs: CostModel, stack: seq<string>)
    requires remaining <= graph.Keys
    decreases |stack|
  {
    if stack == [] || remaining == {} then stack == [] && remaining == {}
    else
      var low := Low(graph, remaining, k);
      if low == {} then Victim(costs, graph, remaining, stack[0]) && Ordered(graph, remaining - {stack[0]}, k, costs, stack[1..])
      else |low| <= |stack| && Lists(low, stack[..|low|]) && Ordered(graph, remaining - low, k, costs, stack[|low|..])
  }

  /** Whatever finishes `remaining` in order finishes `nodes` in order behind `stack`. */
  ghost predicate OrderedSoFar(graph: Adjacency, nodes: set<string>, remaining: set<string>, k: int, costs: CostModel, stack: seq<string>)
    requires nodes <= graph.Keys && remaining <= graph.Keys
  {
    forall rest :: Ordered(graph, remaining, k, costs, rest) ==> Ordered(graph, nodes, k, costs, stack + rest)
  }

  lemma WaveOrdered(graph: Adjacency, nodes: set<string>, remaining: set<string>, k: int, costs: CostModel, stack: seq<string>, wave: seq<string>)
    requires nodes <= graph.Keys && remaining <= graph.Keys && OrderedSoFar(graph, nodes, remaining, k, costs, stack)
    requires Low(graph, remaining, k) != {} && Lists(Low(graph, remaining, k), wave)
    ensures OrderedSoFar(graph, nodes, remaining - Low(graph, remaining, k), k, costs, stack + wave)
  {
    var low := Low(graph, remaining, k);
    ListsSize(low, wave);
    hide Lists, Low, Victim;
    forall rest | Ordered(graph, remaining - low, k, costs, rest) ensures Ordered(graph, nodes, k, costs, stack + wave + rest) {
      var all := wave + rest;
      assert all[..|low|] == wave && all[|low|..] == rest;
      assert remaining != {} by { LowWithin(graph, remaining, k); }
      assert Ordered(graph, remaining, k, costs, all);
      assert stack + all == stack + wave + rest;
    }
  }

  lemma LowWithin(graph: Adjacency, remaining: set<string>, k: int)
    requires remaining <= graph.Keys
    ensures Low(graph, remaining, k) <= remaining
  {
  }

  lemma VictimOrdered(graph: Adjacency, nodes: set<string>, remaining: set<string>, k: int, costs: CostModel, stack: seq<string>, v: string)
    requires nodes <= graph.Keys && remaining <= graph.Keys && OrderedSoFar(graph, nodes, remaining, k, costs, stack)
    requires Low(graph, remaining, k) == {} && v in remaining && Victim(costs, graph, remaining, v)
    ensures OrderedSoFar(graph, nodes, remaining - {v}, k, costs, stack + [v])
  {
    hide Lists, Low, Victim;
    forall rest | Ordered(graph, remaining - {v}, k, costs, rest) ensures Ordered(graph, nodes, k, costs, stack + [v] + rest) {
      var all := [v] + rest;
      assert all[1..] == rest;
      assert Ordered(graph, remaining, k, costs, all);
      assert stack + all == stack + [v] + rest;
    }
  }

  lemma OrderedEnds(graph: Adjacency, nodes: set<string>, k: int, costs: CostModel, stack: seq<string>)
    requires nodes <= graph.Keys && OrderedSoFar(graph, nodes, {}, k, costs, stack)
    ensures Ordered(graph, nodes, k, costs, stack)
  {
    assert Ordered(graph, {}, k, costs, []);
    assert stack + [] == stack;
  }

  lemma SimplifyStarts(graph: Adjacency, nodes: set<string>, k: int, costs: CostModel)
    requires nodes <= graph.Keys
    ensures Partial(nodes, [], nodes) && AllLow(graph, nodes, [], k) && OrderedSoFar(graph, nodes, nodes, k, costs, [])
  {
    assert forall rest: seq<string> :: [] + rest == rest;
  }

  /** On a sparse graph there is always a value to push that has few neighbours left. */
  lemma LowIs(graph: Adjacency, remaining: set<string>, k: int, low: set<string>)
    requires remaining <= graph.Keys && low == set n | n in remaining && |graph[n] * remaining| < k
    ensures low == Low(graph, remaining, k)
    ensures Sparse(graph, k) && remaining != {} ==> low != {}
  {
    if Sparse(graph, k) && remaining != {} {
      assert HasLow(graph, remaining, k);
      var v :| v in remaining && v in graph && |graph[v] * remaining| < k;
      assert v in low;
    }
  }

  lemma PartialEnds(nodes: set<string>, stack: seq<string>)
    requires Partial(nodes, stack, {})
    ensures Distinct(stack) && Elements(stack) == nodes
  {
  }

  /** Orders the nodes for selection; on a sparse graph every node is pushed while
      it has few neighbours left. */
  method Simplify(graph: Adjacency, nodes: set<string>, k: int, costs: CostModel) returns (stack: seq<string>)
    requires nodes <= graph.Keys
    ensures Distinct(stack) && Elements(stack) == nodes
    ensures Ordered(graph, nodes, k, costs, stack)
    ensures Sparse(graph, k) ==> AllLow(graph, nodes, stack, k)
  {
    hide *;
    stack := [];
    var remaining := nodes;
    SimplifyStarts(graph, nodes, k, costs);
    while remaining != {}
      invariant remaining <= nodes && Partial(nodes, stack, remaining)
      invariant OrderedSoFar(graph, nodes, remaining, k, costs, stack)
      invariant Sparse(graph, k) ==> AllLow(graph, nodes, stack, k)
    {
      var simplifiable := set n | n in remaining && |graph[n] * remaining| < k;
      LowIs(graph, remaining, k, simplifiable);
      if simplifiable != {} {
        ghost var wave, before := [], stack;
        stack, wave := PushAll(graph, nodes, stack, remaining, simplifiable, k);
        WaveOrdered(graph, nodes, remaining, k, costs, before, wave);
        remaining := remaining - simplifiable;
      } else {
        var victim := ChooseVictim(costs, graph, remaining);
        VictimIn(costs, graph, remaining, victim);
        Push(nodes, stack, remaining, victim);
        VictimOrdered(graph, nodes, remaining, k, costs, stack, victim);
        stack := stack + [victim];
        remaining := remaining - {victim};
      }
    }
    OrderedEnds(graph, nodes, k, costs, stack);
    PartialEnds(nodes, stack);
  }

  lemma VictimIn(costs: CostModel, graph: Adjacency, remaining: set<string>, v: string)
    requires remaining <= graph.Keys && Victim(costs, graph, remaining, v)
    ensures v in remaining
  {
  }

  // ----- Selection -----

  /** The registers of the coloured neighbours. */
  function UsedBy(graph: Adjacency, homes: map<string, string>, name: string): set<string>
    requires name in graph
  {
    set n | n in graph[name] && n in homes :: homes[n]
  }

  /** Register `r` stands at place `i` of the pool, is legal, and every legal register
      costs more to save or as much and stands no earlier. */
  ghost predicate BestAt(c: RegisterConstraints, costs: CostModel, name: string, used: set<string>, r: string, i: int) {
    && 0 <= i < |c.pool| && c.pool[i] == r && MayUse(c, name, r) && r !in used
    && forall j :: 0 <= j < |c.pool| && MayUse(c, name, c.pool[j]) && c.pool[j] !in used ==>
         SaveCost(costs, name, r) < SaveCost(costs, name, c.pool[j]) || (SaveCost(costs, name, r) == SaveCost(costs, name, c.pool[j]) && i <= j)
  }

  ghost predicate Best(c: RegisterConstraints, costs: CostModel, name: string, used: set<string>, r: string) {
    exists i :: BestAt(c, costs, name, used, r, i)
  }

  /** The legal register of least save cost, the first of them in pool order. */
  method Cheapest(c: RegisterConstraints, costs: CostModel, name: string, used: set<string>) returns (choice: Option<string>)
    ensures choice.None? <==> forall r :: MayUse(c, name, r) ==> r in used
    ensures choice.Some? ==> Best(c, costs, name, used, choice.value)
  {
    choice := None;
    ghost var place := 0;
    for i := 0 to |c.pool|
      invariant choice.Some? ==> place < i && choice.value == c.pool[place] && MayUse(c, name, choice.value) && choice.value !in used
      invariant choice.None? ==> forall j :: 0 <= j < i && MayUse(c, name, c.pool[j]) ==> c.pool[j] in used
      invariant choice.Some? ==> forall j :: 0 <= j < i && MayUse(c, name, c.pool[j]) && c.pool[j] !in used ==>
        SaveCost(costs, name, choice.value) < SaveCost(costs, name, c.pool[j])
        || (SaveCost(costs, name, choice.value) == SaveCost(costs, name, c.pool[j]) && place <= j)
      invariant 0 <= place
    {
      var r := c.pool[i];
      if MayUse(c, name, r) && r !in used
        && (choice.None? || SaveCost(costs, name, r) < SaveCost(costs, name, choice.value))
      {
        choice, place := Some(r), i;
      }
    }
    if choice.Some? {
      assert BestAt(c, costs, name, used, choice.value, place);
    } else {
      forall r | MayUse(c, name, r) ensures r in used {
        var j :| 0 <= j < |c.pool| && c.pool[j] == r;
      }
    }
  }

  /** No two coloured neighbours share a register. */
  ghost predicate ProperOn(graph: Adjacency, homes: map<string, string>) {
    forall a, b :: Edge(graph, a, b) && a in homes && b in homes ==> homes[a] != homes[b]
  }

  ghost predicate Permitted(c: RegisterConstraints, homes: map<string, string>) {
    forall n :: n in homes ==>
      if n in c.precolored then homes[n] == c.precolored[n]
      else homes[n] in c.pool && (n in c.allowed ==> homes[n] in c.allowed[n])
  }

  /** Why a value has no register: each one it may use is held by a coloured
      neighbour, or costs at least as much to save as the value is worth. */
  ghost predicate Rejected(c: RegisterConstraints, costs: CostModel, graph: Adjacency, homes: map<string, string>, name: string)
    requires name in graph
  {
    forall r :: MayUse(c, name, r) ==>
      r in UsedBy(graph, homes, name) || (name in costs.spillBenefit && costs.spillBenefit[name] <= SaveCost(costs, name, r))
  }

  /** Why a value has its register: the register costs less to save than the value is
      worth, and what costs less is held by coloured neighbours. */
  ghost predicate Earned(c: RegisterConstraints, costs: CostModel, graph: Adjacency, homes: map<string, string>, name: string)
    requires name in graph && name in homes
  {
    && (name in costs.spillBenefit ==> SaveCost(costs, name, homes[name]) < costs.spillBenefit[name])
    && forall r :: MayUse(c, name, r) && SaveCost(costs, name, r) < SaveCost(costs, name, homes[name]) ==> r in UsedBy(graph, homes, name)
  }

  ghost predicate AllEarned(c: RegisterConstraints, costs: CostModel, graph: Adjacency, homes: map<string, string>) {
    forall n :: n in homes && n !in c.precolored ==> n in graph && Earned(c, costs, graph, homes, n)
  }

  ghost predicate Selected(c: RegisterConstraints, costs: CostModel, graph: Adjacency, homes: map<string, string>, spilled: set<string>) {
    && ProperOn(graph, homes) && Permitted(c, homes)
    && spilled <= graph.Keys && spilled !! homes.Keys
    && c.precolored.Keys <= homes.Keys
    && (forall n :: n in spilled ==> Rejected(c, costs, graph, homes, n))
    && AllEarned(c, costs, graph, homes)
  }

  /** What is decided for `name` when the values in `homes` have their registers: the
      best legal one if the value is worth more than saving it, none otherwise. */
  ghost predicate Decided(c: RegisterConstraints, costs: CostModel, graph: Adjacency, homes: map<string, string>, name: string, home: Option<string>)
    requires name in graph
  {
    match home
    case None => Rejected(c, costs, graph, homes, name)
    case Some(r) =>
      && Best(c, costs, name, UsedBy(graph, homes, name), r)
      && (name in costs.spillBenefit ==> SaveCost(costs, name, r) < costs.spillBenefit[name])
  }

  function HomeOf(homes: map<string, string>, name: string): Option<string> {
    if name in homes then Some(homes[name]) else None
  }

  /** The homes of the pinned values and of those in `names`. */
  ghost function Given(c: RegisterConstraints, homes: map<string, string>, names: set<string>): map<string, string> {
    map n | n in homes && (n in c.precolored || n in names) :: homes[n]
  }

  /** When `stack[i]` was popped, the values behind it on the stack had been decided. */
  ghost predicate DecidedAt(c: RegisterConstraints, costs: CostModel, graph: Adjacency, stack: seq<string>, homes: map<string, string>, i: int)
    requires 0 <= i < |stack|
  {
    stack[i] in graph && Decided(c, costs, graph, Given(c, homes, Elements(stack[i + 1..])), stack[i], HomeOf(homes, stack[i]))
  }

  /** The stack is decided from its end down to `from`. */
  ghost predicate DecidedFrom(c: RegisterConstraints, costs: CostModel, graph: Adjacency, stack: seq<string>, homes: map<string, string>, from: int) {
    && 0 <= from <= |stack| && homes.Keys <= c.precolored.Keys + Elements(stack[from..])
    && (forall n :: n in c.precolored ==> n in homes && homes[n] == c.precolored[n])
    && forall i {:trigger DecidedAt(c, costs, graph, stack, homes, i)} :: from <= i < |stack| ==> DecidedAt(c, costs, graph, stack, homes, i)
  }

  lemma DecidedStarts(c: RegisterConstraints, costs: CostModel, graph: Adjacency, stack: seq<string>)
    ensures DecidedFrom(c, costs, graph, stack, c.precolored, |stack|)
  {
  }

  lemma GivenIsAll(c: RegisterConstraints, homes: map<string, string>, names: set<string>)
    requires homes.Keys <= c.precolored.Keys + names
    ensures Given(c, homes, names) == homes
  {
  }

  lemma GivenStays(c: RegisterConstraints, homes: map<string, string>, more: map<string, string>, names: set<string>, name: string)
    requires name !in names && name !in c.precolored && more.Keys <= homes.Keys + {name}
    requires forall n :: n in homes && n != name ==> n in more && more[n] == homes[n]
    ensures Given(c, more, names) == Given(c, homes, names)
  {
  }

  lemma DecidedFacts(c: RegisterConstraints, costs: CostModel, graph: Adjacency, stack: seq<string>, homes: map<string, string>, from: int)
    requires DecidedFrom(c, costs, graph, stack, homes, from)
    ensures 0 <= from <= |stack| && homes.Keys <= c.precolored.Keys + Elements(stack[from..])
    ensures forall n :: n in c.precolored ==> n in homes && homes[n] == c.precolored[n]
    ensures forall i {:trigger DecidedAt(c, costs, graph, stack, homes, i)} :: from <= i < |stack| ==> DecidedAt(c, costs, graph, stack, homes, i)
  {
    hide DecidedAt;
  }

  lemma DecidedIs(c: RegisterConstraints, costs: CostModel, graph: Adjacency, stack: seq<string>, homes: map<string, string>, from: int)
    requires 0 <= from <= |stack| && homes.Keys <= c.precolored.Keys + Elements(stack[from..])
    requires forall n :: n in c.precolored ==> n in homes && homes[n] == c.precolored[n]
    requires forall i {:trigger DecidedAt(c, costs, graph, stack, homes, i)} :: from <= i < |stack| ==> DecidedAt(c, costs, graph, stack, homes, i)
    ensures DecidedFrom(c, costs, graph, stack, homes, from)
  {
    hide DecidedAt;
  }

  lemma HomesBut(homes: map<string, string>, name: string, home: Option<string>)
    ensures var more := if home.Some? then homes[name := home.value] else homes; forall n :: n != name ==> HomeOf(more, n) == HomeOf(homes, n)
  {
  }

  lemma DecidedHere(c: RegisterConstraints, costs: CostModel, graph: Adjacency, stack: seq<string>, homes: map<string, string>, home: Option<string>, i: int)
    requires 0 <= i < |stack| && stack[i] in graph && stack[i] !in homes && Decided(c, costs, graph, homes, stack[i], home)
    requires var more := if home.Some? then homes[stack[i] := home.value] else homes; Given(c, more, Elements(stack[i + 1..])) == homes
    ensures DecidedAt(c, costs, graph, stack, if home.Some? then homes[stack[i] := home.value] else homes, i)
  {
    hide Decided, Given;
  }

  lemma DecidedStill(c: RegisterConstraints, costs: CostModel, graph: Adjacency, stack: seq<string>, homes: map<string, string>, more: map<string, string>, i: int, last: int)
    requires Distinct(stack) && 0 <= last < i < |stack| && DecidedAt(c, costs, graph, stack, homes, i)
    requires Given(c, more, Elements(stack[i + 1..])) == Given(c, homes, Elements(stack[i + 1..]))
    requires forall n :: n != stack[last] ==> HomeOf(more, n) == HomeOf(homes, n)
    ensures DecidedAt(c, costs, graph, stack, more, i)
  {
    hide Decided, Given, Elements;
    assert stack[i] != stack[last];
  }

  /** The next decision leaves the earlier ones as they were. */
  lemma DecidedOneMore(c: RegisterConstraints, costs: CostModel, graph: Adjacency, stack: seq<string>, homes: map<string, string>, from: int, home: Option<string>)
    requires Distinct(stack) && Elements(stack) !! c.precolored.Keys && 0 < from && DecidedFrom(c, costs, graph, stack, homes, from)
    requires stack[from - 1] in graph && Decided(c, costs, graph, homes, stack[from - 1], home)
    ensures DecidedFrom(c, costs, graph, stack, if home.Some? then homes[stack[from - 1] := home.value] else homes, from - 1)
  {
    hide *;
    DecidedFacts(c, costs, graph, stack, homes, from);
    var last := from - 1;
    var name := stack[last];
    var more := if home.Some? then homes[name := home.value] else homes;
    HomesBut(homes, name, home);
    ElementsSplit(stack, last);
    assert name !in homes;
    forall i | last <= i < |stack| ensures DecidedAt(c, costs, graph, stack, more, i) {
      GivenIsAll(c, homes, Elements(stack[from..]));
      NotBehind(stack, last, i);
      GivenStays(c, homes, more, Elements(stack[i + 1..]), name);
      if i == last {
        DecidedHere(c, costs, graph, stack, homes, home, i);
      } else {
        DecidedStill(c, costs, graph, stack, homes, more, i, last);
      }
    }
    DecidedIs(c, costs, graph, stack, more, last);
  }

  lemma NotBehind(stack: seq<string>, i: int, j: int)
    requires Distinct(stack) && 0 <= i <= j < |stack|
    ensures stack[i] !in Elements(stack[j + 1..])
  {
  }

  lemma ColorKeeps(c: RegisterConstraints, costs: CostModel, graph: Adjacency, homes: map<string, string>, spilled: set<string>, name: string, register: string)
    requires Simple(graph) && Selected(c, costs, graph, homes, spilled) && name in graph && name !in homes && name !in spilled
    requires MayUse(c, name, register) && register !in UsedBy(graph, homes, name)
    requires name in costs.spillBenefit ==> SaveCost(costs, name, register) < costs.spillBenefit[name]
    requires forall r :: MayUse(c, name, r) && SaveCost(costs, name, r) < SaveCost(costs, name, register) ==> r in UsedBy(graph, homes, name)
    ensures Selected(c, costs, graph, homes[name := register], spilled)
  {
    var next := homes[name := register];
    hide Best;
    forall a, b | Edge(graph, a, b) && a in next && b in next ensures next[a] != next[b] {
      if a == name {
        assert b in homes ==> homes[b] in UsedBy(graph, homes, name);
      }
      if b == name {
        assert Edge(graph, b, a);
        assert a in homes ==> homes[a] in UsedBy(graph, homes, name);
      }
    }
    forall n | n in spilled ensures Rejected(c, costs, graph, next, n) {
      assert Rejected(c, costs, graph, homes, n);
      UsedGrows(graph, homes, name, register, n);
    }
    forall n | n in next && n !in c.precolored ensures n in graph && Earned(c, costs, graph, next, n) {
      UsedGrows(graph, homes, name, register, if n in graph then n else name);
      if n != name { assert Earned(c, costs, graph, homes, n); }
    }
  }

  lemma UsedGrows(graph: Adjacency, homes: map<string, string>, name: string, register: string, n: string)
    requires n in graph && name !in homes
    ensures UsedBy(graph, homes, n) <= UsedBy(graph, homes[name := register], n)
  {
    var next := homes[name := register];
    forall r | r in UsedBy(graph, homes, n) ensures r in UsedBy(graph, next, n) {
      var m :| m in graph[n] && m in homes && homes[m] == r;
      assert next[m] == r;
    }
  }

  /** No pinned values, no restrictions, no benefit gate, and distinct registers. */
  ghost predicate Free(c: RegisterConstraints, costs: CostModel) {
    c.precolored == map[] && c.allowed == map[] && costs.spillBenefit == map[] && Distinct(c.pool)
  }

  lemma {:induction false} ImageSmaller(homes: map<string, string>, names: set<string>)
    requires names <= homes.Keys
    ensures |set n | n in names :: homes[n]| <= |names|
    decreases names
  {
    if names != {} {
      var x :| x in names;
      ImageSmaller(homes, names - {x});
      var image := set n | n in names :: homes[n];
      var less := set n | n in names - {x} :: homes[n];
      assert image == less + {homes[x]};
    }
  }

  /** With few coloured neighbours some register of the pool is free. */
  lemma RegisterLeft(c: RegisterConstraints, costs: CostModel, graph: Adjacency, homes: map<string, string>, name: string, rest: set<string>)
    requires Free(c, costs) && name in graph && |graph[name] * rest| < |c.pool|
    requires forall n :: n in graph[name] && n in homes ==> n in rest
    ensures exists r :: MayUse(c, name, r) && r !in UsedBy(graph, homes, name)
  {
    var near := set n | n in graph[name] && n in homes;
    assert UsedBy(graph, homes, name) == set n | n in near :: homes[n];
    ImageSmaller(homes, near);
    Smaller(near, graph[name] * rest);
    DistinctSize(c.pool);
    if Elements(c.pool) <= UsedBy(graph, homes, name) {
      Smaller(Elements(c.pool), UsedBy(graph, homes, name));
    }
    var r :| r in Elements(c.pool) && r !in UsedBy(graph, homes, name);
    assert MayUse(c, name, r);
  }

  lemma ElementsSplit(s: seq<string>, i: int)
    requires Distinct(s) && 0 <= i < |s|
    ensures Elements(s[i..]) == Elements(s[i + 1..]) + {s[i]}
    ensures Elements(s[i + 1..]) == Elements(s) - Elements(s[..i + 1])
    ensures s[i] !in Elements(s[i + 1..]) && s[i] in Elements(s)
  {
    assert s[i..] == [s[i]] + s[i + 1..];
    assert s == s[..i + 1] + s[i + 1..];
    var head, tail := s[..i + 1], s[i + 1..];
    assert forall x :: x in tail ==> x !in head by {
      forall x | x in tail ensures x !in head {
        var j :| 0 <= j < |tail| && tail[j] == x;
        assert s[i + 1 + j] == x;
      }
    }
    assert head[i] == s[i];
  }

  lemma BestFacts(c: RegisterConstraints, costs: CostModel, name: string, used: set<string>, r: string)
    requires Best(c, costs, name, used, r)
    ensures MayUse(c, name, r) && r !in used
    ensures forall q :: MayUse(c, name, q) && SaveCost(costs, name, q) < SaveCost(costs, name, r) ==> q in used
  {
    var i :| BestAt(c, costs, name, used, r, i);
    forall q | MayUse(c, name, q) && SaveCost(costs, name, q) < SaveCost(costs, name, r) ensures q in used {
      var j :| 0 <= j < |c.pool| && c.pool[j] == q;
    }
  }

  /** One value is given a register or spilled. */
  method Place(c: RegisterConstraints, costs: CostModel, graph: Adjacency, homes0: map<string, string>, spilled0: set<string>, name: string)
    returns (homes: map<string, string>, spilled: set<string>, ghost home: Option<string>)
    requires Simple(graph) && Selected(c, costs, graph, homes0, spilled0)
    requires name in graph && name !in homes0 && name !in spilled0
    ensures Selected(c, costs, graph, homes, spilled)
    ensures Decided(c, costs, graph, homes0, name, home)
    ensures homes == (if home.Some? then homes0[name := home.value] else homes0)
    ensures spilled == (if home.Some? then spilled0 else spilled0 + {name})
  {
    hide Simple, MayUse, UsedBy, ProperOn, Permitted, SaveCost, Best, Earned;
    homes, spilled := homes0, spilled0;
    var choice := Cheapest(c, costs, name, UsedBy(graph, homes, name));
    if choice.Some? { BestFacts(c, costs, name, UsedBy(graph, homes, name), choice.value); }
    if choice.None? || (name in costs.spillBenefit && costs.spillBenefit[name] <= SaveCost(costs, name, choice.value)) {
      spilled := spilled + {name};
      home := None;
    } else {
      ColorKeeps(c, costs, graph, homes, spilled, name, choice.value);
      homes := homes[name := choice.value];
      home := choice;
    }
  }

  /** A value pushed with few neighbours left finds a free register. */
  lemma LowFinds(c: RegisterConstraints, costs: CostModel, graph: Adjacency, stack: seq<string>, homes: map<string, string>, i: int)
    requires Free(c, costs) && Distinct(stack) && AllLow(graph, Elements(stack), stack, |c.pool|)
    requires 0 <= i < |stack| && stack[i] in graph && homes.Keys <= Elements(stack[i + 1..])
    ensures exists r :: MayUse(c, stack[i], r) && r !in UsedBy(graph, homes, stack[i])
  {
    assert PushedLow(graph, Elements(stack), stack, |c.pool|, i);
    ElementsSplit(stack, i);
    RegisterLeft(c, costs, graph, homes, stack[i], Elements(stack[i + 1..]));
  }

  lemma SelectStarts(c: RegisterConstraints, costs: CostModel, graph: Adjacency, stack: seq<string>)
    requires Simple(graph) && ProperOn(graph, c.precolored)
    ensures Selected(c, costs, graph, c.precolored, {}) && Elements(stack[|stack|..]) == {}
    ensures Free(c, costs) ==> c.precolored == map[]
  {
  }

  /** Without a benefit gate a value is spilled only when no register is left. */
  lemma FreeIsPlaced(c: RegisterConstraints, costs: CostModel, graph: Adjacency, homes: map<string, string>, name: string, home: Option<string>)
    requires Free(c, costs) && name in graph && Decided(c, costs, graph, homes, name, home)
    requires exists r :: MayUse(c, name, r) && r !in UsedBy(graph, homes, name)
    ensures home.Some?
  {
  }

  /** Pops the stack, giving each value the cheapest register its coloured
      neighbours leave, or spilling it. */
  method Select(c: RegisterConstraints, costs: CostModel, graph: Adjacency, stack: seq<string>) returns (homes: map<string, string>, spilled: set<string>)
    requires Simple(graph) && ProperOn(graph, c.precolored)
    requires Distinct(stack) && Elements(stack) == graph.Keys - c.precolored.Keys
    ensures Selected(c, costs, graph, homes, spilled)
    ensures homes.Keys + spilled == c.precolored.Keys + graph.Keys
    ensures DecidedFrom(c, costs, graph, stack, homes, 0)
    ensures Free(c, costs) && AllLow(graph, Elements(stack), stack, |c.pool|) ==> spilled == {}
  {
    hide *;
    homes, spilled := c.precolored, {};
    var i := |stack|;
    ghost var easy := Free(c, costs) && AllLow(graph, Elements(stack), stack, |c.pool|);
    SelectStarts(c, costs, graph, stack);
    DecidedStarts(c, costs, graph, stack);
    while i > 0
      invariant 0 <= i <= |stack|
      invariant Selected(c, costs, graph, homes, spilled)
      invariant homes.Keys + spilled == c.precolored.Keys + Elements(stack[i..])
      invariant DecidedFrom(c, costs, graph, stack, homes, i)
      invariant easy ==> spilled == {}
    {
      i := i - 1;
      var name := stack[i];
      ElementsSplit(stack, i);
      if easy { LowFinds(c, costs, graph, stack, homes, i); }
      ghost var before, home := homes, None;
      homes, spilled, home := Place(c, costs, graph, homes, spilled, name);
      if easy { FreeIsPlaced(c, costs, graph, before, name, home); }
      DecidedOneMore(c, costs, graph, stack, before, i + 1, home);
    }
    assert stack[0..] == stack;
  }

  // ----- The whole colouring -----

  /** Homes and spilled values partition the graph, interfering values get
      different registers, and every home is one the constraints permit. */
  ghost predicate Proper(c: RegisterConstraints, interference: Adjacency, a: Allocation) {
    && a.homes.Keys !! a.spilled && a.homes.Keys + a.spilled == interference.Keys
    && ProperOn(interference, a.homes)
    && Permitted(c, a.homes)
    && (forall n :: n in interference && n in c.precolored ==> n in a.homes)
  }

  /** Some value of the same class has a neighbour that holds `register`. */
  ghost predicate Blocked(interference: Adjacency, rep: map<string, string>, a: Allocation, name: string, register: string) {
    exists x, y :: Edge(interference, x, y) && x in rep && name in rep && rep[x] == rep[name] && y in a.homes && a.homes[y] == register
  }

  /** A spilled value had no register worth having. */
  ghost predicate SpillJustified(c: RegisterConstraints, costs: CostModel, interference: Adjacency, rep: map<string, string>, a: Allocation, name: string)
    requires name in rep
  {
    forall r :: r in c.pool && (name in c.allowed ==> r in c.allowed[name]) ==>
      || Blocked(interference, rep, a, name, r)
      || (rep[name] in costs.spillBenefit && costs.spillBenefit[rep[name]] <= SaveCost(costs, rep[name], r))
  }

  /** A register is worth more than saving it costs, and each cheaper one is held by a
      neighbour of the class. */
  ghost predicate HomeJustified(c: RegisterConstraints, costs: CostModel, interference: Adjacency, rep: map<string, string>, a: Allocation, name: string)
    requires name in rep && name in a.homes
  {
    && (rep[name] in costs.spillBenefit ==> SaveCost(costs, rep[name], a.homes[name]) < costs.spillBenefit[rep[name]])
    && forall r :: r in c.pool && (name in c.allowed ==> r in c.allowed[name]) && SaveCost(costs, rep[name], r) < SaveCost(costs, rep[name], a.homes[name]) ==>
         Blocked(interference, rep, a, name, r)
  }

  /** Every value in `names` inherits the outcome of its representative. */
  ghost predicate Inherits(names: set<string>, rep: map<string, string>, homes: map<string, string>, a: Allocation)
    requires names <= rep.Keys
  {
    && a.homes.Keys + a.spilled == names && a.homes.Keys !! a.spilled
    && (forall n :: n in a.homes ==> rep[n] in homes && a.homes[n] == homes[rep[n]])
    && (forall n :: n in a.spilled ==> rep[n] !in homes)
  }

  method Expand(interference: Adjacency, alias: map<string, string>, homes: map<string, string>,
                ghost rep: map<string, string>, ghost rank: map<string, int>) returns (a: Allocation)
    requires Ranked(alias, rank) && Representatives(alias, rep) && rep.Keys == interference.Keys
    ensures Inherits(interference.Keys, rep, homes, a)
  {
    var finalHomes: map<string, string>, finalSpilled: set<string> := map[], {};
    var left := interference.Keys;
    hide Ranked, Representatives;
    while left != {}
      invariant left <= interference.Keys
      invariant Inherits(interference.Keys - left, rep, homes, Allocation(finalHomes, finalSpilled))
    {
      var n :| n in left;
      var r := ResolveAlias(alias, n, rank, rep);
      InheritsOneMore(interference.Keys - left, rep, homes, Allocation(finalHomes, finalSpilled), n);
      assert interference.Keys - left + {n} == interference.Keys - (left - {n});
      if r in homes { finalHomes := finalHomes[n := homes[r]]; } else { finalSpilled := finalSpilled + {n}; }
      left := left - {n};
      hide Inherits;
    }
    a := Allocation(finalHomes, finalSpilled);
    assert interference.Keys - left == interference.Keys;
  }

  lemma InheritsOneMore(names: set<string>, rep: map<string, string>, homes: map<string, string>, a: Allocation, n: string)
    requires names <= rep.Keys && n in rep && n !in names && Inherits(names, rep, homes, a)
    ensures rep[n] in homes ==> Inherits(names + {n}, rep, homes, a.(homes := a.homes[n := homes[rep[n]]]))
    ensures rep[n] !in homes ==> Inherits(names + {n}, rep, homes, a.(spilled := a.spilled + {n}))
  {
  }

  /** Homes chosen on the merged graph are proper on the original one. */
  lemma ExpandProper(c: RegisterConstraints, costs: CostModel, original: Adjacency, graph: Adjacency, rep: map<string, string>,
                     homes: map<string, string>, spilled: set<string>, a: Allocation)
    requires Quotient(original, graph, rep) && ClassesRespect(c, rep)
    requires Selected(c, costs, graph, homes, spilled) && Inherits(original.Keys, rep, homes, a)
    ensures Proper(c, original, a)
  {
    forall x, y | Edge(original, x, y) && x in a.homes && y in a.homes ensures a.homes[x] != a.homes[y] {
      assert Edge(graph, rep[x], rep[y]);
    }
    assert ProperOn(original, a.homes);
    hide Quotient, ProperOn, Rejected;
    forall n | n in a.homes
      ensures if n in c.precolored then a.homes[n] == c.precolored[n] else MayUse(c, n, a.homes[n])
    {
      assert AllowedOf(c, n) == AllowedOf(c, rep[n]);
    }
  }

  lemma ExpandSpilled(c: RegisterConstraints, costs: CostModel, original: Adjacency, graph: Adjacency, rep: map<string, string>,
                        homes: map<string, string>, spilled: set<string>, a: Allocation, name: string)
    requires Quotient(original, graph, rep) && ClassesRespect(c, rep)
    requires Selected(c, costs, graph, homes, spilled) && homes.Keys + spilled == c.precolored.Keys + graph.Keys
    requires Inherits(original.Keys, rep, homes, a) && name in a.spilled && name in rep
    ensures SpillJustified(c, costs, original, rep, a, name)
  {
    var p := rep[name];
    assert p in graph && p in spilled;
    assert Rejected(c, costs, graph, homes, p);
    assert AllowedOf(c, name) == AllowedOf(c, p);
    forall r | MayUse(c, name, r) && r in UsedBy(graph, homes, p) ensures Blocked(original, rep, a, name, r) {
      UsedIsBlocked(original, graph, rep, homes, a, name, r);
    }
  }

  lemma UsedIsBlocked(original: Adjacency, graph: Adjacency, rep: map<string, string>, homes: map<string, string>, a: Allocation, name: string, r: string)
    requires Quotient(original, graph, rep) && Inherits(original.Keys, rep, homes, a)
    requires name in rep && rep[name] in graph && r in UsedBy(graph, homes, rep[name])
    ensures Blocked(original, rep, a, name, r)
  {
    var p := rep[name];
    var q :| q in graph[p] && q in homes && homes[q] == r;
    assert Edge(graph, p, q);
    var x, y :| Edge(original, x, y) && x in rep && y in rep && rep[x] == p && rep[y] == q;
    assert y in a.homes && a.homes[y] == r;
  }

  lemma ExpandEarned(c: RegisterConstraints, costs: CostModel, original: Adjacency, graph: Adjacency, rep: map<string, string>,
                     homes: map<string, string>, spilled: set<string>, a: Allocation, name: string)
    requires Quotient(original, graph, rep) && ClassesRespect(c, rep)
    requires Selected(c, costs, graph, homes, spilled)
    requires Inherits(original.Keys, rep, homes, a) && name in a.homes && name !in c.precolored
    ensures name in rep && HomeJustified(c, costs, original, rep, a, name)
  {
    var p := rep[name];
    assert p !in c.precolored && p in homes && p in graph && Earned(c, costs, graph, homes, p);
    assert AllowedOf(c, name) == AllowedOf(c, p) && a.homes[name] == homes[p];
    hide Quotient, ClassesRespect, Selected, Inherits, UsedBy, Blocked;
    forall r | MayUse(c, name, r) && SaveCost(costs, p, r) < SaveCost(costs, p, homes[p]) ensures Blocked(original, rep, a, name, r) {
      assert MayUse(c, p, r);
      UsedIsBlocked(original, graph, rep, homes, a, name, r);
    }
  }

  lemma ExpandJustified(c: RegisterConstraints, costs: CostModel, original: Adjacency, graph: Adjacency, rep: map<string, string>,
                        homes: map<string, string>, spilled: set<string>, a: Allocation)
    requires Quotient(original, graph, rep) && ClassesRespect(c, rep) && original.Keys == rep.Keys
    requires Selected(c, costs, graph, homes, spilled) && homes.Keys + spilled == c.precolored.Keys + graph.Keys
    requires Inherits(original.Keys, rep, homes, a)
    ensures Justified(c, costs, original, rep, a)
  {
    hide Quotient, ClassesRespect, Selected, Inherits, SpillJustified, HomeJustified;
    forall n | n in a.spilled ensures n in rep && SpillJustified(c, costs, original, rep, a, n) {
      InheritsNames(original.Keys, rep, homes, a, n);
      ExpandSpilled(c, costs, original, graph, rep, homes, spilled, a, n);
    }
    forall n | n in a.homes && n !in c.precolored ensures n in rep && HomeJustified(c, costs, original, rep, a, n) {
      ExpandEarned(c, costs, original, graph, rep, homes, spilled, a, n);
    }
  }

  /** Pinned values that do not clash before coalescing do not clash after it. */
  lemma PrecoloredStay(c: RegisterConstraints, original: Adjacency, graph: Adjacency, rep: map<string, string>)
    requires Quotient(original, graph, rep) && ClassesRespect(c, rep) && ProperOn(original, c.precolored)
    ensures ProperOn(graph, c.precolored)
  {
    forall p, q | Edge(graph, p, q) && p in c.precolored && q in c.precolored ensures c.precolored[p] != c.precolored[q] {
      var x, y :| Edge(original, x, y) && x in rep && y in rep && rep[x] == p && rep[y] == q;
      assert x == p && y == q;
    }
  }

  datatype Outcome = Allocated(allocation: Allocation) | PrecoloredClash

  predicate ClashFree(interference: Adjacency, precolored: map<string, string>) {
    forall n | n in precolored && n in interference ::
      forall m | m in interference[n] :: m != n && m in precolored ==> precolored[m] != precolored[n]
  }

  lemma ClashFreeIsProper(interference: Adjacency, precolored: map<string, string>)
    requires Simple(interference)
    ensures ClashFree(interference, precolored) <==> ProperOn(interference, precolored)
  {
    if ProperOn(interference, precolored) {
      forall n, m | n in precolored && n in interference && m in interference[n] && m != n && m in precolored
        ensures precolored[m] != precolored[n]
      {
        assert Edge(interference, n, m);
      }
    }
  }

  lemma NothingSpilled(original: Adjacency, rep: map<string, string>, graph: Adjacency, homes: map<string, string>, a: Allocation)
    requires Quotient(original, graph, rep) && Inherits(original.Keys, rep, homes, a) && graph.Keys <= homes.Keys
    ensures a.spilled == {}
  {
    assert forall n :: n in rep ==> rep[n] in graph;
  }

  /** One run of the allocator: the visits of coalescing, the merged graph and its
      classes, the stack, and the homes on the merged graph. */
  datatype Passage = Passage(visits: Visits, graph: Adjacency, rep: map<string, string>, stack: seq<string>, homes: map<string, string>)

  /** Every choice of the run is the one the inputs call for: which pairs are merged,
      what is pushed when, and what each popped value gets. */
  ghost predicate Chronicle(c: RegisterConstraints, costs: CostModel, interference: Adjacency, moves: set<Move>, run: Passage) {
    && History(c, interference, moves, run.visits)
    && run.visits.stages[|run.visits.order|] == Stage(run.graph, run.rep)
    && Ordered(run.graph, run.graph.Keys - c.precolored.Keys, |c.pool|, costs, run.stack)
    && DecidedFrom(c, costs, run.graph, run.stack, run.homes, 0)
  }

  ghost predicate Justified(c: RegisterConstraints, costs: CostModel, interference: Adjacency, rep: map<string, string>, a: Allocation) {
    && (forall n :: n in a.spilled ==> n in rep && SpillJustified(c, costs, interference, rep, a, n))
    && (forall n :: n in a.homes && n !in c.precolored ==> n in rep && HomeJustified(c, costs, interference, rep, a, n))
  }

  /** Colours an interference graph.  It fails exactly when two interfering values
      are pinned to one register. */
  method Color(c: RegisterConstraints, costs: CostModel, interference: Adjacency, moves: set<Move>) returns (r: Outcome, ghost run: Passage)
    requires Simple(interference)
    requires forall m :: m in moves ==> |m| == 2 && m <= interference.Keys
    ensures r.PrecoloredClash? <==> !ProperOn(interference, c.precolored)
    ensures r.Allocated? ==> Proper(c, interference, r.allocation)
    ensures r.Allocated? ==> Justified(c, costs, interference, run.rep, r.allocation)
    ensures r.Allocated? ==> Chronicle(c, costs, interference, moves, run)
    ensures r.Allocated? ==> run.rep.Keys == interference.Keys && Inherits(interference.Keys, run.rep, run.homes, r.allocation)
    ensures r.Allocated? ==> JoinedByMoves(moves, run.rep)
    ensures r.Allocated? && Free(c, costs) && Sparse(interference, |c.pool|) ==> r.allocation.spilled == {}
  {
    ClashFreeIsProper(interference, c.precolored);
    if !ClashFree(interference, c.precolored) {
      run := Passage(Visits([], []), map[], map[], [], map[]);
      return PrecoloredClash, run;
    }
    hide *;
    ghost var rep, rank, visits;
    var graph, alias;
    graph, alias, rep, rank, visits := ConservativeCoalesce(c, interference, moves);
    CoalescedGives(c, interference, graph, alias, rep, rank);
    QuotientFacts(interference, graph, rep, "");
    PrecoloredStay(c, interference, graph, rep);
    var stack := Simplify(graph, graph.Keys - c.precolored.Keys, |c.pool|, costs);
    var homes, spilled := Select(c, costs, graph, stack);
    var a := Expand(interference, alias, homes, rep, rank);
    ExpandProper(c, costs, interference, graph, rep, homes, spilled, a);
    ExpandJustified(c, costs, interference, graph, rep, homes, spilled, a);
    if Free(c, costs) && Sparse(interference, |c.pool|) {
      NothingPinned(c, costs);
      NothingSpilled(interference, rep, graph, homes, a);
    }
    run := Passage(visits, graph, rep, stack, homes);
    ChronicleIs(c, costs, interference, moves, run);
    r := Allocated(a);
  }

  lemma ChronicleIs(c: RegisterConstraints, costs: CostModel, interference: Adjacency, moves: set<Move>, run: Passage)
    requires History(c, interference, moves, run.visits)
    requires run.visits.stages[|run.visits.order|] == Stage(run.graph, run.rep)
    requires Ordered(run.graph, run.graph.Keys - c.precolored.Keys, |c.pool|, costs, run.stack)
    requires DecidedFrom(c, costs, run.graph, run.stack, run.homes, 0)
    ensures Chronicle(c, costs, interference, moves, run)
  {
  }

  lemma CoalescedGives(c: RegisterConstraints, original: Adjacency, graph: Adjacency, alias: map<string, string>,
                       rep: map<string, string>, rank: map<string, int>)
    requires Coalesced(c, original, graph, alias, rep, rank)
    ensures Quotient(original, graph, rep) && Representatives(alias, rep) && Ranked(alias, rank) && ClassesRespect(c, rep)
    ensures Sparse(original, |c.pool|) ==> Sparse(graph, |c.pool|)
  {
  }

  lemma NothingPinned(c: RegisterConstraints, costs: CostModel)
    requires Free(c, costs)
    ensures c.precolored == map[]
  {
  }

  lemma InheritsNames(names: set<string>, rep: map<string, string>, homes: map<string, string>, a: Allocation, n: string)
    requires names <= rep.Keys && Inherits(names, rep, homes, a) && n in a.spilled
    ensures n in rep
  {
  }
}
