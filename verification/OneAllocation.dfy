/** The allocator has one answer: what its contract says of a run leaves no choice
    open (cc/regalloc.py:154-193, 391-460). */
module OneAllocation {
  import opened Common
  import opened IR
  import opened NameOrder
  import opened Interference
  import opened Coalescing
  import opened Coloring

  // ----- Coalescing -----

  /** What is listed at `i` in one listing is not listed before `i` in the other. */
  lemma ListedBehind(moves: set<Move>, a: seq<Pair>, b: seq<Pair>, i: int)
    requires Listing(moves, a) && Listing(moves, b) && 0 <= i < |a| && i <= |b| && a[..i] == b[..i]
    ensures i < |b| && (b[i] == a[i] || Earlier(b[i], a[i]))
  {
    hide Earlier, InOrder, Sides;
    var j :| 0 <= j < |b| && Sides(b[j]) == Sides(a[i]);
    SidesAreOne(b[j], a[i]);
    if j < i {
      assert a[..i][j] == b[..i][j];
      EarlierOneWay(a[j], a[i]);
    }
  }

  /** The moves can be listed in one way. */
  lemma {:induction false} ListingIsOne(moves: set<Move>, a: seq<Pair>, b: seq<Pair>, i: int)
    requires Listing(moves, a) && Listing(moves, b) && 0 <= i <= |a| && i <= |b| && a[..i] == b[..i]
    ensures a == b
    decreases |a| - i
  {
    hide Listing;
    if i < |a| {
      ListedBehind(moves, a, b, i);
      ListedBehind(moves, b, a, i);
      if a[i] != b[i] { EarlierOneWay(a[i], b[i]); }
      assert a[..i + 1] == a[..i] + [a[i]] && b[..i + 1] == b[..i] + [b[i]];
      ListingIsOne(moves, a, b, i + 1);
    } else if i < |b| {
      ListedBehind(moves, b, a, i);
    } else {
      assert a[..i] == a && b[..i] == b;
    }
  }

  /** Merging two nodes has one result. */
  lemma ContractedIsOne(before: Adjacency, g: Adjacency, h: Adjacency, a: string, b: string)
    requires Contracted(before, g, a, b) && Contracted(before, h, a, b)
    ensures g == h
  {
    forall x | x in g ensures g[x] == h[x] {
      forall y ensures y in g[x] <==> y in h[x] { assert Edge(g, x, y) == Edge(h, x, y); }
    }
  }

  lemma {:induction false} StagesAreOne(c: RegisterConstraints, original: Adjacency, moves: set<Move>, v: Visits, w: Visits, i: int)
    requires History(c, original, moves, v) && History(c, original, moves, w) && v.order == w.order && 0 <= i <= |v.order|
    ensures v.stages[i] == w.stages[i]
  {
    if i > 0 {
      StagesAreOne(c, original, moves, v, w, i - 1);
      assert Step(c, v, i - 1) && Step(c, w, i - 1);
      var s, pair := v.stages[i - 1], v.order[i - 1];
      var a, b := s.rep[pair.first], s.rep[pair.second];
      hide Refused, Contracted;
      if a != b && !Refused(c, s.graph, a, b) {
        ContractedIsOne(s.graph, v.stages[i].graph, w.stages[i].graph, a, b);
      }
    }
  }

  // ----- Simplification -----

  lemma VictimIsOne(costs: CostModel, graph: Adjacency, remaining: set<string>, a: string, b: string)
    requires remaining <= graph.Keys && Victim(costs, graph, remaining, a) && Victim(costs, graph, remaining, b)
    ensures a == b
  {
    if a != b {
      assert Weaker(costs, graph, remaining, a, b) && Weaker(costs, graph, remaining, b, a);
      if Before(a, b) { BeforeOneWay(a, b); }
    }
  }

  /** The nodes go on the stack in one order. */
  lemma {:induction false} OrderedIsOne(graph: Adjacency, remaining: set<string>, k: int, costs: CostModel, a: seq<string>, b: seq<string>)
    requires remaining <= graph.Keys && Ordered(graph, remaining, k, costs, a) && Ordered(graph, remaining, k, costs, b)
    ensures a == b
    decreases |a|
  {
    hide Low, Victim, Lists;
    if a != [] && b != [] {
      var low := Low(graph, remaining, k);
      if low == {} {
        VictimIsOne(costs, graph, remaining, a[0], b[0]);
        OrderedIsOne(graph, remaining - {a[0]}, k, costs, a[1..], b[1..]);
        assert a == [a[0]] + a[1..] && b == [b[0]] + b[1..];
      } else {
        ListsIsOne(low, a[..|low|], b[..|low|]);
        assert |low| > 0;
        OrderedIsOne(graph, remaining - low, k, costs, a[|low|..], b[|low|..]);
        assert a == a[..|low|] + a[|low|..] && b == b[..|low|] + b[|low|..];
      }
    }
  }

  // ----- Selection -----

  /** The same colours around a value decide the same for it. */
  lemma DecidedIsOne(c: RegisterConstraints, costs: CostModel, graph: Adjacency, homes: map<string, string>, name: string, a: Option<string>, b: Option<string>)
    requires name in graph && Decided(c, costs, graph, homes, name, a) && Decided(c, costs, graph, homes, name, b)
    ensures a == b
  {
    hide MayUse, SaveCost, UsedBy;
    var used := UsedBy(graph, homes, name);
    if a.Some? && b.Some? {
      var i :| BestAt(c, costs, name, used, a.value, i);
      var j :| BestAt(c, costs, name, used, b.value, j);
    }
  }

  lemma GivenNext(c: RegisterConstraints, stack: seq<string>, g: map<string, string>, h: map<string, string>, i: int)
    requires 0 <= i < |stack| && Given(c, g, Elements(stack[i + 1..])) == Given(c, h, Elements(stack[i + 1..]))
    requires HomeOf(g, stack[i]) == HomeOf(h, stack[i])
    ensures Given(c, g, Elements(stack[i..])) == Given(c, h, Elements(stack[i..]))
  {
    assert stack[i..] == [stack[i]] + stack[i + 1..];
    var more := Elements(stack[i + 1..]);
    assert Elements(stack[i..]) == {stack[i]} + more;
    var gs, hs := Given(c, g, more), Given(c, h, more);
    forall n | n in c.precolored || n in more ensures HomeOf(g, n) == HomeOf(h, n) {
      assert (n in g) == (n in gs) && (n in h) == (n in hs);
      assert n in gs ==> gs[n] == g[n] && hs[n] == h[n];
    }
    forall n ensures n in Given(c, g, Elements(stack[i..])) <==> n in Given(c, h, Elements(stack[i..])) {
      assert HomeOf(g, stack[i]) == HomeOf(h, stack[i]);
    }
  }

  lemma {:induction false} HomesAreOne(c: RegisterConstraints, costs: CostModel, graph: Adjacency, stack: seq<string>,
                                       g: map<string, string>, h: map<string, string>, i: int)
    requires DecidedFrom(c, costs, graph, stack, g, 0) && DecidedFrom(c, costs, graph, stack, h, 0) && 0 <= i <= |stack|
    ensures Given(c, g, Elements(stack[i..])) == Given(c, h, Elements(stack[i..]))
    decreases |stack| - i
  {
    hide Decided;
    if i < |stack| {
      HomesAreOne(c, costs, graph, stack, g, h, i + 1);
      assert DecidedAt(c, costs, graph, stack, g, i) && DecidedAt(c, costs, graph, stack, h, i);
      DecidedIsOne(c, costs, graph, Given(c, g, Elements(stack[i + 1..])), stack[i], HomeOf(g, stack[i]), HomeOf(h, stack[i]));
      GivenNext(c, stack, g, h, i);
    }
  }

  // ----- The whole run -----

  lemma PassageIsOne(c: RegisterConstraints, costs: CostModel, interference: Adjacency, moves: set<Move>, p: Passage, q: Passage)
    requires Chronicle(c, costs, interference, moves, p) && Chronicle(c, costs, interference, moves, q)
    ensures p.graph == q.graph && p.rep == q.rep && p.stack == q.stack && p.homes == q.homes
  {
    hide Listing, Step, Ordered, DecidedAt;
    ListingIsOne(moves, p.visits.order, q.visits.order, 0);
    StagesAreOne(c, interference, moves, p.visits, q.visits, |p.visits.order|);
    OrderedIsOne(p.graph, p.graph.Keys - c.precolored.Keys, |c.pool|, costs, p.stack, q.stack);
    HomesAreOne(c, costs, p.graph, p.stack, p.homes, q.homes, 0);
    GivenIsAll(c, p.homes, Elements(p.stack[0..]));
    GivenIsAll(c, q.homes, Elements(q.stack[0..]));
  }

  /** Graph, moves, constraints and costs determine the allocation: no two runs that
      Color describes end with different homes or spill different values. */
  lemma AllocationIsOne(c: RegisterConstraints, costs: CostModel, interference: Adjacency, moves: set<Move>, p: Passage, q: Passage, a: Allocation, b: Allocation)
    requires Chronicle(c, costs, interference, moves, p) && Chronicle(c, costs, interference, moves, q)
    requires p.rep.Keys == interference.Keys && q.rep.Keys == interference.Keys
    requires Inherits(interference.Keys, p.rep, p.homes, a) && Inherits(interference.Keys, q.rep, q.homes, b)
    ensures a == b
  {
    PassageIsOne(c, costs, interference, moves, p, q);
    hide Chronicle;
    forall n | n in interference ensures n in a.homes <==> n in b.homes { }
    assert a.homes.Keys == b.homes.Keys;
    assert a.homes == b.homes;
    assert a.spilled == interference.Keys - a.homes.Keys && b.spilled == interference.Keys - b.homes.Keys;
  }
}
