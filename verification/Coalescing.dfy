/** Briggs conservative coalescing (cc/regalloc.py:154-193, 271-275): merging
    copy-related values that do not interfere. */
module Coalescing {
  import opened Common
  import opened IR
  import opened NameOrder
  import opened Interference

  /** `pool` is the ordered list of registers; `allowed` limits a value to some of
      them; `precolored` pins a value to one register. */
  datatype RegisterConstraints = RegisterConstraints(
    allowed: map<string, set<string>>, pool: seq<string>, precolored: map<string, string>)

  function AllowedOf(c: RegisterConstraints, name: string): Option<set<string>> {
    if name in c.allowed then Some(c.allowed[name]) else None
  }

  /** Adjacency that is symmetric, irreflexive and closed. */
  ghost predicate Simple(graph: Adjacency) {
    forall a, b :: Edge(graph, a, b) ==> a != b && b in graph && Edge(graph, b, a)
  }

  // ----- Aliases -----

  /** Following `alias` always leads upwards, so every chain ends. */
  ghost predicate Ranked(alias: map<string, string>, rank: map<string, int>) {
    && rank.Keys == alias.Keys
    && forall n :: n in alias ==> 0 <= rank[n] < |alias| && (alias[n] in alias ==> rank[n] < rank[alias[n]])
  }

  /** `rep` gives the end of every chain. */
  ghost predicate Representatives(alias: map<string, string>, rep: map<string, string>) {
    && (forall n :: n in rep && n !in alias ==> rep[n] == n)
    && (forall n :: n in rep && n in alias ==> alias[n] in rep && rep[n] == rep[alias[n]])
  }

  method ResolveAlias(alias: map<string, string>, start: string, ghost rank: map<string, int>, ghost rep: map<string, string>) returns (name: string)
    requires Ranked(alias, rank) && Representatives(alias, rep) && start in rep
    ensures name == rep[start] && name !in alias
  {
    name := start;
    while name in alias
      invariant name in rep && rep[name] == rep[start]
      decreases if name in alias then |alias| - rank[name] else 0
    {
      name := alias[name];
    }
  }

  // ----- Merging two nodes -----

  /** `after` is `before` with node `b` merged into node `a`. */
  ghost predicate Contracted(before: Adjacency, after: Adjacency, a: string, b: string) {
    && after.Keys == before.Keys - {b}
    && forall x, y :: Edge(after, x, y) <==>
         x != b && y != b && (Edge(before, x, y) || (x == a && Edge(before, b, y)) || (y == a && Edge(before, x, b)))
  }

  /** The graph once the neighbours in `moved` have been handed from `b` to `a`. */
  ghost predicate HandedOver(before: Adjacency, now: Adjacency, a: string, b: string, moved: set<string>) {
    && now.Keys == before.Keys
    && forall x, y :: Edge(now, x, y) <==>
         || (Edge(before, x, y) && !(x in moved && y == b))
         || (x == a && y in moved)
         || (x in moved && y == a)
  }

  function HandOver(graph: Adjacency, a: string, b: string, n: string): Adjacency
    requires a in graph && n in graph
  {
    var one := graph[n := graph[n] - {b} + {a}];
    one[a := one[a] + {n}]
  }

  lemma HandOverStep(before: Adjacency, now: Adjacency, a: string, b: string, moved: set<string>, n: string)
    requires HandedOver(before, now, a, b, moved) && a in before && n in before && n != a && n != b && a != b && b !in moved
    ensures HandedOver(before, HandOver(now, a, b, n), a, b, moved + {n})
  {
    var next := HandOver(now, a, b, n);
    forall x, y
      ensures Edge(next, x, y) <==> (Edge(now, x, y) && !(x == n && y == b)) || (x == a && y == n) || (x == n && y == a)
    {
    }
  }

  method Contract(graph0: Adjacency, a: string, b: string) returns (graph: Adjacency)
    requires Simple(graph0) && a in graph0 && b in graph0 && a != b && !Edge(graph0, a, b)
    ensures Contracted(graph0, graph, a, b)
  {
    graph := graph0;
    var left := graph0[b];
    assert forall n :: n in left ==> Edge(graph0, b, n);
    while left != {}
      invariant left <= graph0[b] && HandedOver(graph0, graph, a, b, graph0[b] - left)
    {
      var n :| n in left;
      HandOverStep(graph0, graph, a, b, graph0[b] - left, n);
      assert graph0[b] - left + {n} == graph0[b] - (left - {n});
      graph := HandOver(graph, a, b, n);
      left := left - {n};
    }
    assert graph0[b] - left == graph0[b];
    var trimmed := graph[a := graph[a] - {a}];
    ContractDone(graph0, graph, trimmed - {b}, a, b);
    graph := trimmed - {b};
  }

  lemma ContractDone(before: Adjacency, now: Adjacency, after: Adjacency, a: string, b: string)
    requires Simple(before) && a in before && b in before && a != b && !Edge(before, a, b)
    requires HandedOver(before, now, a, b, before[b])
    requires after == now[a := now[a] - {a}] - {b}
    ensures Contracted(before, after, a, b)
  {
    forall x, y
      ensures Edge(after, x, y) <==> Edge(now, x, y) && x != b && !(x == a && y == a)
    {
    }
    forall n ensures n in before[b] <==> Edge(before, b, n) { }
    hide Edge;
  }

  // ----- The state of coalescing -----

  ghost predicate Joined(graph: Adjacency, rep: map<string, string>, p: string, q: string) {
    exists a, b :: Edge(graph, a, b) && a in rep && b in rep && rep[a] == p && rep[b] == q
  }

  /** `graph` is the quotient of `original` by the classes that `rep` names. */
  ghost predicate Quotient(original: Adjacency, graph: Adjacency, rep: map<string, string>) {
    && Simple(original) && Simple(graph) && rep.Keys == original.Keys && graph.Keys <= original.Keys
    && (forall n :: n in rep ==> rep[n] in graph)
    && (forall n :: n in graph ==> rep[n] == n)
    && (forall a, b :: Edge(original, a, b) ==> Edge(graph, rep[a], rep[b]))
    && (forall p, q :: Edge(graph, p, q) ==> Joined(original, rep, p, q))
  }

  /** Merged values agree on where they may live, and pinned values stay alone. */
  ghost predicate ClassesRespect(c: RegisterConstraints, rep: map<string, string>) {
    && (forall n :: n in rep ==> AllowedOf(c, n) == AllowedOf(c, rep[n]))
    && (forall n :: n in rep && (n in c.precolored || rep[n] in c.precolored) ==> rep[n] == n)
  }

  function Redirected(rep: map<string, string>, a: string, b: string): map<string, string> {
    map n | n in rep :: if rep[n] == b then a else rep[n]
  }

  lemma ContractSimple(before: Adjacency, after: Adjacency, a: string, b: string)
    requires Simple(before) && a in before && b in before && a != b && !Edge(before, a, b) && Contracted(before, after, a, b)
    ensures Simple(after)
  {
    forall x, y | Edge(after, x, y) ensures x != y && y in after && Edge(after, y, x) {
      assert Edge(before, a, b) == Edge(before, b, a);
    }
  }

  lemma JoinedAfter(original: Adjacency, before: Adjacency, after: Adjacency, rep: map<string, string>, a: string, b: string, p: string, q: string)
    requires Quotient(original, before, rep) && Contracted(before, after, a, b) && Edge(after, p, q)
    ensures Joined(original, Redirected(rep, a, b), p, q)
  {
    var p', q' := p, q;
    if !Edge(before, p, q) {
      if p == a && Edge(before, b, q) { p' := b; } else { q' := b; }
    }
    assert Edge(before, p', q');
    var x, y :| Edge(original, x, y) && x in rep && y in rep && rep[x] == p' && rep[y] == q';
    assert Redirected(rep, a, b)[x] == p && Redirected(rep, a, b)[y] == q;
  }

  lemma EdgeAfter(original: Adjacency, before: Adjacency, after: Adjacency, rep: map<string, string>, a: string, b: string, x: string, y: string)
    requires Quotient(original, before, rep) && Contracted(before, after, a, b)
    requires a in before && b in before && a != b && !Edge(before, a, b) && Edge(original, x, y)
    ensures x in rep && y in rep && Edge(after, Redirected(rep, a, b)[x], Redirected(rep, a, b)[y])
  {
    assert x in original && y in original;
    assert Edge(before, rep[x], rep[y]) && Edge(before, rep[y], rep[x]);
    hide Quotient, Edge;
  }

  lemma MergeKeepsQuotient(original: Adjacency, before: Adjacency, after: Adjacency, rep: map<string, string>, a: string, b: string)
    requires Quotient(original, before, rep) && Contracted(before, after, a, b)
    requires a in before && b in before && a != b && !Edge(before, a, b)
    ensures Quotient(original, after, Redirected(rep, a, b))
  {
    ContractSimple(before, after, a, b);
    hide Edge, Simple;
    var next := Redirected(rep, a, b);
    forall x, y | Edge(original, x, y) ensures Edge(after, next[x], next[y]) {
      EdgeAfter(original, before, after, rep, a, b, x, y);
    }
    forall p, q | Edge(after, p, q) ensures Joined(original, next, p, q) {
      JoinedAfter(original, before, after, rep, a, b, p, q);
    }
    hide Joined;
  }

  // ----- Why a merge cannot cause a spill -----

  /** Every nonempty set of values has a member with fewer than `k` neighbours in
      the set, so simplification can always go on. */
  ghost predicate Sparse(graph: Adjacency, k: int) {
    forall s: set<string> :: s != {} && s <= graph.Keys ==> HasLow(graph, s, k)
  }

  ghost predicate HasLow(graph: Adjacency, s: set<string>, k: int) {
    exists v :: v in s && v in graph && |graph[v] * s| < k
  }

  /** Neighbours of the merged node that have at least `k` neighbours. */
  function Significant(graph: Adjacency, names: set<string>, k: int): set<string>
    requires names <= graph.Keys
  {
    set n | n in names && |graph[n]| >= k
  }

  lemma Smaller(a: set<string>, b: set<string>)
    requires a <= b
    ensures |a| <= |b|
  {
    assert b == a + (b - a);
  }

  /** A node other than the merged one does not gain neighbours. */
  lemma ContractDegree(before: Adjacency, after: Adjacency, a: string, b: string, n: string)
    requires Simple(before) && Contracted(before, after, a, b) && a in before && b in before && a != b && !Edge(before, a, b)
    requires n in after && n != a
    ensures |after[n]| <= |before[n]|
  {
    forall y ensures y in after[n] <==> Edge(after, n, y) { }
    forall y ensures y in before[n] <==> Edge(before, n, y) { }
    if Edge(before, n, b) {
      assert after[n] == before[n] - {b} + {a};
      assert |before[n]| == |before[n] - {b}| + 1;
    } else {
      assert after[n] == before[n];
    }
  }

  /** A set without the merged node has the neighbours it had. */
  lemma LowWithout(before: Adjacency, after: Adjacency, a: string, b: string, s: set<string>, k: int)
    requires Contracted(before, after, a, b) && a in before && b in before && a != b
    requires s <= after.Keys && a !in s && HasLow(before, s, k)
    ensures HasLow(after, s, k)
  {
    var v :| v in s && v in before && |before[v] * s| < k;
    forall y ensures y in after[v] * s <==> y in before[v] * s {
      assert Edge(after, v, y) == (y in after[v]) && Edge(before, v, y) == (y in before[v]);
    }
    assert after[v] * s == before[v] * s;
  }

  /** A set with the merged node: either the node itself has few neighbours there,
      or one of them is a neighbour of low degree. */
  lemma LowWith(before: Adjacency, after: Adjacency, a: string, b: string, s: set<string>, k: int)
    requires Simple(before) && Contracted(before, after, a, b) && a in before && b in before && a != b && !Edge(before, a, b)
    requires forall y :: y in before[a] + before[b] ==> y in before
    requires |Significant(before, before[a] + before[b], k)| < k
    requires s <= after.Keys && a in s
    ensures HasLow(after, s, k)
  {
    if |after[a] * s| >= k {
      var big := Significant(before, before[a] + before[b], k);
      if after[a] * s <= big {
        Smaller(after[a] * s, big);
      }
      var n :| n in after[a] * s && n !in big;
      assert Edge(after, a, n);
      assert n in before[a] + before[b] by {
        assert Edge(before, a, n) || Edge(before, b, n);
      }
      LowNeighbour(before, after, a, b, s, k, n);
    }
  }

  lemma LowNeighbour(before: Adjacency, after: Adjacency, a: string, b: string, s: set<string>, k: int, n: string)
    requires Simple(before) && Contracted(before, after, a, b) && a in before && b in before && a != b && !Edge(before, a, b)
    requires n in s && s <= after.Keys && n != a && n in before && |before[n]| < k
    ensures HasLow(after, s, k)
  {
    ContractDegree(before, after, a, b, n);
    Smaller(after[n] * s, after[n]);
    assert |after[n] * s| < k;
  }

  /** The Briggs test: with fewer than `k` significant neighbours, a merge keeps
      the graph colourable by simplification alone. */
  lemma MergeKeepsSparse(before: Adjacency, after: Adjacency, a: string, b: string, k: int)
    requires Simple(before) && Contracted(before, after, a, b) && a in before && b in before && a != b && !Edge(before, a, b)
    requires forall y :: y in before[a] + before[b] ==> y in before
    requires |Significant(before, before[a] + before[b], k)| < k
    requires Sparse(before, k)
    ensures Sparse(after, k)
  {
    forall s: set<string> | s != {} && s <= after.Keys ensures HasLow(after, s, k) {
      if a in s {
        LowWith(before, after, a, b, s, k);
      } else {
        assert HasLow(before, s, k);
        LowWithout(before, after, a, b, s, k);
      }
    }
  }

  // ----- The pass -----

  /** What holds after every merge. */
  ghost predicate Coalesced(c: RegisterConstraints, original: Adjacency, graph: Adjacency, alias: map<string, string>,
                            rep: map<string, string>, rank: map<string, int>) {
    && Quotient(original, graph, rep)
    && graph.Keys == original.Keys - alias.Keys
    && Representatives(alias, rep) && Ranked(alias, rank) && ClassesRespect(c, rep)
    && (Sparse(original, |c.pool|) ==> Sparse(graph, |c.pool|))
  }

  lemma AliasGrows(alias: map<string, string>, rep: map<string, string>, rank: map<string, int>, a: string, b: string)
    requires Representatives(alias, rep) && Ranked(alias, rank)
    requires a in rep && b in rep && a !in alias && b !in alias && a != b
    ensures Representatives(alias[b := a], Redirected(rep, a, b))
    ensures Ranked(alias[b := a], rank[b := |alias|])
  {
    assert |alias[b := a]| == |alias| + 1 by {
      assert alias[b := a].Keys == alias.Keys + {b};
    }
  }

  lemma ClassesGrow(c: RegisterConstraints, rep: map<string, string>, a: string, b: string)
    requires ClassesRespect(c, rep) && a in rep && b in rep && rep[a] == a && rep[b] == b
    requires a !in c.precolored && b !in c.precolored && AllowedOf(c, a) == AllowedOf(c, b)
    ensures ClassesRespect(c, Redirected(rep, a, b))
  {
  }

  lemma MergeKeeps(c: RegisterConstraints, original: Adjacency, before: Adjacency, after: Adjacency, alias: map<string, string>,
                   rep: map<string, string>, rank: map<string, int>, a: string, b: string)
    requires Coalesced(c, original, before, alias, rep, rank)
    requires a in before && b in before && a != b && !Edge(before, a, b) && Contracted(before, after, a, b)
    requires forall y :: y in before[a] + before[b] ==> y in before
    requires |Significant(before, before[a] + before[b], |c.pool|)| < |c.pool|
    requires a !in c.precolored && b !in c.precolored && AllowedOf(c, a) == AllowedOf(c, b)
    ensures Coalesced(c, original, after, alias[b := a], Redirected(rep, a, b), rank[b := |alias|])
  {
    hide Quotient, Representatives, Ranked, ClassesRespect, Sparse, Significant, Edge, Simple, Contracted;
    QuotientFacts(original, before, rep, a);
    QuotientFacts(original, before, rep, b);
    AliasGrows(alias, rep, rank, a, b);
    ClassesGrow(c, rep, a, b);
    MergeKeepsQuotient(original, before, after, rep, a, b);
    if Sparse(original, |c.pool|) {
      MergeKeepsSparse(before, after, a, b, |c.pool|);
    }
    assert alias[b := a].Keys == alias.Keys + {b};
    assert after.Keys == before.Keys - {b} by { ContractedKeys(before, after, a, b); }
  }

  lemma ContractedKeys(before: Adjacency, after: Adjacency, a: string, b: string)
    requires Contracted(before, after, a, b)
    ensures after.Keys == before.Keys - {b}
  {
  }

  lemma QuotientFacts(original: Adjacency, graph: Adjacency, rep: map<string, string>, n: string)
    requires Quotient(original, graph, rep)
    ensures Simple(graph) && rep.Keys == original.Keys
    ensures n in graph ==> n in rep && rep[n] == n
    ensures n in original ==> rep[n] in graph
  {
  }

  lemma Identity(c: RegisterConstraints, original: Adjacency)
    requires Simple(original)
    ensures Coalesced(c, original, original, map[], map n | n in original :: n, map[])
  {
    var rep := map n | n in original :: n;
    forall p, q | Edge(original, p, q) ensures Joined(original, rep, p, q) {
      assert q in original;
      assert Edge(original, p, q) && rep[p] == p && rep[q] == q;
    }
  }

  // ----- The order of the visits -----

  /** The two values of a copy, the earlier name first. */
  datatype Pair = Pair(first: string, second: string)

  function Sides(p: Pair): Move { {p.first, p.second} }

  predicate InOrder(p: Pair) { Before(p.first, p.second) }

  predicate Earlier(p: Pair, q: Pair) {
    Before(p.first, q.first) || (p.first == q.first && Before(p.second, q.second))
  }

  lemma EarlierTotal(p: Pair, q: Pair)
    ensures p == q || Earlier(p, q) || Earlier(q, p)
  {
    BeforeTotal(p.first, q.first);
    BeforeTotal(p.second, q.second);
  }

  lemma EarlierTransitive(p: Pair, q: Pair, r: Pair)
    requires Earlier(p, q) && Earlier(q, r)
    ensures Earlier(p, r)
  {
    if Before(p.first, q.first) && Before(q.first, r.first) { BeforeTransitive(p.first, q.first, r.first); }
    if Before(p.second, q.second) && Before(q.second, r.second) { BeforeTransitive(p.second, q.second, r.second); }
  }

  lemma EarlierOneWay(p: Pair, q: Pair)
    requires Earlier(p, q)
    ensures p != q && !Earlier(q, p)
  {
    if Before(p.first, q.first) { BeforeOneWay(p.first, q.first); }
    if Before(p.second, q.second) { BeforeOneWay(p.second, q.second); }
  }

  /** A set of two names is the sides of one ordered pair. */
  lemma SidesAreOne(p: Pair, q: Pair)
    requires InOrder(p) && InOrder(q) && Sides(p) == Sides(q)
    ensures p == q
  {
    assert p.first in Sides(q) && p.second in Sides(q) && q.first in Sides(p) && q.second in Sides(p);
    BeforeOneWay(p.first, p.second);
    BeforeOneWay(q.first, q.second);
  }

  /** `order` has every move once, in dictionary order. */
  ghost predicate Listing(moves: set<Move>, order: seq<Pair>) {
    && (forall i :: 0 <= i < |order| ==> InOrder(order[i]) && Sides(order[i]) in moves)
    && (forall i, j :: 0 <= i < j < |order| ==> Earlier(order[i], order[j]))
    && (forall m :: m in moves ==> exists i :: 0 <= i < |order| && Sides(order[i]) == m)
  }

  ghost predicate AllEarlier(order: seq<Pair>, left: set<Move>) {
    forall i, q :: 0 <= i < |order| && InOrder(q) && Sides(q) in left ==> Earlier(order[i], q)
  }

  ghost predicate FirstOf(left: set<Move>, p: Pair) {
    InOrder(p) && Sides(p) in left && forall q :: InOrder(q) && Sides(q) in left && q != p ==> Earlier(p, q)
  }

  lemma ListingGrows(moves: set<Move>, left: set<Move>, order: seq<Pair>, p: Pair)
    requires left <= moves && Listing(moves - left, order) && AllEarlier(order, left) && FirstOf(left, p)
    ensures Listing(moves - (left - {Sides(p)}), order + [p]) && AllEarlier(order + [p], left - {Sides(p)})
  {
    hide Before, Sides, InOrder, Earlier;
    var all := order + [p];
    var done := moves - (left - {Sides(p)});
    forall m | m in done ensures exists i :: 0 <= i < |all| && Sides(all[i]) == m {
      if m == Sides(p) {
        assert Sides(all[|order|]) == m;
      } else {
        assert m in moves - left;
        var i :| 0 <= i < |order| && Sides(order[i]) == m;
        assert all[i] == order[i];
      }
    }
  }

  method Split(pair: Move) returns (p: Pair)
    requires |pair| == 2
    ensures InOrder(p) && Sides(p) == pair
  {
    assert pair != {};
    var a :| a in pair;
    assert |pair - {a}| == 1 && pair - {a} != {};
    var b :| b in pair - {a};
    BeforeTotal(a, b);
    p := if Before(a, b) then Pair(a, b) else Pair(b, a);
    assert |pair - {a} - {b}| == 0;
    assert pair == {a, b};
  }

  method FirstPair(left: set<Move>) returns (p: Pair)
    requires left != {} && forall m :: m in left ==> |m| == 2
    ensures FirstOf(left, p)
  {
    hide Before, Earlier;
    var m :| m in left;
    p := Split(m);
    var rest := left - {m};
    OnlyPair(m, p);
    assert left - rest == {m};
    while rest != {}
      invariant rest <= left && FirstOf(left - rest, p)
    {
      m :| m in rest;
      var q := Split(m);
      FirstOneMore(left - rest, p, q);
      assert left - (rest - {m}) == left - rest + {Sides(q)};
      if Earlier(q, p) { p := q; }
      rest := rest - {m};
    }
    assert left - rest == left;
  }

  lemma OnlyPair(m: Move, p: Pair)
    requires InOrder(p) && Sides(p) == m
    ensures FirstOf({m}, p)
  {
    forall q | InOrder(q) && Sides(q) in {m} ensures q == p { SidesAreOne(p, q); }
  }

  lemma FirstOneMore(left: set<Move>, p: Pair, q: Pair)
    requires FirstOf(left, p) && InOrder(q)
    ensures FirstOf(left + {Sides(q)}, if Earlier(q, p) then q else p)
  {
    hide Before, Earlier, InOrder, Sides;
    EarlierTotal(p, q);
    var least := if Earlier(q, p) then q else p;
    forall r | InOrder(r) && Sides(r) in left + {Sides(q)} && r != least ensures Earlier(least, r) {
      if Sides(r) == Sides(q) { SidesAreOne(r, q); }
      if Earlier(q, p) && r != p && r != q { EarlierTransitive(q, p, r); }
    }
  }

  // ----- The pass -----

  /** The merged graph and each value's representative between two visits. */
  datatype Stage = Stage(graph: Adjacency, rep: map<string, string>)

  /** Neighbours of `a` or `b` that have at least `k` neighbours themselves. */
  ghost function Crowd(graph: Adjacency, a: string, b: string, k: int): set<string> {
    set n | n in graph && (Edge(graph, a, n) || Edge(graph, b, n)) && |graph[n]| >= k
  }

  /** What speaks against merging `a` and `b`: they interfere, one is pinned, they
      are allowed different registers, or too many neighbours are crowded. */
  ghost predicate Refused(c: RegisterConstraints, graph: Adjacency, a: string, b: string) {
    || Edge(graph, a, b) || a in c.precolored || b in c.precolored
    || AllowedOf(c, a) != AllowedOf(c, b)
    || |Crowd(graph, a, b, |c.pool|)| >= |c.pool|
  }

  /** One visit merges the second representative into the first, unless the pair is
      in one class already or is refused. */
  ghost predicate Visited(c: RegisterConstraints, s: Stage, pair: Pair, t: Stage) {
    && pair.first in s.rep && pair.second in s.rep
    && var a, b := s.rep[pair.first], s.rep[pair.second];
       if a == b || Refused(c, s.graph, a, b) then t == s
       else Contracted(s.graph, t.graph, a, b) && t.rep == Redirected(s.rep, a, b)
  }

  /** The pairs in the order of their visits, and the stages around the visits. */
  datatype Visits = Visits(order: seq<Pair>, stages: seq<Stage>)

  ghost predicate Step(c: RegisterConstraints, v: Visits, i: int)
    requires 0 <= i < |v.order| && |v.stages| == |v.order| + 1
  {
    Visited(c, v.stages[i], v.order[i], v.stages[i + 1])
  }

  /** Every move is visited once, in dictionary order, from the graph as it was. */
  ghost predicate History(c: RegisterConstraints, original: Adjacency, moves: set<Move>, v: Visits) {
    && Listing(moves, v.order) && |v.stages| == |v.order| + 1
    && v.stages[0] == Stage(original, map n | n in original :: n)
    && forall i {:trigger Step(c, v, i)} :: 0 <= i < |v.order| ==> Step(c, v, i)
  }

  ghost predicate CrossedBy(rep: map<string, string>, names: set<string>, p: string, pair: Pair) {
    && pair.first in rep && pair.second in rep && rep[pair.first] == p && rep[pair.second] == p
    && (pair.first in names <==> pair.second !in names)
  }

  /** No set of names parts a class without cutting one of its moves: every class is
      joined by moves. */
  ghost predicate JoinedByMoves(moves: set<Move>, rep: map<string, string>) {
    forall names: set<string>, x, y :: x in names && y !in names && x in rep && y in rep && rep[x] == rep[y] ==>
      exists pair :: Sides(pair) in moves && CrossedBy(rep, names, rep[x], pair)
  }

  /** A class that is parted before the merge stays cut by the same move. */
  lemma ClassCrossed(moves: set<Move>, rep: map<string, string>, pair: Pair, names: set<string>, x: string, y: string)
    requires JoinedByMoves(moves, rep) && pair.first in rep && pair.second in rep
    requires x in names && y !in names && x in rep && y in rep && rep[x] == rep[y]
    ensures var next := Redirected(rep, rep[pair.first], rep[pair.second]);
            next[x] == next[y] && exists one :: Sides(one) in moves && CrossedBy(next, names, next[x], one)
  {
    hide Sides;
    var next := Redirected(rep, rep[pair.first], rep[pair.second]);
    var one :| Sides(one) in moves && CrossedBy(rep, names, rep[x], one);
    assert CrossedBy(next, names, next[x], one);
  }

  lemma MergeKeepsJoined(moves: set<Move>, rep: map<string, string>, pair: Pair)
    requires JoinedByMoves(moves, rep) && Sides(pair) in moves
    requires pair.first in rep && pair.second in rep
    ensures JoinedByMoves(moves, Redirected(rep, rep[pair.first], rep[pair.second]))
  {
    var a, b := rep[pair.first], rep[pair.second];
    var next := Redirected(rep, a, b);
    hide Sides;
    forall names: set<string>, x, y | x in names && y !in names && x in next && y in next && next[x] == next[y]
      ensures exists one :: Sides(one) in moves && CrossedBy(next, names, next[x], one)
    {
      if rep[x] == rep[y] {
        ClassCrossed(moves, rep, pair, names, x, y);
      } else if (pair.first in names) == (pair.second in names) {
        if pair.first in names {
          ClassCrossed(moves, rep, pair, names, if rep[y] == a then pair.first else pair.second, y);
        } else {
          ClassCrossed(moves, rep, pair, names, x, if rep[x] == a then pair.first else pair.second);
        }
      } else {
        assert CrossedBy(next, names, next[x], pair);
      }
    }
  }

  lemma RefusedIff(c: RegisterConstraints, graph: Adjacency, a: string, b: string)
    requires Simple(graph) && a in graph && b in graph
    ensures Mergeable(c, graph, a, b) <==> a != b && !Refused(c, graph, a, b)
  {
    assert Crowd(graph, a, b, |c.pool|) == Significant(graph, MergedNeighbours(graph, a, b), |c.pool|);
  }

  /** The history so far: the moves in `left` are still to be visited. */
  ghost predicate Underway(c: RegisterConstraints, original: Adjacency, moves: set<Move>, left: set<Move>, v: Visits, s: Stage) {
    && left <= moves && Listing(moves - left, v.order) && AllEarlier(v.order, left)
    && |v.stages| == |v.order| + 1 && v.stages[|v.order|] == s
    && v.stages[0] == Stage(original, map n | n in original :: n)
    && (forall i {:trigger Step(c, v, i)} :: 0 <= i < |v.order| ==> Step(c, v, i))
    && JoinedByMoves(moves, s.rep)
  }

  lemma Starts(c: RegisterConstraints, original: Adjacency, moves: set<Move>)
    ensures var s := Stage(original, map n | n in original :: n); Underway(c, original, moves, moves, Visits([], [s]), s)
  {
  }

  lemma VisitOne(c: RegisterConstraints, original: Adjacency, moves: set<Move>, left: set<Move>, v: Visits, s: Stage, p: Pair, t: Stage)
    requires Underway(c, original, moves, left, v, s) && FirstOf(left, p) && Visited(c, s, p, t)
    ensures Underway(c, original, moves, left - {Sides(p)}, Visits(v.order + [p], v.stages + [t]), t)
  {
    hide Listing, AllEarlier, FirstOf, JoinedByMoves, Step, Refused, Contracted;
    ListingGrows(moves, left, v.order, p);
    StepAdded(c, v, p, t);
    FirstPairFacts(left, p);
    if t != s { MergeKeepsJoined(moves, s.rep, p); }
  }

  lemma Ends(c: RegisterConstraints, original: Adjacency, moves: set<Move>, v: Visits, s: Stage)
    requires Underway(c, original, moves, {}, v, s)
    ensures History(c, original, moves, v) && v.stages[|v.order|] == s && JoinedByMoves(moves, s.rep)
  {
    assert moves - {} == moves;
  }

  lemma StepAdded(c: RegisterConstraints, v: Visits, p: Pair, t: Stage)
    requires |v.stages| == |v.order| + 1 && forall i {:trigger Step(c, v, i)} :: 0 <= i < |v.order| ==> Step(c, v, i)
    requires Visited(c, v.stages[|v.order|], p, t)
    ensures var w := Visits(v.order + [p], v.stages + [t]);
            forall i {:trigger Step(c, w, i)} :: 0 <= i < |w.order| ==> Step(c, w, i)
  {
    hide Visited;
    var w := Visits(v.order + [p], v.stages + [t]);
    forall i | 0 <= i < |w.order| ensures Step(c, w, i) {
      if i < |v.order| { assert Step(c, v, i); }
    }
  }

  lemma VisitedIs(c: RegisterConstraints, s: Stage, pair: Pair, t: Stage)
    requires Simple(s.graph) && pair.first in s.rep && pair.second in s.rep
    requires s.rep[pair.first] in s.graph && s.rep[pair.second] in s.graph
    requires var a, b := s.rep[pair.first], s.rep[pair.second];
             if Mergeable(c, s.graph, a, b) then Contracted(s.graph, t.graph, a, b) && t.rep == Redirected(s.rep, a, b) else t == s
    ensures Visited(c, s, pair, t)
  {
    RefusedIff(c, s.graph, s.rep[pair.first], s.rep[pair.second]);
    hide Mergeable, Refused, Contracted, Simple;
  }

  lemma CoalescedFacts(c: RegisterConstraints, original: Adjacency, graph: Adjacency, alias: map<string, string>,
                       rep: map<string, string>, rank: map<string, int>, pair: Pair)
    requires Coalesced(c, original, graph, alias, rep, rank) && Sides(pair) <= original.Keys
    ensures Simple(graph) && Representatives(alias, rep) && Ranked(alias, rank)
    ensures pair.first in rep && pair.second in rep && rep[pair.first] in graph && rep[pair.second] in graph
  {
    hide Simple, Representatives, Ranked;
    assert pair.first in Sides(pair) && pair.second in Sides(pair);
  }

  lemma MergeableFacts(c: RegisterConstraints, graph: Adjacency, a: string, b: string)
    requires Simple(graph) && a in graph && b in graph && Mergeable(c, graph, a, b)
    ensures a != b && !Edge(graph, a, b) && a !in c.precolored && b !in c.precolored && AllowedOf(c, a) == AllowedOf(c, b)
    ensures forall y :: y in graph[a] + graph[b] ==> y in graph
    ensures |Significant(graph, graph[a] + graph[b], |c.pool|)| < |c.pool|
  {
  }

  /** Merges copy-related values where the Briggs test allows it. */
  method ConservativeCoalesce(c: RegisterConstraints, interference: Adjacency, moves: set<Move>)
    returns (graph: Adjacency, alias: map<string, string>, ghost rep: map<string, string>, ghost rank: map<string, int>, ghost v: Visits)
    requires Simple(interference)
    requires forall m :: m in moves ==> |m| == 2 && m <= interference.Keys
    ensures Coalesced(c, interference, graph, alias, rep, rank)
    ensures History(c, interference, moves, v) && v.stages[|v.order|] == Stage(graph, rep)
    ensures JoinedByMoves(moves, rep)
  {
    graph, alias := interference, map[];
    rep, rank := map n | n in interference :: n, map[];
    v := Visits([], [Stage(graph, rep)]);
    Identity(c, interference);
    hide *;
    var left := moves;
    Starts(c, interference, moves);
    while left != {}
      invariant left <= moves && Coalesced(c, interference, graph, alias, rep, rank)
      invariant Underway(c, interference, moves, left, v, Stage(graph, rep))
    {
      var pair := FirstPair(left);
      FirstPairFacts(left, pair);
      CoalescedFacts(c, interference, graph, alias, rep, rank, pair);
      ghost var s, before := Stage(graph, rep), left;
      left := left - {Sides(pair)};
      var a := ResolveAlias(alias, pair.first, rank, rep);
      var b := ResolveAlias(alias, pair.second, rank, rep);
      if Mergeable(c, graph, a, b) {
        MergeableFacts(c, graph, a, b);
        graph := Contract(graph, a, b);
        MergeKeeps(c, interference, s.graph, graph, alias, rep, rank, a, b);
        alias, rep, rank := alias[b := a], Redirected(rep, a, b), rank[b := |alias|];
      }
      VisitedIs(c, s, pair, Stage(graph, rep));
      VisitOne(c, interference, moves, before, v, s, pair, Stage(graph, rep));
      v := Visits(v.order + [pair], v.stages + [Stage(graph, rep)]);
    }
    Ends(c, interference, moves, v, Stage(graph, rep));
  }

  lemma FirstPairFacts(left: set<Move>, p: Pair)
    requires FirstOf(left, p)
    ensures Sides(p) in left && p.first in Sides(p) && p.second in Sides(p)
  {
  }

  /** The tests of cc/regalloc.py:175-184, in order. */
  predicate Mergeable(c: RegisterConstraints, graph: Adjacency, a: string, b: string)
    requires Simple(graph) && a in graph && b in graph
  {
    && a != b && !Edge(graph, a, b)
    && a !in c.precolored && b !in c.precolored
    && AllowedOf(c, a) == AllowedOf(c, b)
    && |Significant(graph, MergedNeighbours(graph, a, b), |c.pool|)| < |c.pool|
  }

  function MergedNeighbours(graph: Adjacency, a: string, b: string): (r: set<string>)
    requires Simple(graph) && a in graph && b in graph
    ensures r <= graph.Keys
  {
    assert forall y :: y in graph[a] ==> Edge(graph, a, y);
    assert forall y :: y in graph[b] ==> Edge(graph, b, y);
    graph[a] + graph[b]
  }

  // ----- What the history says of a pair left apart -----

  /** Classes only grow. */
  lemma {:induction false} MergedStays(c: RegisterConstraints, v: Visits, i: int, j: int, x: string, y: string)
    requires |v.stages| == |v.order| + 1 && forall k {:trigger Step(c, v, k)} :: 0 <= k < |v.order| ==> Step(c, v, k)
    requires 0 <= i <= j <= |v.order|
    requires x in v.stages[i].rep && y in v.stages[i].rep && v.stages[i].rep[x] == v.stages[i].rep[y]
    ensures x in v.stages[j].rep && y in v.stages[j].rep && v.stages[j].rep[x] == v.stages[j].rep[y]
    decreases j - i
  {
    if i < j {
      assert Step(c, v, i);
      MergedStays(c, v, i + 1, j, x, y);
    }
  }

  /** A copy whose sides are in different classes in the end was refused by a test
      when it was visited. */
  lemma LeftApart(c: RegisterConstraints, original: Adjacency, moves: set<Move>, v: Visits, p: Pair)
    requires History(c, original, moves, v) && InOrder(p) && Sides(p) in moves
    requires var rep := v.stages[|v.order|].rep; !(p.first in rep && p.second in rep && rep[p.first] == rep[p.second])
    ensures exists i :: 0 <= i < |v.order| && v.order[i] == p && p.first in v.stages[i].rep && p.second in v.stages[i].rep
              && Refused(c, v.stages[i].graph, v.stages[i].rep[p.first], v.stages[i].rep[p.second])
  {
    var i :| 0 <= i < |v.order| && Sides(v.order[i]) == Sides(p);
    SidesAreOne(v.order[i], p);
    assert Step(c, v, i);
    hide Refused, Sides, InOrder, Contracted;
    var s := v.stages[i];
    var a, b := s.rep[p.first], s.rep[p.second];
    if !Refused(c, s.graph, a, b) {
      MergedStays(c, v, i + 1, |v.order|, p.first, p.second);
    }
  }
}
