/** Immediate dominators by the Cooper-Harvey-Kennedy iteration
    (cc/cfg.py:146-182, 287-316): exact, and it always ends. */
module Dominators {
  import opened Cfg
  import opened Dominance

  // ----- Postorder numbers -----

  ghost predicate HasForward(g: Graph, po: map<int, int>, b: int)
    requires b in po
  {
    exists p :: p in po && IsBlock(g, p) && b in g.succ[p] && po[p] > po[b]
  }

  ghost predicate Injective(po: map<int, int>) {
    forall a, b :: a in po && b in po && po[a] == po[b] ==> a == b
  }

  /** Numbers of the reachable blocks; the entry has the highest, and dominators
      have higher numbers than what they dominate. */
  ghost predicate Numbering(g: Graph, po: map<int, int>) {
    && (forall b :: b in po <==> IsBlock(g, b) && Reachable(g, b))
    && 0 in po && (forall b :: b in po ==> 0 <= po[b] <= po[0])
    && Injective(po)
    && (forall d, b {:trigger StrictlyDominates(g, d, b)} :: b in po && StrictlyDominates(g, d, b) ==> d in po && po[d] > po[b])
    && (forall b :: b in po && b != 0 ==> HasForward(g, po, b))
  }

  ghost predicate Numbers(order: seq<int>, po: map<int, int>) {
    && (forall b :: b in po <==> b in order)
    && (forall i :: 0 <= i < |order| ==> order[i] in po && po[order[i]] == |order| - 1 - i)
  }

  method PostorderIndex(order: seq<int>) returns (po: map<int, int>)
    requires DistinctInts(order)
    ensures Numbers(order, po)
  {
    po := map[];
    for i := 0 to |order|
      invariant forall b :: b in po <==> b in order[..i]
      invariant forall j :: 0 <= j < i ==> order[j] in po && po[order[j]] == |order| - 1 - j
    {
      po := po[order[i] := |order| - 1 - i];
    }
  }

  lemma PositionOf(order: seq<int>, po: map<int, int>, b: int) returns (i: int)
    requires Numbers(order, po) && b in po
    ensures 0 <= i < |order| && order[i] == b && po[b] == |order| - 1 - i
    ensures forall d :: d in order[..i] ==> d in po && po[d] > po[b]
  {
    i :| 0 <= i < |order| && order[i] == b;
    forall d | d in order[..i] ensures d in po && po[d] > po[b] {
      var j :| 0 <= j < i && order[..i][j] == d;
      assert order[j] == d;
    }
  }

  lemma EntryDominates(g: Graph, b: int)
    ensures Dominates(g, 0, b)
  {
    forall p | PathTo(g, p, b) ensures 0 in p { assert p[0] == 0; }
  }

  lemma EntryFirst(g: Graph, order: seq<int>)
    requires ValidGraph(g) && Enumeration(g, order)
    ensures |order| > 0 && order[0] == 0
  {
    EntryReachable(g);
    assert 0 in order;
    assert Ordered(g, order, 0);
    EntryDominates(g, order[0]);
    assert order[..0] == [];
  }

  lemma DominatorsHigher(g: Graph, order: seq<int>, po: map<int, int>, d: int, b: int)
    requires Enumeration(g, order) && Numbers(order, po) && b in po && StrictlyDominates(g, d, b)
    ensures d in po && po[d] > po[b]
  {
    var i := PositionOf(order, po, b);
    assert Ordered(g, order, i);
  }

  lemma ForwardExists(g: Graph, order: seq<int>, po: map<int, int>, b: int)
    requires Enumeration(g, order) && Numbers(order, po) && b in po && b != 0
    ensures HasForward(g, po, b)
  {
    var i := PositionOf(order, po, b);
    assert Ordered(g, order, i);
    var p :| IsBlock(g, p) && b in g.succ[p] && p in order[..i];
  }

  lemma NumbersDiffer(order: seq<int>, po: map<int, int>)
    requires Numbers(order, po)
    ensures Injective(po)
  {
    forall a, b | a in po && b in po && po[a] == po[b] ensures a == b {
      var i := PositionOf(order, po, a);
      var j := PositionOf(order, po, b);
    }
  }

  lemma OrderNumbers(g: Graph, order: seq<int>, po: map<int, int>)
    requires ValidGraph(g) && Enumeration(g, order) && Numbers(order, po)
    ensures Numbering(g, po)
  {
    hide Ordered, StrictlyDominates, HasForward, Injective, Reachable;
    EntryFirst(g, order);
    NumbersDiffer(order, po);
    forall d, b | b in po && StrictlyDominates(g, d, b) ensures d in po && po[d] > po[b] {
      DominatorsHigher(g, order, po, d, b);
    }
    forall b | b in po && b != 0 ensures HasForward(g, po, b) {
      ForwardExists(g, order, po, b);
    }
    forall b | b in po ensures 0 <= po[b] <= po[0] {
      var i := PositionOf(order, po, b);
    }
  }

  // ----- The partial dominator tree -----

  type Parents = map<int, int>

  /** Parents lie strictly higher, so every chain climbs to the entry. */
  ghost predicate Tree(t: Parents, po: map<int, int>) {
    && 0 in t && t[0] == 0 && 0 in po
    && (forall b :: b in t ==> b in po && po[b] <= po[0])
    && (forall b {:trigger t[b] in t} {:trigger po[t[b]]} :: b in t ==> t[b] in t && (b != 0 ==> po[t[b]] > po[b]))
  }

  /** `a` lies on the chain from `b` up to the entry. */
  ghost predicate Above(t: Parents, po: map<int, int>, a: int, b: int)
    requires Tree(t, po) && b in t
    decreases po[0] - po[b]
  {
    a == b || (b != 0 && Above(t, po, a, t[b]))
  }

  lemma {:induction false} AboveIsHigher(t: Parents, po: map<int, int>, a: int, b: int)
    requires Tree(t, po) && b in t && Above(t, po, a, b)
    ensures a in t && po[a] >= po[b] && (a != b ==> po[a] > po[b])
    decreases po[0] - po[b]
  {
    if a != b { AboveIsHigher(t, po, a, t[b]); }
  }

  lemma {:induction false} AboveTransitive(t: Parents, po: map<int, int>, a: int, b: int, c: int)
    requires Tree(t, po) && b in t && c in t && Above(t, po, a, b) && Above(t, po, b, c)
    ensures Above(t, po, a, c)
    decreases po[0] - po[c]
  {
    if b != c { AboveTransitive(t, po, a, b, t[c]); }
  }

  /** Common dominators survive each edge of the tree. */
  ghost predicate KeepsDominators(g: Graph, t: Parents) {
    forall d, b :: b in t && b != 0 && StrictlyDominates(g, d, b) ==> Dominates(g, d, t[b])
  }

  /** `z` is the deepest common ancestor of `a` and `b`. */
  ghost predicate Meets(t: Parents, po: map<int, int>, z: int, a: int, b: int)
    requires Tree(t, po) && z in t && a in t && b in t
  {
    && Above(t, po, z, a) && Above(t, po, z, b)
    && forall w :: Above(t, po, w, a) && Above(t, po, w, b) ==> Above(t, po, w, z)
  }

  /** What the two fingers keep while they climb. */
  ghost predicate Climbing(g: Graph, t: Parents, po: map<int, int>, first: int, second: int, x: int, y: int)
    requires Tree(t, po) && first in t && second in t && x in t && y in t
  {
    && Above(t, po, x, first) && Above(t, po, y, second)
    && (forall w :: Above(t, po, w, first) && Above(t, po, w, second) ==> Above(t, po, w, x) && Above(t, po, w, y))
    && (forall d :: Dominates(g, d, first) && Dominates(g, d, second) ==> Dominates(g, d, x) && Dominates(g, d, y))
  }

  lemma ClimbStep(g: Graph, t: Parents, po: map<int, int>, first: int, second: int, x: int, y: int)
    requires Numbering(g, po) && Tree(t, po) && KeepsDominators(g, t) && first in t && second in t && x in t && y in t
    requires Climbing(g, t, po, first, second, x, y) && po[x] < po[y]
    ensures x != 0 && Climbing(g, t, po, first, second, t[x], y)
  {
    assert x != 0;
    AboveTransitive(t, po, t[x], x, first);
    forall w | Above(t, po, w, first) && Above(t, po, w, second) ensures Above(t, po, w, t[x]) {
      AboveIsHigher(t, po, w, y);
    }
    forall d | Dominates(g, d, first) && Dominates(g, d, second) ensures Dominates(g, d, t[x]) {
      if d == x { assert StrictlyDominates(g, d, y); }
      assert StrictlyDominates(g, d, x);
    }
  }

  lemma ClimbSwap(g: Graph, t: Parents, po: map<int, int>, first: int, second: int, x: int, y: int)
    requires Tree(t, po) && first in t && second in t && x in t && y in t
    requires Climbing(g, t, po, first, second, x, y)
    ensures Climbing(g, t, po, second, first, y, x)
  {
  }

  lemma {:induction false} EntryAbove(t: Parents, po: map<int, int>, b: int)
    requires Tree(t, po) && b in t
    ensures Above(t, po, 0, b)
    decreases po[0] - po[b]
  {
    if b != 0 { EntryAbove(t, po, t[b]); }
  }

  /** Climbs two fingers until they meet; each step raises a postorder number. */
  method IntersectDominators(first: int, second: int, t: Parents, po: map<int, int>, ghost g: Graph) returns (z: int)
    requires Numbering(g, po) && Tree(t, po) && KeepsDominators(g, t) && first in t && second in t
    ensures z in t && Meets(t, po, z, first, second)
    ensures forall d :: Dominates(g, d, first) && Dominates(g, d, second) ==> Dominates(g, d, z)
  {
    var x, y := first, second;
    hide Numbering, KeepsDominators, Climbing, Dominates;
    assert Climbing(g, t, po, first, second, x, y) by { ClimbStart(g, t, po, first, second); }
    while x != y
      invariant x in t && y in t && Climbing(g, t, po, first, second, x, y)
      decreases (po[0] - po[x]) + (po[0] - po[y])
    {
      ghost var before := (po[0] - po[x]) + (po[0] - po[y]);
      if po[x] == po[y] { SameNumber(g, po, x, y); }
      while po[x] < po[y]
        invariant x in t && y in t && Climbing(g, t, po, first, second, x, y)
        invariant (po[0] - po[x]) + (po[0] - po[y]) < before || ((po[0] - po[x]) + (po[0] - po[y]) == before && po[x] != po[y])
        decreases po[0] - po[x]
      {
        ClimbStep(g, t, po, first, second, x, y);
        x := t[x];
      }
      while po[y] < po[x]
        invariant x in t && y in t && Climbing(g, t, po, first, second, x, y)
        invariant (po[0] - po[x]) + (po[0] - po[y]) < before || ((po[0] - po[x]) + (po[0] - po[y]) == before && po[y] < po[x])
        decreases po[0] - po[y]
      {
        ClimbSwap(g, t, po, first, second, x, y);
        ClimbStep(g, t, po, second, first, y, x);
        ClimbSwap(g, t, po, second, first, t[y], x);
        y := t[y];
      }
    }
    z := x;
    ClimbEnd(g, t, po, first, second, z);
  }

  lemma ClimbStart(g: Graph, t: Parents, po: map<int, int>, first: int, second: int)
    requires Tree(t, po) && first in t && second in t
    ensures Climbing(g, t, po, first, second, first, second)
  {
  }

  lemma ClimbEnd(g: Graph, t: Parents, po: map<int, int>, first: int, second: int, z: int)
    requires Tree(t, po) && first in t && second in t && z in t && Climbing(g, t, po, first, second, z, z)
    ensures Meets(t, po, z, first, second)
    ensures forall d :: Dominates(g, d, first) && Dominates(g, d, second) ==> Dominates(g, d, z)
  {
  }

  lemma SameNumber(g: Graph, po: map<int, int>, x: int, y: int)
    requires Numbering(g, po) && x in po && y in po && po[x] == po[y]
    ensures x == y
  {
  }

  /** `z` is the deepest common ancestor of all of `ps`, and what dominates all of
      them dominates `z`. */
  ghost predicate MeetOf(g: Graph, t: Parents, po: map<int, int>, ps: seq<int>, z: int)
    requires Tree(t, po)
  {
    && z in t && (forall p :: p in ps ==> p in t)
    && (forall p :: p in ps ==> Above(t, po, z, p))
    && (forall w :: (forall p :: p in ps ==> Above(t, po, w, p)) ==> Above(t, po, w, z))
    && (forall d :: (forall p :: p in ps ==> Dominates(g, d, p)) ==> Dominates(g, d, z))
  }

  lemma MeetMore(g: Graph, t: Parents, po: map<int, int>, ps: seq<int>, z: int, p: int, z': int)
    requires Tree(t, po) && MeetOf(g, t, po, ps, z) && p in t && z' in t && Meets(t, po, z', p, z)
    requires forall d :: Dominates(g, d, p) && Dominates(g, d, z) ==> Dominates(g, d, z')
    ensures MeetOf(g, t, po, ps + [p], z')
  {
    hide Dominates;
    var all := ps + [p];
    forall q | q in all ensures q in t && Above(t, po, z', q) {
      if q in ps { AboveTransitive(t, po, z', z, q); }
    }
    forall w | forall q :: q in all ==> q in t && Above(t, po, w, q) ensures Above(t, po, w, z') {
      assert p in all;
      assert forall q :: q in ps ==> q in all;
      assert Above(t, po, w, z);
    }
    forall d | forall q :: q in all ==> Dominates(g, d, q) ensures Dominates(g, d, z') {
      assert p in all;
      assert forall q :: q in ps ==> q in all;
      assert Dominates(g, d, z);
    }
  }

  lemma MeetOne(g: Graph, t: Parents, po: map<int, int>, p: int)
    requires Tree(t, po) && p in t
    ensures MeetOf(g, t, po, [p], p)
  {
    forall w | forall q :: q in [p] ==> q in t && Above(t, po, w, q) ensures Above(t, po, w, p) {
      assert p in [p];
    }
    forall d | forall q :: q in [p] ==> Dominates(g, d, q) ensures Dominates(g, d, p) {
      assert p in [p];
    }
  }

  /** The predecessors that already have a place in the tree. */
  function Processed(ps: seq<int>, t: Parents): seq<int> {
    if ps == [] then []
    else Processed(ps[..|ps| - 1], t) + if ps[|ps| - 1] in t then [ps[|ps| - 1]] else []
  }

  lemma {:induction false} ProcessedMembers(ps: seq<int>, t: Parents, p: int)
    ensures p in Processed(ps, t) <==> p in ps && p in t
  {
    if ps != [] {
      ProcessedMembers(ps[..|ps| - 1], t, p);
      assert ps == ps[..|ps| - 1] + [ps[|ps| - 1]];
    }
  }

  /** Folds the finger walk over the processed predecessors. */
  method MeetAll(ps: seq<int>, t: Parents, po: map<int, int>, ghost g: Graph) returns (z: int)
    requires Numbering(g, po) && Tree(t, po) && KeepsDominators(g, t)
    requires ps != [] && forall p :: p in ps ==> p in t
    ensures MeetOf(g, t, po, ps, z)
  {
    hide *;
    z := ps[0];
    MeetOne(g, t, po, z);
    assert ps[..1] == [ps[0]];
    for i := 1 to |ps|
      invariant MeetOf(g, t, po, ps[..i], z)
    {
      assert z in t by { MeetIn(g, t, po, ps[..i], z); }
      var z' := IntersectDominators(ps[i], z, t, po, g);
      MeetMore(g, t, po, ps[..i], z, ps[i], z');
      assert ps[..i + 1] == ps[..i] + [ps[i]];
      z := z';
    }
    assert ps[..|ps|] == ps;
  }

  lemma MeetIn(g: Graph, t: Parents, po: map<int, int>, ps: seq<int>, z: int)
    requires Tree(t, po) && MeetOf(g, t, po, ps, z)
    ensures z in t
  {
  }

  // ----- What a pass over the blocks keeps -----

  /** The parent of `b` lies above each predecessor with a higher number. */
  ghost predicate Forward(g: Graph, t: Parents, po: map<int, int>, b: int)
    requires ValidGraph(g) && Tree(t, po) && b in t && IsBlock(g, b)
  {
    forall p :: p in g.pred[b] && p in po && po[p] > po[b] ==> p in t && Above(t, po, t[b], p)
  }

  /** `w` lies above every processed predecessor of `b`. */
  ghost predicate CommonAbove(g: Graph, t: Parents, po: map<int, int>, w: int, b: int)
    requires ValidGraph(g) && Tree(t, po) && IsBlock(g, b)
  {
    forall p :: p in g.pred[b] && p in t ==> Above(t, po, w, p)
  }

  /** No common ancestor of the predecessors is missed by the parent. */
  ghost predicate Tight(g: Graph, t: Parents, po: map<int, int>, b: int)
    requires ValidGraph(g) && Tree(t, po) && b in t && IsBlock(g, b)
  {
    forall w :: CommonAbove(g, t, po, w, b) ==> Above(t, po, w, t[b])
  }

  ghost predicate Settled(g: Graph, t: Parents, po: map<int, int>, b: int)
    requires ValidGraph(g) && Tree(t, po) && b in t
  {
    IsBlock(g, b) && Forward(g, t, po, b) && Tight(g, t, po, b)
  }

  /** The tree between two passes: only the entry, or every reachable block. */
  ghost predicate Between(g: Graph, t: Parents, po: map<int, int>) {
    && ValidGraph(g) && Numbering(g, po) && Tree(t, po) && KeepsDominators(g, t)
    && (forall b :: b in t && b != 0 ==> Settled(g, t, po, b))
    && ((forall b :: b in t ==> b == 0) || t.Keys == po.Keys)
  }

  /** Chains only ever get shorter. */
  ghost predicate Shrunk(t0: Parents, t: Parents, po: map<int, int>)
    requires Tree(t0, po) && Tree(t, po) && t0.Keys <= t.Keys
  {
    forall a, x :: x in t0 && Above(t, po, a, x) ==> Above(t0, po, a, x)
  }

  /** The tree inside a pass that began with `t0` and has visited every block
      numbered `h` or higher. */
  ghost predicate Within(g: Graph, t0: Parents, t: Parents, po: map<int, int>, h: int) {
    && Between(g, t0, po) && Tree(t, po) && KeepsDominators(g, t)
    && Covers(t0, t, po, h) && SettledFrom(g, t, po, h) && Shrunk(t0, t, po)
  }

  /** Visited blocks have been added; the others are as they were. */
  ghost predicate Covers(t0: Parents, t: Parents, po: map<int, int>, h: int)
    requires Tree(t0, po)
  {
    && t0.Keys <= t.Keys
    && (forall b :: b in t <==> b in t0 || (b in po && po[b] >= h))
    && (forall b {:trigger t0[b]} {:trigger t[b]} :: b in t0 && po[b] < h ==> t[b] == t0[b])
  }

  ghost predicate SettledFrom(g: Graph, t: Parents, po: map<int, int>, h: int)
    requires ValidGraph(g) && Tree(t, po)
  {
    forall b :: b in t && b != 0 && po[b] >= h ==> Settled(g, t, po, b)
  }

  /** Walking up the forward edges shows that a common ancestor which is not below
      the old parent is above it. */
  lemma {:induction false} OldParentBelow(g: Graph, t0: Parents, t: Parents, po: map<int, int>, h: int, d: int, z: int, x: int)
    requires Within(g, t0, t, po, h) && t0.Keys == po.Keys
    requires x in po && po[x] >= h && d in po && z in t && po[z] >= po[d]
    requires Above(t0, po, d, x) && Above(t, po, z, x)
    ensures d in t && Above(t, po, z, d)
    decreases po[0] - po[x]
  {
    if x != d {
      AboveIsHigher(t0, po, d, x);
      assert x != 0;
      assert HasForward(g, po, x);
      var p :| p in po && IsBlock(g, p) && x in g.succ[p] && po[p] > po[x];
      assert Settled(g, t, po, x) && Settled(g, t0, po, x);
      assert p in g.pred[x];
      AboveTransitive(t, po, z, t[x], p);
      AboveTransitive(t0, po, d, t0[x], p);
      OldParentBelow(g, t0, t, po, h, d, z, p);
    }
  }

  /** The forward predecessor that makes a block's parent higher than itself. */
  lemma ForwardPredecessor(g: Graph, po: map<int, int>, b: int) returns (p: int)
    requires ValidGraph(g) && Numbering(g, po) && b in po && b != 0
    ensures p in po && IsBlock(g, b) && p in g.pred[b] && po[p] > po[b]
  {
    assert HasForward(g, po, b);
    p :| p in po && IsBlock(g, p) && b in g.succ[p] && po[p] > po[b];
  }

  lemma CommonBefore(g: Graph, t0: Parents, t: Parents, po: map<int, int>, b: int, z: int)
    requires ValidGraph(g) && Tree(t0, po) && Tree(t, po) && t0.Keys <= t.Keys && Shrunk(t0, t, po)
    requires IsBlock(g, b) && CommonAbove(g, t, po, z, b)
    ensures CommonAbove(g, t0, po, z, b)
  {
  }

  lemma WasCommon(g: Graph, t0: Parents, t: Parents, po: map<int, int>, h: int, b: int, z: int)
    requires Within(g, t0, t, po, h) && b in t0 && b != 0 && IsBlock(g, b) && z in t && CommonAbove(g, t, po, z, b)
    ensures t0.Keys == po.Keys && Above(t0, po, z, t0[b])
    ensures forall p :: p in g.pred[b] && p in po && po[p] > po[b] ==> Above(t0, po, t0[b], p)
  {
    hide Within;
    WithinFacts(g, t0, t, po, h);
    hide Numbering, Covers, SettledFrom, Shrunk, ValidGraph, KeepsDominators;
    CommonBefore(g, t0, t, po, b, z);
    assert Settled(g, t0, po, b);
  }

  /** A new parent is never lower than the old one: it lies above it. */
  lemma Rises(g: Graph, t0: Parents, t: Parents, po: map<int, int>, h: int, b: int, z: int)
    requires Within(g, t0, t, po, h) && b in t0 && b != 0 && po[b] == h - 1
    requires IsBlock(g, b) && z in t && CommonAbove(g, t, po, z, b)
    ensures Above(t, po, z, t[b])
  {
    WasCommon(g, t0, t, po, h, b, z);
    AboveIsHigher(t0, po, z, t0[b]);
    var p := ForwardPredecessor(g, po, b);
    OldParentBelow(g, t0, t, po, h, t0[b], z, p);
  }

  // ----- Changing one parent -----

  /** Chains that start higher than the changed block do not change. */
  lemma {:induction false} HigherUnchanged(t: Parents, t': Parents, po: map<int, int>, b: int, a: int, x: int)
    requires Tree(t, po) && Tree(t', po) && b in po && x in t && x in t' && po[x] > po[b]
    requires forall y :: y in t && y != b ==> y in t' && t'[y] == t[y]
    ensures Above(t', po, a, x) <==> Above(t, po, a, x)
    decreases po[0] - po[x]
  {
    if x != 0 { HigherUnchanged(t, t', po, b, a, t[x]); }
  }

  /** Raising a parent along its own chain shortens chains. */
  lemma {:induction false} RaiseShrinks(t: Parents, t': Parents, po: map<int, int>, b: int, z: int, a: int, x: int)
    requires Tree(t, po) && Tree(t', po) && b in t && b != 0 && z in t && t' == t[b := z] && Above(t, po, z, t[b])
    requires x in t && Above(t', po, a, x)
    ensures Above(t, po, a, x)
    decreases po[0] - po[x]
  {
    if a != x {
      RaiseShrinks(t, t', po, b, z, a, t'[x]);
      if x == b { AboveTransitive(t, po, a, z, t[b]); }
    }
  }

  /** A new leaf changes no chain. */
  lemma {:induction false} LeafUnchanged(t: Parents, t': Parents, po: map<int, int>, b: int, z: int, a: int, x: int)
    requires Tree(t, po) && Tree(t', po) && b !in t && t' == t[b := z] && x in t
    ensures Above(t', po, a, x) <==> Above(t, po, a, x)
    decreases po[0] - po[x]
  {
    if x != 0 { LeafUnchanged(t, t', po, b, z, a, t[x]); }
  }

  /** A block is placed under the meet of its processed predecessors. */
  ghost predicate Placing(g: Graph, t: Parents, po: map<int, int>, b: int, z: int) {
    && ValidGraph(g) && Numbering(g, po) && Tree(t, po) && KeepsDominators(g, t)
    && b in po && b != 0 && IsBlock(g, b)
    && z in t && po[z] > po[b]
    && (b in t ==> Above(t, po, z, t[b]))
    && CommonAbove(g, t, po, z, b)
    && (forall w :: CommonAbove(g, t, po, w, b) ==> Above(t, po, w, z))
    && (forall d :: StrictlyDominates(g, d, b) ==> Dominates(g, d, z))
  }

  lemma PlacingTree(g: Graph, t: Parents, po: map<int, int>, b: int, z: int)
    requires Placing(g, t, po, b, z)
    ensures Tree(t[b := z], po) && KeepsDominators(g, t[b := z])
  {
    hide Above, CommonAbove, Numbering;
    var t' := t[b := z];
    forall d, n | n in t' && n != 0 && StrictlyDominates(g, d, n) ensures Dominates(g, d, t'[n]) {
      if n != b { assert n in t; }
    }
    hide StrictlyDominates, Dominates, ValidGraph;
  }

  lemma PlacingShrinks(g: Graph, t: Parents, po: map<int, int>, b: int, z: int, a: int, x: int)
    requires Placing(g, t, po, b, z) && Tree(t[b := z], po) && x in t && Above(t[b := z], po, a, x)
    ensures Above(t, po, a, x)
  {
    if b in t { RaiseShrinks(t, t[b := z], po, b, z, a, x); } else { LeafUnchanged(t, t[b := z], po, b, z, a, x); }
  }

  /** A common ancestor after the change was one before it. */
  lemma PlacingCommon(g: Graph, t: Parents, po: map<int, int>, b: int, z: int, w: int, n: int)
    requires Placing(g, t, po, b, z) && Tree(t[b := z], po) && IsBlock(g, n) && CommonAbove(g, t[b := z], po, w, n)
    ensures CommonAbove(g, t, po, w, n)
  {
    forall p | p in g.pred[n] && p in t ensures Above(t, po, w, p) {
      PlacingShrinks(g, t, po, b, z, w, p);
    }
  }

  lemma PlacingForwardOld(g: Graph, t: Parents, po: map<int, int>, b: int, z: int, n: int)
    requires Placing(g, t, po, b, z) && Tree(t[b := z], po) && n in t && po[n] > po[b] && IsBlock(g, n) && Forward(g, t, po, n)
    ensures Forward(g, t[b := z], po, n)
  {
    var t' := t[b := z];
    forall p | p in g.pred[n] && p in po && po[p] > po[n] ensures p in t' && Above(t', po, t'[n], p) {
      HigherUnchanged(t, t', po, b, t[n], p);
    }
  }

  /** Blocks visited before stay settled. */
  lemma PlacingSettledOld(g: Graph, t: Parents, po: map<int, int>, b: int, z: int, n: int)
    requires Placing(g, t, po, b, z) && Tree(t[b := z], po) && n in t && n != 0 && po[n] > po[b] && Settled(g, t, po, n)
    ensures Settled(g, t[b := z], po, n)
  {
    var t' := t[b := z];
    PlacingForwardOld(g, t, po, b, z, n);
    hide Placing;
    forall w | CommonAbove(g, t', po, w, n) ensures Above(t', po, w, t'[n]) {
      PlacingCommon(g, t, po, b, z, w, n);
      HigherUnchanged(t, t', po, b, w, t[n]);
    }
  }

  /** The block just placed is settled. */
  lemma PlacingSettledNew(g: Graph, t: Parents, po: map<int, int>, b: int, z: int)
    requires Placing(g, t, po, b, z) && Tree(t[b := z], po)
    requires forall p :: p in g.pred[b] && p in po && po[p] > po[b] ==> p in t
    ensures Settled(g, t[b := z], po, b)
  {
    var t' := t[b := z];
    forall p | p in g.pred[b] && p in po && po[p] > po[b] ensures p in t' && Above(t', po, z, p) {
      HigherUnchanged(t, t', po, b, z, p);
    }
    forall w | CommonAbove(g, t', po, w, b) ensures Above(t', po, w, z) {
      PlacingCommon(g, t, po, b, z, w, b);
      HigherUnchanged(t, t', po, b, w, z);
    }
  }

  lemma PlacingSettles(g: Graph, t: Parents, po: map<int, int>, h: int, b: int, z: int)
    requires Placing(g, t, po, b, z) && po[b] == h - 1 && Tree(t[b := z], po) && SettledFrom(g, t, po, h)
    requires forall p :: p in po && po[p] >= h ==> p in t
    ensures SettledFrom(g, t[b := z], po, h - 1)
  {
    var t' := t[b := z];
    PlacingSettledNew(g, t, po, b, z);
    forall n | n in t' && n != 0 && po[n] >= h - 1 ensures Settled(g, t', po, n) {
      if n != b {
        SameNumberOnce(g, po, n, b);
        PlacingSettledOld(g, t, po, b, z, n);
      }
    }
  }

  lemma PlacingCovers(g: Graph, t0: Parents, t: Parents, po: map<int, int>, h: int, b: int, z: int)
    requires Numbering(g, po) && Tree(t0, po) && Covers(t0, t, po, h) && b in po && po[b] == h - 1
    ensures Covers(t0, t[b := z], po, h - 1)
    ensures forall p :: p in po && po[p] >= h ==> p in t
  {
  }

  lemma PlacingShrunk(g: Graph, t0: Parents, t: Parents, po: map<int, int>, b: int, z: int)
    requires Placing(g, t, po, b, z) && Tree(t0, po) && Tree(t[b := z], po) && t0.Keys <= t.Keys && Shrunk(t0, t, po)
    ensures Shrunk(t0, t[b := z], po)
  {
    forall a, x | x in t0 && Above(t[b := z], po, a, x) ensures Above(t0, po, a, x) {
      PlacingShrinks(g, t, po, b, z, a, x);
    }
  }

  lemma WithinFacts(g: Graph, t0: Parents, t: Parents, po: map<int, int>, h: int)
    requires Within(g, t0, t, po, h)
    ensures ValidGraph(g) && Numbering(g, po) && Between(g, t0, po) && Tree(t0, po) && Tree(t, po) && KeepsDominators(g, t)
    ensures t0.Keys <= t.Keys && Covers(t0, t, po, h) && SettledFrom(g, t, po, h) && Shrunk(t0, t, po)
  {
  }

  lemma WithinFrom(g: Graph, t0: Parents, t: Parents, po: map<int, int>, h: int)
    requires Between(g, t0, po) && ValidGraph(g) && Tree(t0, po) && Tree(t, po) && KeepsDominators(g, t)
    requires t0.Keys <= t.Keys && Covers(t0, t, po, h) && SettledFrom(g, t, po, h) && Shrunk(t0, t, po)
    ensures Within(g, t0, t, po, h)
  {
  }

  /** One visit keeps everything and raises a parent whenever it changes one. */
  lemma PlacingKeeps(g: Graph, t0: Parents, t: Parents, po: map<int, int>, h: int, b: int, z: int)
    requires Within(g, t0, t, po, h) && Placing(g, t, po, b, z) && po[b] == h - 1
    ensures Within(g, t0, t[b := z], po, h - 1)
    ensures b in t && t[b] != z ==> t[b] in po && po[z] > po[t[b]]
  {
    var t' := t[b := z];
    if b in t { AboveIsHigher(t, po, z, t[b]); }
    hide *;
    WithinFacts(g, t0, t, po, h);
    PlacingTree(g, t, po, b, z);
    PlacingIn(g, t, po, b, z);
    PlacingCovers(g, t0, t, po, h, b, z);
    PlacingSettles(g, t, po, h, b, z);
    PlacingShrunk(g, t0, t, po, b, z);
    WithinFrom(g, t0, t', po, h - 1);
  }

  lemma PlacingIn(g: Graph, t: Parents, po: map<int, int>, b: int, z: int)
    requires Placing(g, t, po, b, z)
    ensures b in po && b != 0 && z in t
  {
  }

  lemma SameNumberOnce(g: Graph, po: map<int, int>, n: int, b: int)
    requires Numbering(g, po) && n in po && b in po && n != b
    ensures po[n] != po[b]
  {
  }

  // ----- The passes -----

  /** The meet of the processed predecessors is a fit parent. */
  lemma PlacingFrom(g: Graph, t0: Parents, t: Parents, po: map<int, int>, h: int, b: int, z: int)
    requires Within(g, t0, t, po, h) && b in po && po[b] == h - 1 && b != 0
    requires IsBlock(g, b) && MeetOf(g, t, po, Processed(g.pred[b], t), z)
    ensures Placing(g, t, po, b, z)
  {
    hide *;
    WithinFacts(g, t0, t, po, h);
    BlockHasPredecessors(g, b);
    var ps := Processed(g.pred[b], t);
    forall p ensures p in ps <==> p in g.pred[b] && p in t { ProcessedMembers(g.pred[b], t, p); }
    MeetIsCommon(g, t, po, b, ps, z);
    MeetIsHigher(g, t0, t, po, h, b, ps, z);
    if b in t {
      PlacedBefore(g, t0, t, po, h, b);
      Rises(g, t0, t, po, h, b, z);
    }
    forall d | StrictlyDominates(g, d, b) ensures Dominates(g, d, z) {
      MeetDominated(g, t, po, b, ps, z, d);
    }
    PlacingIs(g, t, po, b, z);
  }

  lemma BlockHasPredecessors(g: Graph, b: int)
    requires ValidGraph(g) && IsBlock(g, b)
    ensures 0 <= b < |g.pred|
  {
  }

  lemma PlacingIs(g: Graph, t: Parents, po: map<int, int>, b: int, z: int)
    requires ValidGraph(g) && Numbering(g, po) && Tree(t, po) && KeepsDominators(g, t)
    requires b in po && b != 0 && IsBlock(g, b) && z in t && z in po && po[z] > po[b]
    requires b in t ==> Above(t, po, z, t[b])
    requires CommonAbove(g, t, po, z, b) && forall w :: CommonAbove(g, t, po, w, b) ==> Above(t, po, w, z)
    requires forall d :: StrictlyDominates(g, d, b) ==> Dominates(g, d, z)
    ensures Placing(g, t, po, b, z)
  {
    hide StrictlyDominates, Dominates, Above, CommonAbove, Numbering, KeepsDominators;
  }

  lemma PlacedBefore(g: Graph, t0: Parents, t: Parents, po: map<int, int>, h: int, b: int)
    requires Within(g, t0, t, po, h) && b in t && b in po && po[b] == h - 1
    ensures b in t0
  {
  }

  lemma MeetIsHigher(g: Graph, t0: Parents, t: Parents, po: map<int, int>, h: int, b: int, ps: seq<int>, z: int)
    requires Within(g, t0, t, po, h) && b in po && po[b] == h - 1 && b != 0 && IsBlock(g, b) && Tree(t, po) && MeetOf(g, t, po, ps, z)
    requires forall p :: p in ps <==> p in g.pred[b] && p in t
    ensures z in po && po[z] > po[b]
  {
    WithinFacts(g, t0, t, po, h);
    var p := ForwardPredecessor(g, po, b);
    hide Within, Between, StrictlyDominates, Dominates, Shrunk, SettledFrom, KeepsDominators;
    assert p in ps && Above(t, po, z, p);
    AboveIsHigher(t, po, z, p);
  }

  lemma MeetIsCommon(g: Graph, t: Parents, po: map<int, int>, b: int, ps: seq<int>, z: int)
    requires ValidGraph(g) && Tree(t, po) && IsBlock(g, b) && MeetOf(g, t, po, ps, z)
    requires forall p :: p in ps <==> p in g.pred[b] && p in t
    ensures CommonAbove(g, t, po, z, b) && z in t
    ensures forall w :: CommonAbove(g, t, po, w, b) ==> Above(t, po, w, z)
  {
    forall w | CommonAbove(g, t, po, w, b) ensures Above(t, po, w, z) {
      assert forall p :: p in ps ==> Above(t, po, w, p);
    }
  }

  lemma MeetDominated(g: Graph, t: Parents, po: map<int, int>, b: int, ps: seq<int>, z: int, d: int)
    requires ValidGraph(g) && Tree(t, po) && IsBlock(g, b) && MeetOf(g, t, po, ps, z)
    requires forall p :: p in ps ==> p in g.pred[b]
    requires StrictlyDominates(g, d, b)
    ensures Dominates(g, d, z)
  {
    forall p | p in ps ensures Dominates(g, d, p) {
      DominatesPredecessor(g, d, p, b);
    }
  }

  lemma ProcessedExists(g: Graph, t0: Parents, t: Parents, po: map<int, int>, h: int, b: int)
    requires Within(g, t0, t, po, h) && b in po && po[b] == h - 1 && b != 0
    ensures IsBlock(g, b) && IsBlock(g, b) && Processed(g.pred[b], t) != []
  {
    var p := ForwardPredecessor(g, po, b);
    ProcessedMembers(g.pred[b], t, p);
  }

  /** Moving past the entry changes nothing. */
  lemma WithinEntry(g: Graph, t0: Parents, t: Parents, po: map<int, int>, h: int)
    requires Within(g, t0, t, po, h) && po[0] == h - 1
    ensures Within(g, t0, t, po, h - 1)
  {
    WithinFacts(g, t0, t, po, h);
    assert Covers(t0, t, po, h - 1);
    assert SettledFrom(g, t, po, h - 1) by {
      forall b | b in t && b != 0 && po[b] >= h - 1 ensures Settled(g, t, po, b) { SameNumberOnce(g, po, b, 0); }
    }
    hide *;
    WithinFrom(g, t0, t, po, h - 1);
  }

  lemma WithinStarts(g: Graph, t: Parents, po: map<int, int>)
    requires Between(g, t, po)
    ensures Within(g, t, t, po, po[0] + 1)
  {
  }

  lemma WithinEnds(g: Graph, t0: Parents, t: Parents, po: map<int, int>)
    requires Within(g, t0, t, po, 0)
    ensures Between(g, t, po) && t.Keys == po.Keys
  {
    WithinFacts(g, t0, t, po, 0);
    assert forall b :: b in t <==> b in po;
    assert t.Keys == po.Keys;
    hide Settled, KeepsDominators, Shrunk;
  }

  ghost function CostAt(t: Parents, po: map<int, int>, b: int): nat {
    if 0 in po && po[0] >= 0 && b in t && t[b] in po && po[t[b]] <= po[0] then po[0] - po[t[b]]
    else if 0 in po && po[0] >= 0 then po[0] + 1 else 0
  }

  /** How far the parents can still rise. */
  ghost function Cost(t: Parents, po: map<int, int>, order: seq<int>): nat {
    if order == [] then 0 else CostAt(t, po, order[|order| - 1]) + Cost(t, po, order[..|order| - 1])
  }

  lemma {:induction false} CostElsewhere(t: Parents, po: map<int, int>, order: seq<int>, b: int, z: int)
    requires b !in order
    ensures Cost(t[b := z], po, order) == Cost(t, po, order)
    decreases |order|
  {
    if order != [] { CostElsewhere(t, po, order[..|order| - 1], b, z); }
  }

  lemma {:induction false} CostDrops(t: Parents, po: map<int, int>, order: seq<int>, b: int, z: int)
    requires DistinctInts(order) && b in order && CostAt(t[b := z], po, b) < CostAt(t, po, b)
    ensures Cost(t[b := z], po, order) < Cost(t, po, order)
    decreases |order|
  {
    var last := |order| - 1;
    var rest := order[..last];
    if order[last] == b {
      assert b !in rest;
      CostElsewhere(t, po, rest, b, z);
    } else {
      assert b in rest;
      CostDrops(t, po, rest, b, z);
    }
  }

  /** Every parent lies above every predecessor: nothing is left to raise. */
  ghost predicate AtRest(g: Graph, t: Parents, po: map<int, int>, h: int)
    requires ValidGraph(g) && Tree(t, po)
  {
    forall b :: b in t && b != 0 && po[b] >= h ==> IsBlock(g, b) && CommonAbove(g, t, po, t[b], b)
  }

  lemma AtRestMore(g: Graph, t: Parents, po: map<int, int>, h: int, b: int)
    requires b in t && Placing(g, t, po, b, t[b]) && po[b] == h - 1 && AtRest(g, t, po, h)
    ensures AtRest(g, t, po, h - 1)
  {
    forall n | n in t && n != 0 && po[n] >= h - 1 ensures IsBlock(g, n) && CommonAbove(g, t, po, t[n], n) {
      if n != b { SameNumberOnce(g, po, n, b); }
    }
  }

  lemma CostAtDrops(g: Graph, t: Parents, po: map<int, int>, b: int, z: int)
    requires Placing(g, t, po, b, z) && (b in t ==> t[b] in po && po[z] > po[t[b]])
    ensures CostAt(t[b := z], po, b) < CostAt(t, po, b)
  {
  }

  lemma OrderPosition(g: Graph, order: seq<int>, po: map<int, int>, i: int)
    requires Enumeration(g, order) && Numbers(order, po) && 0 <= i < |order|
    ensures IsBlock(g, order[i]) && order[i] in po && po[order[i]] == |order| - i - 1
  {
    assert order[i] in order;
  }

  /** Recomputes the parent of one block. */
  method Visit(g: Graph, ghost t0: Parents, t: Parents, po: map<int, int>, ghost h: int, b: int, ghost order: seq<int>) returns (z: int)
    requires Within(g, t0, t, po, h) && b in po && po[b] == h - 1 && b != 0 && DistinctInts(order) && b in order
    ensures Placing(g, t, po, b, z) && Within(g, t0, t[b := z], po, h - 1)
    ensures b !in t || t[b] != z ==> Cost(t[b := z], po, order) < Cost(t, po, order)
  {
    hide *;
    WithinFacts(g, t0, t, po, h);
    ProcessedExists(g, t0, t, po, h, b);
    BlockInRange(g, b);
    var ps := Processed(g.pred[b], t);
    ProcessedIn(g.pred[b], t);
    z := MeetAll(ps, t, po, g);
    PlacingFrom(g, t0, t, po, h, b, z);
    PlacingKeeps(g, t0, t, po, h, b, z);
    if b !in t || t[b] != z {
      CostAtDrops(g, t, po, b, z);
      CostDrops(t, po, order, b, z);
    }
  }

  lemma PassStarts(g: Graph, order: seq<int>, po: map<int, int>, t: Parents)
    requires Between(g, t, po) && Enumeration(g, order) && Numbers(order, po)
    ensures Within(g, t, t, po, |order|) && DistinctInts(order) && ValidGraph(g) && Tree(t, po) && AtRest(g, t, po, |order|)
  {
    EntryFirst(g, order);
    OrderPosition(g, order, po, 0);
    WithinStarts(g, t, po);
    RestStarts(g, t, po);
  }

  /** One pass in reverse postorder. */
  method Pass(g: Graph, order: seq<int>, po: map<int, int>, t0: Parents) returns (t: Parents, changed: bool)
    requires Between(g, t0, po) && Enumeration(g, order) && Numbers(order, po)
    ensures Between(g, t, po)
    ensures changed ==> Cost(t, po, order) < Cost(t0, po, order)
    ensures !changed ==> t == t0 && t.Keys == po.Keys && AtRest(g, t, po, 0)
  {
    hide *;
    t, changed := t0, false;
    PassStarts(g, order, po, t0);
    for i := 0 to |order|
      invariant Within(g, t0, t, po, |order| - i)
      invariant changed ==> Cost(t, po, order) < Cost(t0, po, order)
      invariant !changed ==> t == t0 && AtRest(g, t, po, |order| - i)
    {
      OrderPosition(g, order, po, i);
      var b := order[i];
      ghost var h := |order| - i;
      if b == 0 {
        WithinEntry(g, t0, t, po, h);
        if !changed { RestEntry(g, t0, t, po, h); }
      } else {
        var z := Visit(g, t0, t, po, h, b, order);
        if b !in t || t[b] != z {
          t := t[b := z];
          changed := true;
        } else {
          if !changed { AtRestMore(g, t, po, h, b); }
          assert t[b := z] == t;
        }
      }
    }
    WithinEnds(g, t0, t, po);
  }

  lemma ProcessedIn(ps: seq<int>, t: Parents)
    ensures forall p :: p in Processed(ps, t) ==> p in t
  {
    forall p | p in Processed(ps, t) ensures p in t { ProcessedMembers(ps, t, p); }
  }

  lemma BlockInRange(g: Graph, b: int)
    requires ValidGraph(g) && IsBlock(g, b)
    ensures 0 <= b < |g.pred|
  {
  }

  lemma RestStarts(g: Graph, t: Parents, po: map<int, int>)
    requires Between(g, t, po)
    ensures AtRest(g, t, po, po[0] + 1)
  {
  }

  lemma RestEntry(g: Graph, t0: Parents, t: Parents, po: map<int, int>, h: int)
    requires Within(g, t0, t, po, h) && po[0] == h - 1 && AtRest(g, t, po, h)
    ensures AtRest(g, t, po, h - 1)
  {
    forall n | n in t && po[n] >= h - 1 ensures n == 0 {
      SameNumber(g, po, n, 0);
    }
  }

  // ----- Exactness -----

  /** The immediate dominator of `b`. */
  ghost predicate ImmediateDominator(g: Graph, d: int, b: int) {
    StrictlyDominates(g, d, b) && forall e :: StrictlyDominates(g, e, b) ==> Dominates(g, e, d)
  }

  /** At rest, what lies above a block is on every path to it. */
  lemma {:induction false} AboveOnPath(g: Graph, t: Parents, po: map<int, int>, a: int, b: int, p: seq<int>)
    requires Complete(g, t, po) && b in t
    requires Above(t, po, a, b) && PathTo(g, p, b)
    ensures a in p
    decreases |p|
  {
    if a != b {
      assert |p| > 1;
      var last := |p| - 1;
      var q := p[last - 1];
      PathPrefix(g, p, last);
      assert p[last] in g.succ[p[last - 1]];
      assert Reachable(g, q) && q in t && q in g.pred[b];
      AboveTransitive(t, po, a, t[b], q);
      AboveOnPath(g, t, po, a, q, p[..last]);
    }
  }

  /** A finished tree is the dominator tree. */
  lemma {:induction false} AboveIsDominates(g: Graph, t: Parents, po: map<int, int>, a: int, b: int)
    requires Complete(g, t, po) && b in t
    ensures Above(t, po, a, b) <==> Dominates(g, a, b)
    decreases po[0] - po[b]
  {
    if Above(t, po, a, b) {
      forall p | PathTo(g, p, b) ensures a in p { AboveOnPath(g, t, po, a, b, p); }
    }
    if Dominates(g, a, b) && a != b {
      if b == 0 { OnlyEntryDominatesEntry(g, a); }
      assert StrictlyDominates(g, a, b);
      AboveIsDominates(g, t, po, a, t[b]);
    }
  }

  lemma RestIsImmediate(g: Graph, t: Parents, po: map<int, int>, b: int)
    requires Complete(g, t, po) && b in t && b != 0
    ensures ImmediateDominator(g, t[b], b)
  {
    assert Above(t, po, t[b], t[b]);
    AboveIsDominates(g, t, po, t[b], b);
  }

  /** Exactly the reachable blocks, each with its immediate dominator; the entry is
      its own. */
  ghost predicate DominatorTree(g: Graph, idom: Parents) {
    && (forall b :: b in idom <==> IsBlock(g, b) && Reachable(g, b))
    && 0 in idom && idom[0] == 0
    && (forall b :: b in idom && b != 0 ==> ImmediateDominator(g, idom[b], b))
  }

  lemma RestIsTree(g: Graph, t: Parents, po: map<int, int>)
    requires Complete(g, t, po)
    ensures DominatorTree(g, t)
  {
    forall b | b in t && b != 0 ensures ImmediateDominator(g, t[b], b) { RestIsImmediate(g, t, po, b); }
    assert forall b :: b in t <==> b in po;
    hide ImmediateDominator, KeepsDominators, AtRest, Settled;
  }

  lemma BetweenStarts(g: Graph, po: map<int, int>)
    requires ValidGraph(g) && Numbering(g, po)
    ensures Between(g, map[0 := 0], po)
  {
  }

  /** A finished tree together with the numbers that order it. */
  ghost predicate Complete(g: Graph, t: Parents, po: map<int, int>) {
    Between(g, t, po) && t.Keys == po.Keys && AtRest(g, t, po, 0)
  }

  method ComputeDominators(g: Graph) returns (idom: Parents, ghost po: map<int, int>)
    requires ValidGraph(g)
    ensures DominatorTree(g, idom)
    ensures Complete(g, idom, po)
  {
    hide *;
    var order := ReversePostorder(g);
    EnumerationDistinct(g, order);
    var numbers := PostorderIndex(order);
    OrderNumbers(g, order, numbers);
    idom := map[0 := 0];
    BetweenStarts(g, numbers);
    var changed := true;
    while changed
      invariant Between(g, idom, numbers)
      invariant !changed ==> Complete(g, idom, numbers)
      decreases Cost(idom, numbers, order), changed
    {
      idom, changed := Pass(g, order, numbers, idom);
      if !changed { CompleteFrom(g, idom, numbers); }
    }
    po := numbers;
    RestIsTree(g, idom, po);
  }

  lemma CompleteFrom(g: Graph, t: Parents, po: map<int, int>)
    requires Between(g, t, po) && t.Keys == po.Keys && AtRest(g, t, po, 0)
    ensures Complete(g, t, po)
  {
  }

  lemma EnumerationDistinct(g: Graph, order: seq<int>)
    requires Enumeration(g, order)
    ensures DistinctInts(order)
  {
  }
}
