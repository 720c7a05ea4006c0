/** Splitting critical edges (cc/ssa.py:668-727): an edge from a block with several
    successors to a block with several predecessors gets a block of its own, on the
    recorded edges.  New blocks are numbered behind the old ones. */
module EdgeSplitting {
  import opened Common
  import opened IR
  import opened Cfg
  import opened BlockRuns

  /** Where `x` first occurs. */
  function FirstIndex(s: seq<int>, x: int): (k: nat)
    ensures k <= |s| && (x in s <==> k < |s|) && (k < |s| ==> s[k] == x) && forall j :: 0 <= j < k ==> s[j] != x
  {
    if s == [] || s[0] == x then 0 else 1 + FirstIndex(s[1..], x)
  }

  /** The edge in slot `i` of block `b`'s successors. */
  predicate Critical(g: Graph, b: int, i: int)
    requires 0 <= b < |g.succ| && 0 <= i < |g.succ[b]|
  {
    |g.succ[b]| >= 2 && 0 <= g.succ[b][i] < |g.pred| && |g.pred[g.succ[b][i]]| >= 2
  }

  /** One edge from `b` to `c`, led through a new block. */
  function SplitEdge(r: Graph, b: int, c: int): Graph
    requires |r.pred| == |r.succ| && 0 <= b < |r.succ| && 0 <= c < |r.succ| && c in r.succ[b] && b in r.pred[c]
  {
    var n := |r.succ|;
    Graph(r.succ[b := r.succ[b][FirstIndex(r.succ[b], c) := n]] + [[c]], r.pred[c := r.pred[c][FirstIndex(r.pred[c], b) := n]] + [[b]])
  }

  // ----- The edge lists keep matching -----

  lemma CountUpdate(s: seq<int>, k: nat, x: int, y: int)
    requires k < |s|
    ensures multiset(s[k := x])[y] == multiset(s)[y] - (if s[k] == y then 1 else 0) + (if x == y then 1 else 0)
  {
    assert s == s[..k] + [s[k]] + s[k + 1..];
    assert s[k := x] == s[..k] + [x] + s[k + 1..];
  }

  lemma CountNotIn(s: seq<int>, x: int)
    ensures x !in s ==> multiset(s)[x] == 0
  {
  }

  lemma CountOutside(g: Graph, p: int, x: int)
    requires ValidGraph(g) && 0 <= p < |g.succ| && !(0 <= x < |g.succ|)
    ensures multiset(g.succ[p])[x] == 0 && multiset(g.pred[p])[x] == 0
  {
    CountNotIn(g.succ[p], x);
    CountNotIn(g.pred[p], x);
  }

  lemma CountIs(g: Graph, p: int, q: int)
    requires EdgesCounted(g) && 0 <= p < |g.succ| && 0 <= q < |g.succ|
    ensures multiset(g.pred[q])[p] == multiset(g.succ[p])[q]
  {
  }

  lemma SplitLists(r: Graph, b: int, c: int, p: int, q: int)
    requires |r.pred| == |r.succ| && 0 <= b < |r.succ| && c in r.succ[b] && 0 <= c < |r.succ| && b in r.pred[c]
    requires 0 <= p <= |r.succ| && 0 <= q <= |r.succ|
    ensures var z, n := SplitEdge(r, b, c), |r.succ|;
      && z.succ[p] == (if p == n then [c] else if p == b then r.succ[b][FirstIndex(r.succ[b], c) := n] else r.succ[p])
      && z.pred[q] == (if q == n then [b] else if q == c then r.pred[c][FirstIndex(r.pred[c], b) := n] else r.pred[q])
  {
    hide FirstIndex;
  }

  lemma SplitCount(r: Graph, b: int, c: int, p: int, q: int)
    requires ValidGraph(r) && EdgesCounted(r) && 0 <= b < |r.succ| && c in r.succ[b] && 0 <= c < |r.succ| && b in r.pred[c]
    requires 0 <= p <= |r.succ| && 0 <= q <= |r.succ|
    ensures var z := SplitEdge(r, b, c); multiset(z.pred[q])[p] == multiset(z.succ[p])[q]
  {
    var n := |r.succ|;
    SplitLists(r, b, c, p, q);
    hide SplitEdge;
    if p < n {
      CountOutside(r, p, n);
      if q < n { CountIs(r, p, q); }
    }
    if q < n { CountOutside(r, q, n); }
    CountUpdate(r.succ[b], FirstIndex(r.succ[b], c), n, q);
    CountUpdate(r.pred[c], FirstIndex(r.pred[c], b), n, p);
    hide ValidGraph, EdgesCounted, FirstIndex;
  }

  lemma UpdateMembers(s: seq<int>, k: nat, y: int, x: int)
    requires k < |s|
    ensures x in s[k := y] ==> x in s || x == y
  {
  }

  lemma SplitInside(r: Graph, b: int, c: int, p: int, x: int)
    requires ValidGraph(r) && 0 <= b < |r.succ| && c in r.succ[b] && 0 <= c < |r.succ| && b in r.pred[c] && 0 <= p <= |r.succ|
    requires var z := SplitEdge(r, b, c); x in z.succ[p] || x in z.pred[p]
    ensures 0 <= x <= |r.succ|
  {
    UpdateMembers(r.succ[b], FirstIndex(r.succ[b], c), |r.succ|, x);
    UpdateMembers(r.pred[c], FirstIndex(r.pred[c], b), |r.succ|, x);
    hide FirstIndex;
  }

  /** Splitting an edge leaves a graph whose edge lists match. */
  lemma SplitValid(r: Graph, b: int, c: int)
    requires ValidGraph(r) && EdgesCounted(r) && 0 <= b < |r.succ| && c in r.succ[b]
    ensures 0 <= c < |r.succ| && b in r.pred[c]
    ensures ValidGraph(SplitEdge(r, b, c)) && EdgesCounted(SplitEdge(r, b, c))
  {
    var z, n := SplitEdge(r, b, c), |r.succ|;
    assert |z.succ| == n + 1 && |z.pred| == n + 1;
    hide SplitEdge, FirstIndex, ValidGraph, EdgesCounted;
    forall p, q | 0 <= p <= n && 0 <= q <= n ensures multiset(z.pred[q])[p] == multiset(z.succ[p])[q] { SplitCount(r, b, c, p, q); }
    forall p, x | 0 <= p <= n && (x in z.succ[p] || x in z.pred[p]) ensures 0 <= x <= n { SplitInside(r, b, c, p, x); }
    CountedIsValid(z);
  }

  // ----- One slot after another -----

  /** A critical edge now passes through a block that has no other edges; any other
      edge is as it was. */
  ghost predicate SlotDone(g: Graph, r: Graph, x: int, k: int)
    requires 0 <= x < |g.succ| && 0 <= k < |g.succ[x]| && x < |r.succ| && k < |r.succ[x]| && |r.pred| == |r.succ|
  {
    var now := r.succ[x][k];
    if Critical(g, x, k) then |g.succ| <= now < |r.succ| && r.succ[now] == [g.succ[x][k]] && r.pred[now] == [x]
    else now == g.succ[x][k]
  }

  ghost predicate SlotIs(g: Graph, r: Graph, b: int, i: int, x: int, k: int)
    requires 0 <= x < |g.succ| && 0 <= k < |g.succ[x]| && x < |r.succ| && k < |r.succ[x]| && |r.pred| == |r.succ|
  {
    if x < b || (x == b && k < i) then SlotDone(g, r, x, k) else r.succ[x][k] == g.succ[x][k]
  }

  ghost predicate OldBlock(g: Graph, r: Graph, b: int, i: int, x: int)
    requires 0 <= x < |g.succ| == |g.pred| && x < |r.succ| && |r.pred| == |r.succ|
  {
    |r.succ[x]| == |g.succ[x]| && |r.pred[x]| == |g.pred[x]| && forall k :: 0 <= k < |g.succ[x]| ==> SlotIs(g, r, b, i, x, k)
  }

  /** What the splitting has done before slot `i` of block `b`. */
  ghost predicate SplitUpTo(g: Graph, r: Graph, b: int, i: int) {
    && ValidGraph(g) && ValidGraph(r) && EdgesCounted(r) && |g.pred| == |g.succ| <= |r.succ| == |r.pred|
    && (forall x :: 0 <= x < |g.succ| ==> OldBlock(g, r, b, i, x))
    && (forall n :: |g.succ| <= n < |r.succ| ==> |r.succ[n]| == 1 && |r.pred[n]| == 1 && 0 <= r.succ[n][0] < |g.succ|)
  }

  lemma SlotNow(g: Graph, r: Graph, b: int, i: int)
    requires SplitUpTo(g, r, b, i) && 0 <= b < |g.succ| && 0 <= i < |g.succ[b]|
    ensures b < |r.succ| && i < |r.succ[b]| && r.succ[b][i] == g.succ[b][i] && 0 <= g.succ[b][i] < |g.succ|
    ensures Critical(g, b, i) ==> FirstIndex(r.succ[b], g.succ[b][i]) == i
  {
    assert OldBlock(g, r, b, i, b);
    assert SlotIs(g, r, b, i, b, i);
    var c := g.succ[b][i];
    assert c in g.succ[b];
    if Critical(g, b, i) {
      forall j | 0 <= j < i ensures r.succ[b][j] != c { assert SlotIs(g, r, b, i, b, j); }
    }
    hide EdgesCounted, ValidGraph;
  }

  /** A new block goes in; what was done stays done. */
  lemma OtherSlot(g: Graph, r: Graph, b: int, i: int, x: int, k: int)
    requires SplitUpTo(g, r, b, i) && 0 <= b < |g.succ| && 0 <= i < |g.succ[b]| && Critical(g, b, i)
    requires 0 <= x < |g.succ| && 0 <= k < |g.succ[x]|
    requires g.succ[b][i] in r.succ[b] && 0 <= g.succ[b][i] < |g.succ| && b in r.pred[g.succ[b][i]] && FirstIndex(r.succ[b], g.succ[b][i]) == i
    ensures var z := SplitEdge(r, b, g.succ[b][i]); x < |z.succ| && |z.succ[x]| == |g.succ[x]| && |z.pred[x]| == |g.pred[x]| && |z.pred| == |z.succ|
    ensures SlotIs(g, SplitEdge(r, b, g.succ[b][i]), b, i + 1, x, k)
  {
    var c := g.succ[b][i];
    assert OldBlock(g, r, b, i, x);
    assert OldBlock(g, r, b, i, b);
    assert SlotIs(g, r, b, i, x, k);
    hide SplitUpTo, FirstIndex, OldBlock, Critical;
    var z := SplitEdge(r, b, c);
    assert z.succ[x] == if x == b then r.succ[b][i := |r.succ|] else r.succ[x];
    assert forall n :: |g.succ| <= n < |r.succ| ==> z.succ[n] == r.succ[n] && z.pred[n] == r.pred[n];
    assert z.succ[|r.succ|] == [c] && z.pred[|r.succ|] == [b];
    hide SplitEdge;
  }

  lemma OldBlockSizes(g: Graph, r: Graph, b: int, i: int, x: int)
    requires SplitUpTo(g, r, b, i) && 0 <= b < |g.succ| && 0 <= i < |g.succ[b]| && 0 <= x < |g.succ|
    requires g.succ[b][i] in r.succ[b] && 0 <= g.succ[b][i] < |g.succ| && b in r.pred[g.succ[b][i]]
    ensures var z := SplitEdge(r, b, g.succ[b][i]); x < |z.succ| && |z.succ[x]| == |g.succ[x]| && |z.pred[x]| == |g.pred[x]| && |z.pred| == |z.succ|
  {
    assert OldBlock(g, r, b, i, x);
    hide EdgesCounted, ValidGraph, FirstIndex, SlotIs;
  }

  lemma SplitMore(g: Graph, r: Graph, b: int, i: int)
    requires SplitUpTo(g, r, b, i) && 0 <= b < |g.succ| && 0 <= i < |g.succ[b]| && Critical(g, b, i)
    ensures var c := g.succ[b][i]; 0 <= c < |r.succ| == |r.pred| && b < |r.succ| && c in r.succ[b] && b in r.pred[c]
    ensures SplitUpTo(g, SplitEdge(r, b, g.succ[b][i]), b, i + 1)
  {
    SlotNow(g, r, b, i);
    var c, next := g.succ[b][i], i + 1;
    SplitValid(r, b, c);
    var z := SplitEdge(r, b, c);
    forall x | 0 <= x < |g.succ| ensures OldBlock(g, z, b, next, x) {
      OldBlockSizes(g, r, b, i, x);
      forall k | 0 <= k < |g.succ[x]| ensures SlotIs(g, z, b, next, x, k) { OtherSlot(g, r, b, i, x, k); }
      hide SlotIs, SplitEdge;
    }
    NewBlocksStay(g, r, b, i);
    hide OldBlock, FirstIndex, ValidGraph, EdgesCounted, Critical;
  }

  lemma NewBlocksStay(g: Graph, r: Graph, b: int, i: int)
    requires SplitUpTo(g, r, b, i) && 0 <= b < |g.succ| && 0 <= i < |g.succ[b]|
    requires g.succ[b][i] in r.succ[b] && 0 <= g.succ[b][i] < |g.succ| && b in r.pred[g.succ[b][i]]
    ensures var z := SplitEdge(r, b, g.succ[b][i]);
      |z.succ| == |z.pred| && forall n :: |g.succ| <= n < |z.succ| ==> |z.succ[n]| == 1 && |z.pred[n]| == 1 && 0 <= z.succ[n][0] < |g.succ|
  {
    hide OldBlock, FirstIndex, ValidGraph, EdgesCounted;
  }

  lemma SplitSkip(g: Graph, r: Graph, b: int, i: int)
    requires SplitUpTo(g, r, b, i) && 0 <= b < |g.succ| && 0 <= i < |g.succ[b]| && !Critical(g, b, i)
    ensures SplitUpTo(g, r, b, i + 1)
  {
    hide ValidGraph, EdgesCounted, Critical;
    var next := i + 1;
    forall x | 0 <= x < |g.succ| ensures OldBlock(g, r, b, next, x) {
      assert OldBlock(g, r, b, i, x);
      forall k | 0 <= k < |g.succ[x]| ensures SlotIs(g, r, b, next, x, k) { assert SlotIs(g, r, b, i, x, k); }
    }
  }

  lemma SplitNextBlock(g: Graph, r: Graph, b: int)
    requires 0 <= b < |g.succ| && SplitUpTo(g, r, b, |g.succ[b]|)
    ensures SplitUpTo(g, r, b + 1, 0)
  {
    hide ValidGraph, EdgesCounted, Critical;
    var next, n := b + 1, |g.succ[b]|;
    forall x | 0 <= x < |g.succ| ensures OldBlock(g, r, next, 0, x) {
      assert OldBlock(g, r, b, n, x);
      forall k | 0 <= k < |g.succ[x]| ensures SlotIs(g, r, next, 0, x, k) { assert SlotIs(g, r, b, n, x, k); }
    }
  }

  lemma SplitStarts(g: Graph)
    requires ValidGraph(g) && EdgesCounted(g)
    ensures SplitUpTo(g, g, 0, 0)
  {
  }

  // ----- The result -----

  /** No edge leads from a block with several successors to one with several
      predecessors. */
  ghost predicate NoCritical(r: Graph) {
    |r.pred| == |r.succ| && forall p, c :: 0 <= p < |r.succ| && c in r.succ[p] && |r.succ[p]| >= 2 ==> 0 <= c < |r.pred| && |r.pred[c]| < 2
  }

  lemma NoneLeft(g: Graph, r: Graph)
    requires SplitUpTo(g, r, |g.succ|, 0)
    ensures NoCritical(r)
  {
    forall p, c | 0 <= p < |r.succ| && c in r.succ[p] && |r.succ[p]| >= 2 ensures 0 <= c < |r.pred| && |r.pred[c]| < 2 {
      if p < |g.succ| {
        assert OldBlock(g, r, |g.succ|, 0, p);
        var k :| 0 <= k < |r.succ[p]| && r.succ[p][k] == c;
        assert SlotIs(g, r, |g.succ|, 0, p, k);
        var d := g.succ[p][k];
        assert d in g.succ[p];
        assert OldBlock(g, r, |g.succ|, 0, d);
      }
    }
    hide EdgesCounted, SplitUpTo;
  }

  lemma SplitDetours(g: Graph, r: Graph, before: seq<Body>, after: seq<Body>)
    requires SplitUpTo(g, r, |g.succ|, 0) && |g.succ| > 0 && |before| == |g.succ| && |after| == |r.succ| && (forall b :: 0 <= b < |before| ==> after[b] == before[b])
    requires forall b :: |before| <= b < |after| ==> LoneJump(after[b])
    ensures Detoured(g, before, r, after) && |r.pred| == |r.succ| && |r.pred[0]| == |g.pred[0]|
  {
    hide EdgesCounted, ValidGraph;
    assert OldBlock(g, r, |g.succ|, 0, 0);
    forall b | 0 <= b < |before| ensures Detour(r, |g.succ|, g.succ[b], r.succ[b]) {
      assert OldBlock(g, r, |g.succ|, 0, b);
      forall i | 0 <= i < |g.succ[b]| ensures LeadsTo(r, |g.succ|, g.succ[b][i], r.succ[b][i]) {
        assert SlotIs(g, r, |g.succ|, 0, b, i);
        hide Critical, OldBlock;
      }
    }
  }

  lemma GraphHasEntry(g: Graph)
    requires ValidGraph(g)
    ensures |g.pred| == |g.succ| > 0
  {
  }

  function SplitBlock(): (code: Body)
    ensures LoneJump(code)
  {
    [Jump(".ssa_split")]
  }

  lemma SplitGrows(r: Graph, b: int, c: int)
    requires |r.pred| == |r.succ| && 0 <= b < |r.succ| && 0 <= c < |r.succ| && c in r.succ[b] && b in r.pred[c]
    ensures |SplitEdge(r, b, c).succ| == |r.succ| + 1
  {
  }

  lemma SplitIsValid(g: Graph, r: Graph, b: int, i: int)
    requires SplitUpTo(g, r, b, i)
    ensures ValidGraph(r) && EdgesCounted(r)
  {
  }

  /** Puts a new block on the edge from `b` to `c`. */
  method SplitOne(r: Graph, b: int, c: int) returns (z: Graph)
    requires |r.pred| == |r.succ| && 0 <= b < |r.succ| && 0 <= c < |r.succ| && c in r.succ[b] && b in r.pred[c]
    ensures z == SplitEdge(r, b, c)
  {
    var split := |r.succ|;
    var at := FirstIndex(r.succ[b], c);
    var succ := r.succ[b := r.succ[b][at := split]];
    at := FirstIndex(r.pred[c], b);
    var pred := r.pred[c := r.pred[c][at := split]];
    z := Graph(succ + [[c]], pred + [[b]]);
  }

  /** Splits every critical edge, and no other; every run does as before. */
  method SplitCriticalEdges(codes0: seq<Body>, g: Graph) returns (codes: seq<Body>, r: Graph)
    requires ValidGraph(g) && EdgesCounted(g) && |codes0| == |g.succ|
    ensures ValidGraph(r) && EdgesCounted(r) && NoCritical(r) && SplitUpTo(g, r, |g.succ|, 0)
    ensures Detoured(g, codes0, r, codes) && |r.pred[0]| == |g.pred[0]|
  {
    hide *;
    r, codes := g, codes0;
    SplitStarts(g);
    GraphHasEntry(g);
    for b := 0 to |g.succ|
      invariant SplitUpTo(g, r, b, 0) && |codes| == |r.succ| >= |codes0| && forall x :: 0 <= x < |codes0| ==> codes[x] == codes0[x]
      invariant forall x :: |codes0| <= x < |codes| ==> LoneJump(codes[x])
    {
      for i := 0 to |g.succ[b]|
        invariant SplitUpTo(g, r, b, i) && |codes| == |r.succ| >= |codes0| && forall x :: 0 <= x < |codes0| ==> codes[x] == codes0[x]
        invariant forall x :: |codes0| <= x < |codes| ==> LoneJump(codes[x])
      {
        if Critical(g, b, i) {
          SplitMore(g, r, b, i);
          var c := g.succ[b][i];
          SplitGrows(r, b, c);
          r := SplitOne(r, b, c);
          codes := codes + [SplitBlock()];
        } else {
          SplitSkip(g, r, b, i);
        }
      }
      SplitNextBlock(g, r, b);
    }
    NoneLeft(g, r);
    SplitDetours(g, r, codes0, codes);
    SplitIsValid(g, r, |g.succ|, 0);
  }
}
