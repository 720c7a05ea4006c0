/** Paths and dominance in a control-flow graph, and the depth-first numbering
    that the dominator algorithm needs (cc/cfg.py:172-208). */
module Dominance {
  import opened Cfg

  predicate IsBlock(g: Graph, b: int) { 0 <= b < |g.succ| }

  /** A path from the entry. */
  ghost predicate IsPath(g: Graph, p: seq<int>) {
    && p != [] && p[0] == 0
    && (forall i :: 0 <= i < |p| ==> IsBlock(g, p[i]))
    && (forall i :: 0 < i < |p| ==> p[i] in g.succ[p[i - 1]])
  }

  ghost predicate PathTo(g: Graph, p: seq<int>, b: int) {
    IsPath(g, p) && p[|p| - 1] == b
  }

  ghost predicate Reachable(g: Graph, b: int) {
    exists p :: PathTo(g, p, b)
  }

  /** Every path from the entry to `b` goes through `d`. */
  ghost predicate Dominates(g: Graph, d: int, b: int) {
    forall p :: PathTo(g, p, b) ==> d in p
  }

  ghost predicate StrictlyDominates(g: Graph, d: int, b: int) {
    d != b && Dominates(g, d, b)
  }

  lemma PathExtends(g: Graph, p: seq<int>, a: int, b: int)
    requires ValidGraph(g) && PathTo(g, p, a) && b in g.succ[a]
    ensures PathTo(g, p + [b], b)
  {
    var q := p + [b];
    forall i | 0 < i < |q| ensures q[i] in g.succ[q[i - 1]] {
      if i < |p| { assert p[i] in g.succ[p[i - 1]]; }
    }
  }

  lemma PathPrefix(g: Graph, p: seq<int>, n: int)
    requires IsPath(g, p) && 0 < n <= |p|
    ensures PathTo(g, p[..n], p[n - 1])
  {
    var q := p[..n];
    forall i | 0 < i < |q| ensures q[i] in g.succ[q[i - 1]] {
      assert p[i] in g.succ[p[i - 1]];
    }
  }

  lemma EntryReachable(g: Graph)
    requires ValidGraph(g)
    ensures PathTo(g, [0], 0) && Reachable(g, 0)
  {
    assert PathTo(g, [0], 0);
  }

  lemma ReachableNext(g: Graph, a: int, b: int)
    requires ValidGraph(g) && Reachable(g, a) && IsBlock(g, a) && b in g.succ[a]
    ensures Reachable(g, b)
  {
    var p :| PathTo(g, p, a);
    PathExtends(g, p, a, b);
  }

  lemma OnlyEntryDominatesEntry(g: Graph, d: int)
    requires ValidGraph(g) && Dominates(g, d, 0)
    ensures d == 0
  {
    EntryReachable(g);
    assert d in [0];
  }

  /** A strict dominator of a block dominates its predecessors. */
  lemma DominatesPredecessor(g: Graph, d: int, a: int, b: int)
    requires ValidGraph(g) && IsBlock(g, a) && b in g.succ[a] && StrictlyDominates(g, d, b)
    ensures Dominates(g, d, a)
  {
    forall p | PathTo(g, p, a) ensures d in p {
      PathExtends(g, p, a, b);
      assert d in p + [b];
    }
  }

  // ----- Depth-first search -----

  datatype Frame = Frame(block: int, remaining: seq<int>)

  function Blocks(stack: seq<Frame>): seq<int> {
    seq(|stack|, i requires 0 <= i < |stack| => stack[i].block)
  }

  ghost predicate Among(x: int, path: seq<int>, post: seq<int>, i: int)
    requires 0 <= i < |post|
  {
    x in path || x in post[i + 1..]
  }

  /** A finished block's strict dominators, and one of its predecessors, finish later. */
  ghost predicate FinishesFirst(g: Graph, post: seq<int>, path: seq<int>, i: int)
    requires 0 <= i < |post|
  {
    && (forall d :: StrictlyDominates(g, d, post[i]) ==> Among(d, path, post, i))
    && (post[i] != 0 ==> exists p :: IsBlock(g, p) && post[i] in g.succ[p] && Among(p, path, post, i))
  }

  ghost predicate AllFinishFirst(g: Graph, post: seq<int>, path: seq<int>) {
    forall i {:trigger FinishesFirst(g, post, path, i)} :: 0 <= i < |post| ==> FinishesFirst(g, post, path, i)
  }

  predicate DistinctInts(s: seq<int>) {
    forall i, j :: 0 <= i < j < |s| ==> s[i] != s[j]
  }

  /** Growing what finishes later keeps the order. */
  lemma FinishesFirstGrows(g: Graph, post: seq<int>, path: seq<int>, path': seq<int>, more: seq<int>)
    requires AllFinishFirst(g, post, path)
    requires forall x :: x in path ==> x in path' || x in more
    ensures forall i {:trigger FinishesFirst(g, post + more, path', i)} :: 0 <= i < |post| ==> FinishesFirst(g, post + more, path', i)
  {
    var all := post + more;
    forall i | 0 <= i < |post| ensures FinishesFirst(g, all, path', i) {
      assert FinishesFirst(g, post, path, i);
      assert all[i] == post[i] && all[i + 1..] == post[i + 1..] + more;
      assert forall x :: Among(x, path, post, i) ==> Among(x, path', all, i);
    }
  }

  /** The block on top of the stack may finish: the stack is a path to it. */
  lemma TopFinishes(g: Graph, post: seq<int>, path: seq<int>)
    requires IsPath(g, path) && AllFinishFirst(g, post, path)
    ensures AllFinishFirst(g, post + [path[|path| - 1]], path[..|path| - 1])
  {
    var last := |path| - 1;
    var top := path[last];
    var all := post + [top];
    assert path == path[..last] + [top];
    FinishesFirstGrows(g, post, path, path[..last], [top]);
    forall d | StrictlyDominates(g, d, top) ensures Among(d, path[..last], all, |post|) {
      assert PathTo(g, path, top);
    }
    if top != 0 {
      var p := path[last - 1];
      assert path[..last][last - 1] == p;
      assert IsBlock(g, p) && top in g.succ[p] && Among(p, path[..last], all, |post|);
    }
    assert FinishesFirst(g, all, path[..last], |post|);
  }

  /** A frame still owes a visit only to blocks in `remaining`. */
  ghost predicate FrameOk(g: Graph, visited: set<int>, f: Frame) {
    && IsBlock(g, f.block)
    && (forall s :: s in f.remaining ==> s in g.succ[f.block])
    && (forall s :: s in g.succ[f.block] ==> s in visited || s in f.remaining)
  }

  ghost predicate Closed(g: Graph, visited: set<int>, post: seq<int>) {
    forall b, s :: b in post && IsBlock(g, b) && s in g.succ[b] ==> s in visited
  }

  ghost predicate AllReachable(g: Graph, visited: set<int>) {
    forall b :: b in visited ==> IsBlock(g, b) && Reachable(g, b)
  }

  ghost predicate Search(g: Graph, visited: set<int>, post: seq<int>, stack: seq<Frame>) {
    && (stack != [] ==> IsPath(g, Blocks(stack)))
    && DistinctInts(post + Blocks(stack))
    && (forall b :: b in visited <==> b in post || b in Blocks(stack))
    && Closed(g, visited, post)
    && (forall i :: 0 <= i < |stack| ==> FrameOk(g, visited, stack[i]))
    && AllReachable(g, visited) && 0 in visited
    && AllFinishFirst(g, post, Blocks(stack))
  }

  lemma SearchStarts(g: Graph)
    requires ValidGraph(g)
    ensures Search(g, {0}, [], [Frame(0, g.succ[0])])
  {
    EntryReachable(g);
  }

  lemma BlocksSplit(stack: seq<Frame>, f: Frame)
    ensures Blocks(stack + [f]) == Blocks(stack) + [f.block]
  {
  }

  /** A successor already seen is passed over. */
  lemma SearchSkips(g: Graph, visited: set<int>, post: seq<int>, stack: seq<Frame>, top: Frame)
    requires Search(g, visited, post, stack + [top]) && top.remaining != [] && top.remaining[0] in visited
    ensures Search(g, visited, post, stack + [top.(remaining := top.remaining[1..])])
  {
    var next := top.(remaining := top.remaining[1..]);
    BlocksSplit(stack, top);
    BlocksSplit(stack, next);
    assert top.remaining == [top.remaining[0]] + next.remaining;
    assert (stack + [top])[|stack|] == top;
    assert FrameOk(g, visited, next);
    forall i | 0 <= i < |stack + [next]| ensures FrameOk(g, visited, (stack + [next])[i]) {
      if i < |stack| { assert (stack + [top])[i] == stack[i]; }
    }
    hide FrameOk, Closed, AllReachable, AllFinishFirst, IsPath, DistinctInts, Blocks;
  }

  lemma FrameGrows(g: Graph, visited: set<int>, more: set<int>, f: Frame)
    requires FrameOk(g, visited, f)
    ensures FrameOk(g, visited + more, f)
  {
  }

  lemma ToEnter(g: Graph, visited: set<int>, top: Frame)
    requires ValidGraph(g) && FrameOk(g, visited, top) && top.remaining != []
    ensures IsBlock(g, top.block) && IsBlock(g, top.remaining[0]) && 0 <= top.remaining[0] < |g.succ|
    ensures 0 <= top.block < |g.succ| && top.remaining[0] in g.succ[top.block]
  {
    assert top.remaining[0] in top.remaining;
  }

  lemma PathIsTo(g: Graph, p: seq<int>)
    requires IsPath(g, p)
    ensures p != [] && PathTo(g, p, p[|p| - 1])
  {
  }

  lemma ClosedGrows(g: Graph, visited: set<int>, post: seq<int>, b: int)
    requires Closed(g, visited, post)
    ensures Closed(g, visited + {b}, post)
  {
  }

  /** The frame that is left behind, and the one that is entered. */
  lemma FramesNew(g: Graph, visited: set<int>, top: Frame)
    requires ValidGraph(g) && FrameOk(g, visited, top) && top.remaining != [] && IsBlock(g, top.remaining[0]) && 0 <= top.remaining[0] < |g.succ|
    ensures FrameOk(g, visited + {top.remaining[0]}, top.(remaining := top.remaining[1..]))
    ensures FrameOk(g, visited + {top.remaining[0]}, Frame(top.remaining[0], g.succ[top.remaining[0]]))
  {
    assert top.remaining == [top.remaining[0]] + top.remaining[1..];
  }

  /** An unseen successor is entered: the stack stays a path. */
  lemma SearchEnters(g: Graph, visited: set<int>, post: seq<int>, stack: seq<Frame>, top: Frame)
    requires ValidGraph(g) && Search(g, visited, post, stack + [top]) && top.remaining != [] && top.remaining[0] !in visited
    ensures var b := top.remaining[0];
      && IsBlock(g, b)
      && Search(g, visited + {b}, post, stack + [top.(remaining := top.remaining[1..])] + [Frame(b, g.succ[b])])
  {
    hide *;
    var b := top.remaining[0];
    var next := top.(remaining := top.remaining[1..]);
    var all, path := stack + [top], Blocks(stack) + [top.block];
    assert all[|stack|] == top;
    BlocksSplit(stack, top);
    SearchFacts(g, visited, post, all);
    ToEnter(g, visited, top);
    var child := Frame(b, g.succ[b]);
    BlocksSplit(stack, next);
    BlocksSplit(stack + [next], child);
    PathIsTo(g, path);
    PathExtends(g, path, top.block, b);
    PathToIsPath(g, path + [b], b);
    EntersReachable(g, visited, path, top.block, b);
    EntersOrder(g, post, path, b);
    EntersDistinct(visited, post, path, b);
    ClosedGrows(g, visited, post, b);
    var grown := stack + [next] + [child];
    forall i | 0 <= i < |grown| ensures FrameOk(g, visited + {b}, grown[i]) {
      if i < |stack| {
        assert all[i] == stack[i] == grown[i];
        FrameGrows(g, visited, {b}, stack[i]);
      } else {
        FramesNew(g, visited, top);
      }
    }
    SearchIs(g, visited + {b}, post, grown);
  }

  lemma EntersReachable(g: Graph, visited: set<int>, path: seq<int>, a: int, b: int)
    requires ValidGraph(g) && AllReachable(g, visited) && PathTo(g, path, a) && IsBlock(g, a) && b in g.succ[a]
    ensures AllReachable(g, visited + {b}) && IsBlock(g, b)
  {
    PathExtends(g, path, a, b);
  }

  lemma EntersOrder(g: Graph, post: seq<int>, path: seq<int>, b: int)
    requires AllFinishFirst(g, post, path)
    ensures AllFinishFirst(g, post, path + [b])
  {
    assert forall x :: x in path ==> x in path + [b];
    FinishesFirstGrows(g, post, path, path + [b], []);
    assert post + [] == post;
  }

  lemma EntersDistinct(visited: set<int>, post: seq<int>, path: seq<int>, b: int)
    requires DistinctInts(post + path) && b !in visited
    requires forall x :: x in visited <==> x in post || x in path
    ensures DistinctInts(post + (path + [b]))
    ensures forall x :: x in visited + {b} <==> x in post || x in path + [b]
  {
    assert post + (path + [b]) == (post + path) + [b];
  }

  lemma SearchFacts(g: Graph, visited: set<int>, post: seq<int>, stack: seq<Frame>)
    requires Search(g, visited, post, stack)
    ensures stack != [] ==> IsPath(g, Blocks(stack))
    ensures DistinctInts(post + Blocks(stack)) && Closed(g, visited, post) && AllReachable(g, visited) && 0 in visited
    ensures forall b :: b in visited <==> b in post || b in Blocks(stack)
    ensures forall i :: 0 <= i < |stack| ==> FrameOk(g, visited, stack[i])
    ensures AllFinishFirst(g, post, Blocks(stack))
  {
  }

  lemma SearchIs(g: Graph, visited: set<int>, post: seq<int>, stack: seq<Frame>)
    requires stack != [] ==> IsPath(g, Blocks(stack))
    requires DistinctInts(post + Blocks(stack)) && Closed(g, visited, post) && AllReachable(g, visited) && 0 in visited
    requires forall b :: b in visited <==> b in post || b in Blocks(stack)
    requires forall i :: 0 <= i < |stack| ==> FrameOk(g, visited, stack[i])
    requires AllFinishFirst(g, post, Blocks(stack))
    ensures Search(g, visited, post, stack)
  {
  }

  lemma PathToIsPath(g: Graph, p: seq<int>, b: int)
    requires PathTo(g, p, b)
    ensures IsPath(g, p)
  {
  }

  lemma BlocksLength(stack: seq<Frame>)
    ensures |Blocks(stack)| == |stack|
  {
  }

  /** Everything a finished frame leads to has been visited. */
  lemma ClosedMore(g: Graph, visited: set<int>, post: seq<int>, top: Frame)
    requires Closed(g, visited, post) && FrameOk(g, visited, top) && top.remaining == []
    ensures Closed(g, visited, post + [top.block])
  {
  }

  lemma SearchFinishes(g: Graph, visited: set<int>, post: seq<int>, stack: seq<Frame>, top: Frame)
    requires Search(g, visited, post, stack + [top]) && top.remaining == []
    ensures Search(g, visited, post + [top.block], stack)
  {
    hide *;
    var all, path := stack + [top], Blocks(stack) + [top.block];
    BlocksSplit(stack, top);
    BlocksLength(stack);
    SearchFacts(g, visited, post, all);
    assert path[..|path| - 1] == Blocks(stack) && path[|path| - 1] == top.block;
    TopFinishes(g, post, path);
    if stack != [] {
      PathPrefix(g, path, |path| - 1);
      PathToIsPath(g, path[..|path| - 1], path[|path| - 2]);
    }
    FinishDistinct(post, Blocks(stack), top.block);
    assert all[|stack|] == top;
    ClosedMore(g, visited, post, top);
    forall i | 0 <= i < |stack| ensures FrameOk(g, visited, stack[i]) {
      assert all[i] == stack[i];
    }
    SearchIs(g, visited, post + [top.block], stack);
  }

  lemma FinishDistinct(post: seq<int>, path: seq<int>, b: int)
    requires DistinctInts(post + (path + [b]))
    ensures DistinctInts(post + [b] + path)
  {
    var all := post + (path + [b]);
    var next := post + [b] + path;
    forall i, j | 0 <= i < j < |next| ensures next[i] != next[j] {
      var i' := if i < |post| then i else if i == |post| then |all| - 1 else i - 1;
      var j' := if j < |post| then j else if j == |post| then |all| - 1 else j - 1;
      assert all[i'] == next[i] && all[j'] == next[j] && i' != j';
    }
  }

  ghost function Weight(stack: seq<Frame>): nat {
    if stack == [] then 0 else Weight(stack[..|stack| - 1]) + 1 + |stack[|stack| - 1].remaining|
  }

  ghost function Unseen(g: Graph, visited: set<int>): set<int> {
    set b | 0 <= b < |g.succ| && IsBlock(g, b) && b !in visited
  }

  /** The entry-first order of the blocks: each block after its strict dominators
      and after at least one of its predecessors. */
  ghost predicate Ordered(g: Graph, order: seq<int>, i: int)
    requires 0 <= i < |order|
  {
    && (forall d :: StrictlyDominates(g, d, order[i]) ==> d in order[..i])
    && (order[i] != 0 ==> exists p :: IsBlock(g, p) && order[i] in g.succ[p] && p in order[..i])
  }

  ghost predicate Enumeration(g: Graph, order: seq<int>) {
    && DistinctInts(order)
    && (forall b :: b in order <==> IsBlock(g, b) && Reachable(g, b))
    && (forall i {:trigger Ordered(g, order, i)} :: 0 <= i < |order| ==> Ordered(g, order, i))
  }

  lemma {:induction false} ClosedCoversPath(g: Graph, visited: set<int>, post: seq<int>, p: seq<int>, n: nat)
    requires Closed(g, visited, post) && 0 in visited && IsPath(g, p) && n < |p|
    requires forall b :: b in visited ==> b in post
    ensures p[n] in post
  {
    if n > 0 {
      ClosedCoversPath(g, visited, post, p, n - 1);
      assert p[n] in g.succ[p[n - 1]];
    }
  }

  function Reverse(s: seq<int>): seq<int> {
    seq(|s|, i requires 0 <= i < |s| => s[|s| - 1 - i])
  }

  lemma ReverseTail(post: seq<int>, i: int, x: int)
    requires 0 <= i < |post| && x in post[i + 1..]
    ensures x in Reverse(post)[..|post| - 1 - i]
  {
    var j :| 0 <= j < |post[i + 1..]| && post[i + 1..][j] == x;
    assert Reverse(post)[..|post| - 1 - i][|post| - 1 - (i + 1 + j)] == x;
  }

  lemma ReverseMembers(post: seq<int>)
    ensures forall x :: x in Reverse(post) <==> x in post
    ensures DistinctInts(post) ==> DistinctInts(Reverse(post))
  {
    var r := Reverse(post);
    forall x | x in post ensures x in r {
      var i :| 0 <= i < |post| && post[i] == x;
      assert r[|post| - 1 - i] == x;
    }
  }

  lemma ReverseOrdered(g: Graph, post: seq<int>, i: int)
    requires AllFinishFirst(g, post, []) && 0 <= i < |post|
    ensures Ordered(g, Reverse(post), i)
  {
    var k := |post| - 1 - i;
    var b := post[k];
    var before := Reverse(post)[..i];
    assert FinishesFirst(g, post, [], k);
    forall d | StrictlyDominates(g, d, b) ensures d in before {
      assert Among(d, [], post, k);
      ReverseTail(post, k, d);
    }
    if b != 0 {
      var p :| IsBlock(g, p) && b in g.succ[p] && Among(p, [], post, k);
      ReverseTail(post, k, p);
    }
  }

  lemma SearchEnds(g: Graph, visited: set<int>, post: seq<int>)
    requires Search(g, visited, post, [])
    ensures Enumeration(g, Reverse(post))
  {
    assert post + Blocks([]) == post;
    assert Blocks([]) == [];
    ReverseMembers(post);
    forall b | IsBlock(g, b) && Reachable(g, b) ensures b in post {
      var p :| PathTo(g, p, b);
      ClosedCoversPath(g, visited, post, p, |p| - 1);
    }
    assert forall b :: b in post ==> b in visited;
    forall i | 0 <= i < |post| ensures Ordered(g, Reverse(post), i) {
      ReverseOrdered(g, post, i);
    }
  }

  // ----- The search as a recursion -----

  /** What a search has seen, and in what order it has finished. */
  datatype Finished = Finished(seen: set<int>, post: seq<int>)

  /** Depth first through `next`: a block finishes behind all that is entered from it. */
  ghost function Explore(g: Graph, next: seq<int>, seen: set<int>): (r: Finished)
    ensures seen <= r.seen
    decreases |Unseen(g, seen)|, |next|
  {
    if next == [] then Finished(seen, [])
    else
      var b := next[0];
      if b in seen || !IsBlock(g, b) then Explore(g, next[1..], seen)
      else
        UnseenShrinks(g, seen, b);
        var below := Explore(g, g.succ[b], seen + {b});
        UnseenLess(g, seen + {b}, below.seen);
        var after := Explore(g, next[1..], below.seen);
        Finished(after.seen, below.post + [b] + after.post)
  }

  ghost function Postorder(g: Graph): seq<int>
    requires |g.succ| > 0
  {
    Explore(g, g.succ[0], {0}).post + [0]
  }

  /** What is still to finish: the top of the stack first. */
  ghost function ToFinish(g: Graph, stack: seq<Frame>, seen: set<int>): seq<int> {
    if stack == [] then []
    else
      var top := stack[|stack| - 1];
      var r := Explore(g, top.remaining, seen);
      r.post + [top.block] + ToFinish(g, stack[..|stack| - 1], r.seen)
  }

  lemma UnseenLess(g: Graph, seen: set<int>, more: set<int>)
    requires seen <= more
    ensures |Unseen(g, more)| <= |Unseen(g, seen)|
  {
    assert Unseen(g, seen) == Unseen(g, more) + (Unseen(g, seen) - Unseen(g, more));
  }

  lemma ToFinishTop(g: Graph, rest: seq<Frame>, top: Frame, seen: set<int>)
    ensures var r := Explore(g, top.remaining, seen); ToFinish(g, rest + [top], seen) == r.post + [top.block] + ToFinish(g, rest, r.seen)
  {
    assert (rest + [top])[..|rest|] == rest;
  }

  /** Entering a block, or passing one over, leaves what is still to finish as it was. */
  lemma ToFinishStays(g: Graph, rest: seq<Frame>, top: Frame, seen: set<int>)
    requires top.remaining != [] && IsBlock(g, top.remaining[0])
    ensures var b, next := top.remaining[0], top.(remaining := top.remaining[1..]);
      ToFinish(g, rest + [top], seen) ==
        if b in seen then ToFinish(g, rest + [next], seen) else ToFinish(g, rest + [next] + [Frame(b, g.succ[b])], seen + {b})
  {
    hide ToFinish;
    var b, next := top.remaining[0], top.(remaining := top.remaining[1..]);
    ToFinishTop(g, rest, top, seen);
    if b in seen {
      ToFinishTop(g, rest, next, seen);
    } else {
      var below := Explore(g, g.succ[b], seen + {b});
      ToFinishTop(g, rest + [next], Frame(b, g.succ[b]), seen + {b});
      ToFinishTop(g, rest, next, below.seen);
    }
  }

  /** What has finished and what is still to finish make up the postorder. */
  ghost predicate Ahead(g: Graph, post: seq<int>, stack: seq<Frame>, seen: set<int>) {
    |g.succ| > 0 && post + ToFinish(g, stack, seen) == Postorder(g)
  }

  lemma AheadFinishes(g: Graph, post: seq<int>, rest: seq<Frame>, top: Frame, seen: set<int>)
    requires Ahead(g, post, rest + [top], seen) && top.remaining == []
    ensures Ahead(g, post + [top.block], rest, seen)
  {
    ToFinishTop(g, rest, top, seen);
    assert Explore(g, [], seen) == Finished(seen, []);
    hide ToFinish, Explore;
    assert post + ([] + [top.block] + ToFinish(g, rest, seen)) == post + [top.block] + ToFinish(g, rest, seen);
  }

  lemma AheadStays(g: Graph, post: seq<int>, rest: seq<Frame>, top: Frame, seen: set<int>)
    requires Ahead(g, post, rest + [top], seen) && top.remaining != [] && IsBlock(g, top.remaining[0])
    ensures var b, next := top.remaining[0], top.(remaining := top.remaining[1..]);
      if b in seen then Ahead(g, post, rest + [next], seen) else Ahead(g, post, rest + [next] + [Frame(b, g.succ[b])], seen + {b})
  {
    ToFinishStays(g, rest, top, seen);
    hide ToFinish;
  }

  lemma AheadStarts(g: Graph)
    requires ValidGraph(g)
    ensures |g.succ| > 0 && Ahead(g, [], [Frame(0, g.succ[0])], {0})
  {
    ToFinishTop(g, [], Frame(0, g.succ[0]), {0});
    assert [] + [Frame(0, g.succ[0])] == [Frame(0, g.succ[0])];
    assert ToFinish(g, [], Explore(g, g.succ[0], {0}).seen) == [];
  }

  lemma AheadEnds(g: Graph, post: seq<int>, seen: set<int>)
    requires Ahead(g, post, [], seen)
    ensures |g.succ| > 0 && post == Postorder(g)
  {
  }

  /** Blocks in reverse postorder of the search from the entry; unreachable ones left
      out. */
  method ReversePostorder(g: Graph) returns (order: seq<int>)
    requires ValidGraph(g)
    ensures Enumeration(g, order) && |g.succ| > 0 && order == Reverse(Postorder(g))
  {
    var visited: set<int> := {0};
    var post: seq<int> := [];
    var stack := [Frame(0, g.succ[0])];
    SearchStarts(g);
    AheadStarts(g);
    hide Search, ValidGraph, Ahead, Postorder;
    while stack != []
      invariant ValidGraph(g) && Search(g, visited, post, stack)
      invariant Ahead(g, post, stack, visited)
      decreases |Unseen(g, visited)|, Weight(stack)
    {
      var rest, top := stack[..|stack| - 1], stack[|stack| - 1];
      assert stack == rest + [top];
      if top.remaining != [] {
        var next := top.(remaining := top.remaining[1..]);
        OwedIsBlock(g, visited, post, rest, top);
        AheadStays(g, post, rest, top, visited);
        if top.remaining[0] in visited {
          SearchSkips(g, visited, post, rest, top);
          stack := rest + [next];
        } else {
          SearchEnters(g, visited, post, rest, top);
          var b := top.remaining[0];
          UnseenShrinks(g, visited, b);
          visited := visited + {b};
          stack := rest + [next] + [Frame(b, g.succ[b])];
        }
      } else {
        SearchFinishes(g, visited, post, rest, top);
        AheadFinishes(g, post, rest, top, visited);
        post := post + [top.block];
        stack := rest;
      }
    }
    SearchEnds(g, visited, post);
    AheadEnds(g, post, visited);
    order := Reverse(post);
  }

  lemma OwedIsBlock(g: Graph, visited: set<int>, post: seq<int>, rest: seq<Frame>, top: Frame)
    requires ValidGraph(g) && Search(g, visited, post, rest + [top]) && top.remaining != []
    ensures IsBlock(g, top.remaining[0])
  {
    assert (rest + [top])[|rest|] == top;
    ToEnter(g, visited, top);
  }

  lemma UnseenShrinks(g: Graph, visited: set<int>, b: int)
    requires IsBlock(g, b) && b !in visited
    ensures |Unseen(g, visited + {b})| < |Unseen(g, visited)|
  {
    assert Unseen(g, visited) == Unseen(g, visited + {b}) + {b};
  }
}
