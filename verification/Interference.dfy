/** Chaitin's interference graph (cc/regalloc.py:309-388), proved exact against
    liveness over paths of the flat code. */
module Interference {
  import opened Common
  import opened IR
  import opened Cfg
  import opened Liveness

  type Adjacency = map<string, set<string>>

  predicate Edge(graph: Adjacency, a: string, b: string) { a in graph && b in graph[a] }

  /** Two names joined by a copy. */
  type Move = set<string>

  datatype InterferenceResult = InterferenceResult(
    graph: Adjacency,
    liveAcross: map<int, set<string>>,
    liveAcrossCall: map<string, int>,
    moves: set<Move>)

  // ----- What the results mean -----

  /** Instruction `pc` writes `a` while `b` holds a value still to be read. */
  ghost predicate Clash(body: Body, pc: int, a: string, b: string) {
    0 <= pc < |body| && a != b && a in Defs(body[pc]) && LiveAfter(body, b, pc)
  }

  ghost predicate ClashIn(body: Body, done: set<int>, a: string, b: string) {
    exists pc :: pc in done && (Clash(body, pc, a, b) || Clash(body, pc, b, a))
  }

  predicate IsCall(i: Instruction) { i.Call? || i.TailCall? }

  ghost function CallsOver(body: Body, done: set<int>, name: string): set<int> {
    set pc | pc in done && 0 <= pc < |body| && IsCall(body[pc]) && LiveAfter(body, name, pc)
  }

  /** A copy between two different allocatable names. */
  predicate IsMove(i: Instruction, allocatable: set<string>) {
    i.Copy? && i.source.Name? && i.destination in allocatable && i.source.id in allocatable && i.destination != i.source.id
  }

  function MoveOf(i: Instruction): Move
    requires i.Copy? && i.source.Name?
  {
    {i.destination, i.source.id}
  }

  ghost predicate MoveIn(body: Body, allocatable: set<string>, done: set<int>, move: Move) {
    exists pc :: pc in done && 0 <= pc < |body| && IsMove(body[pc], allocatable) && MoveOf(body[pc]) == move
  }

  function CountOf(counts: map<string, int>, name: string): int {
    if name in counts then counts[name] else 0
  }

  ghost predicate GraphExact(body: Body, allocatable: set<string>, done: set<int>, graph: Adjacency) {
    && graph.Keys == allocatable
    && forall a, b :: Edge(graph, a, b) <==> a in allocatable && b in allocatable && ClashIn(body, done, a, b)
  }

  ghost predicate AcrossExact(body: Body, allocatable: set<string>, done: set<int>, across: map<int, set<string>>) {
    && across.Keys == done
    && forall pc, n :: pc in across && 0 <= pc < |body| ==>
         (n in across[pc] <==> n in allocatable && n !in Defs(body[pc]) && LiveAfter(body, n, pc))
  }

  ghost predicate CountsExact(body: Body, allocatable: set<string>, done: set<int>, counts: map<string, int>) {
    forall n :: n in allocatable ==> CountOf(counts, n) == |CallsOver(body, done, n)|
  }

  ghost predicate MovesExact(body: Body, allocatable: set<string>, done: set<int>, moves: set<Move>) {
    forall m :: m in moves <==> MoveIn(body, allocatable, done, m)
  }

  /** The result describes the instructions in `done`, and only those. */
  ghost predicate Exact(body: Body, allocatable: set<string>, done: set<int>, r: InterferenceResult) {
    && GraphExact(body, allocatable, done, r.graph)
    && AcrossExact(body, allocatable, done, r.liveAcross)
    && CountsExact(body, allocatable, done, r.liveAcrossCall)
    && MovesExact(body, allocatable, done, r.moves)
  }

  /** `live` is what is live after instruction `pc`. */
  ghost predicate LiveSetAfter(body: Body, allocatable: set<string>, pc: int, live: set<string>)
    requires 0 <= pc < |body|
  {
    forall n :: n in live <==> n in allocatable && LiveAfter(body, n, pc)
  }

  // ----- One instruction -----

  function WithEdge(graph: Adjacency, a: string, b: string): Adjacency
    requires a in graph && b in graph
  {
    if a == b then graph
    else
      var one := graph[a := graph[a] + {b}];
      one[b := one[b] + {a}]
  }

  ghost predicate EdgesAdded(before: Adjacency, after: Adjacency, defs: set<string>, live: set<string>) {
    && after.Keys == before.Keys
    && forall a, b :: Edge(after, a, b) <==>
         Edge(before, a, b) || (a != b && ((a in defs && b in live) || (a in live && b in defs)))
  }

  /** Every name in `defs` becomes a neighbour of every other name in `live`. */
  method AddEdges(graph0: Adjacency, defs: set<string>, live: set<string>) returns (graph: Adjacency)
    requires defs <= graph0.Keys && live <= graph0.Keys
    ensures EdgesAdded(graph0, graph, defs, live)
  {
    graph := graph0;
    var left := defs;
    while left != {}
      invariant left <= defs && EdgesAdded(graph0, graph, defs - left, live)
    {
      var d :| d in left;
      graph := AddStar(graph, d, live);
      left := left - {d};
    }
    assert defs - left == defs;
  }

  method AddStar(graph0: Adjacency, d: string, live: set<string>) returns (graph: Adjacency)
    requires d in graph0 && live <= graph0.Keys
    ensures EdgesAdded(graph0, graph, {d}, live)
  {
    graph := graph0;
    var left := live;
    while left != {}
      invariant left <= live && EdgesAdded(graph0, graph, {d}, live - left)
    {
      var n :| n in left;
      OneEdge(graph, d, n);
      graph := WithEdge(graph, d, n);
      left := left - {n};
    }
    assert live - left == live;
  }

  lemma OneEdge(graph: Adjacency, d: string, n: string)
    requires d in graph && n in graph
    ensures EdgesAdded(graph, WithEdge(graph, d, n), {d}, {n})
  {
  }

  method BumpAll(counts0: map<string, int>, live: set<string>) returns (counts: map<string, int>)
    ensures forall n :: CountOf(counts, n) == CountOf(counts0, n) + if n in live then 1 else 0
  {
    counts := counts0;
    var left := live;
    while left != {}
      invariant left <= live
      invariant forall n :: CountOf(counts, n) == CountOf(counts0, n) + if n in live - left then 1 else 0
    {
      var n :| n in left;
      counts := counts[n := CountOf(counts, n) + 1];
      left := left - {n};
    }
  }

  lemma ClashMore(body: Body, done: set<int>, pc: int, a: string, b: string)
    ensures ClashIn(body, done + {pc}, a, b) <==> ClashIn(body, done, a, b) || Clash(body, pc, a, b) || Clash(body, pc, b, a)
  {
    hide Clash;
    if ClashIn(body, done, a, b) {
      var q :| q in done && (Clash(body, q, a, b) || Clash(body, q, b, a));
      assert q in done + {pc};
    }
    if Clash(body, pc, a, b) || Clash(body, pc, b, a) { assert pc in done + {pc}; }
  }

  lemma GraphStep(body: Body, allocatable: set<string>, done: set<int>, pc: int, before: Adjacency, after: Adjacency, live: set<string>)
    requires 0 <= pc < |body| && GraphExact(body, allocatable, done, before) && LiveSetAfter(body, allocatable, pc, live)
    requires EdgesAdded(before, after, Defs(body[pc]) * allocatable, live)
    ensures GraphExact(body, allocatable, done + {pc}, after)
  {
    hide LiveAfter, ClashIn;
    forall a, b { ClashMore(body, done, pc, a, b); }
  }

  lemma CallsMore(body: Body, done: set<int>, pc: int, name: string)
    requires 0 <= pc < |body| && pc !in done
    ensures |CallsOver(body, done + {pc}, name)| == |CallsOver(body, done, name)| + if IsCall(body[pc]) && LiveAfter(body, name, pc) then 1 else 0
  {
    hide LiveAfter;
    if IsCall(body[pc]) && LiveAfter(body, name, pc) {
      assert CallsOver(body, done + {pc}, name) == CallsOver(body, done, name) + {pc};
    } else {
      assert CallsOver(body, done + {pc}, name) == CallsOver(body, done, name);
    }
  }

  lemma CountsStep(body: Body, allocatable: set<string>, done: set<int>, pc: int, before: map<string, int>, after: map<string, int>, live: set<string>)
    requires 0 <= pc < |body| && pc !in done && CountsExact(body, allocatable, done, before) && LiveSetAfter(body, allocatable, pc, live)
    requires forall n :: CountOf(after, n) == CountOf(before, n) + if IsCall(body[pc]) && n in live then 1 else 0
    ensures CountsExact(body, allocatable, done + {pc}, after)
  {
    hide LiveAfter;
    forall n | n in allocatable ensures CountOf(after, n) == |CallsOver(body, done + {pc}, n)| {
      CallsMore(body, done, pc, n);
    }
  }

  lemma MovesStep(body: Body, allocatable: set<string>, done: set<int>, pc: int, before: set<Move>, after: set<Move>)
    requires 0 <= pc < |body| && MovesExact(body, allocatable, done, before)
    requires after == before + if IsMove(body[pc], allocatable) then {MoveOf(body[pc])} else {}
    ensures MovesExact(body, allocatable, done + {pc}, after)
  {
    forall m ensures m in after <==> MoveIn(body, allocatable, done + {pc}, m) {
      if MoveIn(body, allocatable, done, m) {
        var q :| q in done && 0 <= q < |body| && IsMove(body[q], allocatable) && MoveOf(body[q]) == m;
        assert q in done + {pc};
      }
      if m in after && m !in before { assert pc in done + {pc}; }
    }
  }

  lemma ExactFacts(body: Body, allocatable: set<string>, done: set<int>, r: InterferenceResult)
    requires Exact(body, allocatable, done, r)
    ensures GraphExact(body, allocatable, done, r.graph) && AcrossExact(body, allocatable, done, r.liveAcross)
    ensures CountsExact(body, allocatable, done, r.liveAcrossCall) && MovesExact(body, allocatable, done, r.moves)
  {
  }

  lemma MoveShape(i: Instruction, allocatable: set<string>)
    requires IsMove(i, allocatable)
    ensures i.Copy? && i.source.Name?
  {
  }

  lemma NamesInGraph(body: Body, allocatable: set<string>, done: set<int>, r: InterferenceResult, pc: int, live: set<string>)
    requires 0 <= pc < |body| && GraphExact(body, allocatable, done, r.graph) && LiveSetAfter(body, allocatable, pc, live)
    ensures live <= r.graph.Keys && Defs(body[pc]) * allocatable <= r.graph.Keys
  {
    hide LiveAfter, ClashIn;
  }

  lemma ExactAgain(body: Body, allocatable: set<string>, done: set<int>, r: InterferenceResult)
    requires GraphExact(body, allocatable, done, r.graph) && AcrossExact(body, allocatable, done, r.liveAcross)
    requires CountsExact(body, allocatable, done, r.liveAcrossCall) && MovesExact(body, allocatable, done, r.moves)
    ensures Exact(body, allocatable, done, r)
  {
  }

  lemma AcrossKeys(body: Body, allocatable: set<string>, done: set<int>, across: map<int, set<string>>)
    requires AcrossExact(body, allocatable, done, across)
    ensures across.Keys == done
  {
  }

  lemma AcrossMember(body: Body, allocatable: set<string>, done: set<int>, across: map<int, set<string>>, q: int, n: string)
    requires AcrossExact(body, allocatable, done, across) && q in across && 0 <= q < |body|
    ensures n in across[q] <==> n in allocatable && n !in Defs(body[q]) && LiveAfter(body, n, q)
  {
  }

  lemma AcrossIs(body: Body, allocatable: set<string>, done: set<int>, across: map<int, set<string>>)
    requires across.Keys == done
    requires forall q, n :: q in across && 0 <= q < |body| ==> (n in across[q] <==> n in allocatable && n !in Defs(body[q]) && LiveAfter(body, n, q))
    ensures AcrossExact(body, allocatable, done, across)
  {
  }

  lemma LiveSetMember(body: Body, allocatable: set<string>, pc: int, live: set<string>, n: string)
    requires 0 <= pc < |body| && LiveSetAfter(body, allocatable, pc, live)
    ensures n in live <==> n in allocatable && LiveAfter(body, n, pc)
  {
  }

  lemma AcrossStep(body: Body, allocatable: set<string>, done: set<int>, pc: int, before: map<int, set<string>>, after: map<int, set<string>>, live: set<string>)
    requires 0 <= pc < |body| && AcrossExact(body, allocatable, done, before) && LiveSetAfter(body, allocatable, pc, live)
    requires after == before[pc := live - Defs(body[pc]) * allocatable]
    ensures AcrossExact(body, allocatable, done + {pc}, after)
  {
    hide *;
    assert after.Keys == done + {pc} by { AcrossKeys(body, allocatable, done, before); }
    forall q, n | q in after && 0 <= q < |body|
      ensures n in after[q] <==> n in allocatable && n !in Defs(body[q]) && LiveAfter(body, n, q)
    {
      if q == pc {
        LiveSetMember(body, allocatable, pc, live, n);
      } else {
        AcrossMember(body, allocatable, done, before, q, n);
      }
    }
    AcrossIs(body, allocatable, done + {pc}, after);
  }

  /** What one turn of the backward walk records. */
  method Record(i: Instruction, live: set<string>, allocatable: set<string>, r0: InterferenceResult,
                ghost body: Body, ghost done: set<int>, pc: int) returns (r: InterferenceResult)
    requires 0 <= pc < |body| && body[pc] == i && pc !in done
    requires Exact(body, allocatable, done, r0) && LiveSetAfter(body, allocatable, pc, live)
    ensures Exact(body, allocatable, done + {pc}, r)
  {
    hide *;
    ExactFacts(body, allocatable, done, r0);
    NamesInGraph(body, allocatable, done, r0, pc, live);
    var counts := r0.liveAcrossCall;
    if IsCall(i) { counts := BumpAll(counts, live); }
    var defs := Defs(i) * allocatable;
    var across := r0.liveAcross[pc := live - defs];
    var graph := AddEdges(r0.graph, defs, live);
    var moves := r0.moves;
    if IsMove(i, allocatable) {
      MoveShape(i, allocatable);
      moves := moves + {MoveOf(i)};
    }
    GraphStep(body, allocatable, done, pc, r0.graph, graph, live);
    CountsStep(body, allocatable, done, pc, r0.liveAcrossCall, counts, live);
    AcrossStep(body, allocatable, done, pc, r0.liveAcross, across, live);
    MovesStep(body, allocatable, done, pc, r0.moves, moves);
    r := InterferenceResult(graph, across, counts, moves);
    ExactAgain(body, allocatable, done + {pc}, r);
  }

  // ----- One block, backwards -----

  /** The instructions from `lo` up to `hi` that blocks hold: all but the labels. */
  ghost function Span(body: Body, lo: int, hi: int): set<int> {
    set pc | lo <= pc < hi && 0 <= pc < |body| && !body[pc].Label?
  }

  /** `code` lies in `body` from `base` on, with at most its last instruction a terminator. */
  ghost predicate Placed(body: Body, code: Body, base: int) {
    && 0 <= base && base + |code| <= |body|
    && body[base..base + |code|] == code
    && (forall i :: 0 <= i < |code| ==> !code[i].Label?)
    && (forall i :: 0 <= i < |code| - 1 ==> !IsTerminator(code[i]))
  }

  lemma LiveBefore(body: Body, allocatable: set<string>, pc: int, live: set<string>)
    requires 0 < pc < |body| && !IsTerminator(body[pc - 1]) && LiveSetAfter(body, allocatable, pc, live)
    ensures LiveSetAfter(body, allocatable, pc - 1, (live - Defs(body[pc])) + Uses(body[pc]) * allocatable)
  {
    hide Live;
    forall n ensures LiveAfter(body, n, pc - 1) <==> n in Uses(body[pc]) || (n !in Defs(body[pc]) && LiveAfter(body, n, pc)) {
      LiveEquation(body, n, pc);
      LiveAcrossStep(body, n, pc - 1);
    }
    hide LiveAfter;
  }

  method WalkBlock(code: Body, base: int, liveOut: set<string>, allocatable: set<string>, r0: InterferenceResult,
                   ghost body: Body, ghost done: set<int>) returns (r: InterferenceResult)
    requires Placed(body, code, base) && done !! Span(body, base, base + |code|)
    requires code != [] ==> LiveSetAfter(body, allocatable, base + |code| - 1, liveOut)
    requires Exact(body, allocatable, done, r0)
    ensures Exact(body, allocatable, done + Span(body, base, base + |code|), r)
  {
    hide LiveSetAfter, Exact;
    r := r0;
    var live := liveOut;
    var i := |code|;
    ghost var end := base + |code|;
    assert done + Span(body, base + i, end) == done;
    while i > 0
      invariant 0 <= i <= |code|
      invariant i > 0 ==> LiveSetAfter(body, allocatable, base + i - 1, live)
      invariant Exact(body, allocatable, done + Span(body, base + i, end), r)
    {
      i := i - 1;
      ghost var pc := base + i;
      assert body[pc] == code[i];
      r := Record(code[i], live, allocatable, r, body, done + Span(body, base + i + 1, end), base + i);
      assert done + Span(body, base + i + 1, end) + {pc} == done + Span(body, base + i, end);
      if i > 0 {
        assert body[pc - 1] == code[i - 1];
        LiveBefore(body, allocatable, pc, live);
      }
      live := (live - Defs(code[i])) + Uses(code[i]) * allocatable;
    }
  }

  // ----- The whole function -----

  lemma SlicePlaced(body: Body, cuts: seq<int>, k: int)
    requires 0 <= k < |cuts| - 1 && Piece(body, cuts, k)
    ensures Placed(body, Stripped(Slice(body, cuts, k)), cuts[k + 1] - |Stripped(Slice(body, cuts, k))|)
  {
    var code := Stripped(Slice(body, cuts, k));
    var base := cuts[k + 1] - |code|;
    forall i | 0 <= i < |code| ensures !code[i].Label? && (i < |code| - 1 ==> !IsTerminator(code[i])) {
      assert code[i] == body[base + i];
      if cuts[k] < base + i { assert !Leader(body, base + i); }
      if i < |code| - 1 { assert !Leader(body, base + i + 1); }
    }
  }

  lemma BlockOfCut(body: Body, blocks: seq<Block>, cuts: seq<int>, k: int)
    requires Carved(body, blocks, cuts) && 0 <= k < |blocks|
    ensures |cuts| == |blocks| + 1 && Piece(body, cuts, k) && 0 <= cuts[k] <= cuts[k + 1] <= |body|
    ensures blocks[k] == BlockOf(Slice(body, cuts, k), BlockName(body, cuts[k]))
  {
    assert BlockIs(body, blocks, cuts, k);
  }

  /** What stripping leaves out of a slice is a label. */
  lemma StrippedFront(body: Body, cuts: seq<int>, k: int)
    requires 0 <= k < |cuts| - 1 && Piece(body, cuts, k)
    ensures 0 <= cuts[k] <= cuts[k + 1] - |Stripped(Slice(body, cuts, k))| <= |body|
    ensures forall pc :: cuts[k] <= pc < cuts[k + 1] - |Stripped(Slice(body, cuts, k))| ==> body[pc].Label?
  {
  }

  lemma BlockPlaced(body: Body, blocks: seq<Block>, cuts: seq<int>, k: int)
    requires Carved(body, blocks, cuts) && 0 <= k < |blocks|
    ensures 0 <= cuts[k] <= cuts[k + 1] <= |body|
    ensures cuts[k] <= cuts[k + 1] - |Code(blocks[k])|
    ensures Placed(body, Code(blocks[k]), cuts[k + 1] - |Code(blocks[k])|)
    ensures forall pc :: cuts[k] <= pc < cuts[k + 1] - |Code(blocks[k])| ==> body[pc].Label?
  {
    hide *;
    BlockOfCut(body, blocks, cuts, k);
    CodeOfBlock(Slice(body, cuts, k), BlockName(body, cuts[k]));
    SlicePlaced(body, cuts, k);
    StrippedFront(body, cuts, k);
  }

  lemma SpanGrows(body: Body, lo: int, base: int, hi: int)
    requires 0 <= lo <= base <= hi <= |body|
    requires forall pc :: lo <= pc < base ==> body[pc].Label?
    ensures Span(body, 0, lo) !! Span(body, base, hi)
    ensures Span(body, 0, lo) + Span(body, base, hi) == Span(body, 0, hi)
  {
  }

  lemma LiveOutOf(body: Body, cuts: seq<int>, allocatable: set<string>, liveOut: seq<set<string>>, k: int)
    requires ExactLiveOut(body, cuts, allocatable, liveOut) && 0 <= k < |liveOut| && 0 < cuts[k + 1] <= |body|
    ensures LiveSetAfter(body, allocatable, cuts[k + 1] - 1, liveOut[k])
  {
  }

  method Analyze(body: Body, allocatable: set<string>) returns (blocks: seq<Block>, cuts: seq<int>, liveOut: seq<set<string>>)
    requires WellFormed(body)
    ensures Carved(body, blocks, cuts) && |liveOut| == |blocks| == |cuts| - 1
    ensures ExactLiveOut(body, cuts, allocatable, liveOut)
  {
    hide WellFormed, ValidGraph, EdgesOf, Cut, BlockIs;
    var g;
    g, cuts := BuildCfg(body);
    var summaries := SummarizeAll(g, allocatable);
    liveOut := Solve(g.graph, allocatable, summaries, body, g, cuts);
    blocks := g.blocks;
  }

  lemma CutsEnds(body: Body, blocks: seq<Block>, cuts: seq<int>)
    requires Carved(body, blocks, cuts)
    ensures |cuts| == |blocks| + 1 && cuts[0] == 0 && cuts[|blocks|] == |body|
  {
  }

  lemma EmptySpan(body: Body)
    ensures Span(body, 0, 0) == {}
  {
  }

  // ----- What the counts were meant to be -----

  /** The calls that `name` lives through: live after them and not written by them. */
  ghost function CallsThrough(body: Body, done: set<int>, name: string): set<int> {
    set pc | pc in CallsOver(body, done, name) && name !in Defs(body[pc])
  }

  /** Some call's own result is live after that call. */
  ghost predicate OwnResultLives(body: Body, done: set<int>, name: string) {
    exists pc :: pc in done && 0 <= pc < |body| && IsCall(body[pc]) && name in Defs(body[pc]) && LiveAfter(body, name, pc)
  }

  /** The calls counted are the calls lived through if and only if no call's own result
      is live after it. */
  lemma CountedIffThrough(body: Body, done: set<int>, name: string)
    ensures CallsThrough(body, done, name) <= CallsOver(body, done, name)
    ensures |CallsOver(body, done, name)| == |CallsThrough(body, done, name)| <==> !OwnResultLives(body, done, name)
    ensures |CallsOver(body, done, name)| >= |CallsThrough(body, done, name)|
  {
    hide LiveAfter, Defs;
    var over, through := CallsOver(body, done, name), CallsThrough(body, done, name);
    assert over == through + (over - through);
    assert |over| == |through| + |over - through|;
    if OwnResultLives(body, done, name) {
      var pc :| pc in done && 0 <= pc < |body| && IsCall(body[pc]) && name in Defs(body[pc]) && LiveAfter(body, name, pc);
      assert pc in over - through;
    } else {
      assert over - through == {};
    }
  }

  /** `x = f(); return x` counts one call for `x`, which lives through none. */
  lemma OwnResultCounted()
    ensures var body := [Call("f", [], Some("x")), Return(Some(Name("x")))]; var done := {0, 1};
      && done == Span(body, 0, |body|)
      && CallsOver(body, done, "x") == {0} && CallsThrough(body, done, "x") == {}
  {
    var body := [Call("f", [], Some("x")), Return(Some(Name("x")))];
    assert "x" in Uses(body[1]);
    LiveEquation(body, "x", 1);
    assert Flows(body, 0, 1);
    assert LiveAfter(body, "x", 0);
    assert "x" in Defs(body[0]);
    hide LiveAfter, Uses, Defs, Live, Flows;
  }

  ghost predicate CountsAsMeant(body: Body, allocatable: set<string>, done: set<int>, counts: map<string, int>) {
    forall n :: n in allocatable ==> (CountOf(counts, n) == |CallsThrough(body, done, n)| <==> !OwnResultLives(body, done, n))
  }

  lemma CountsAsMeantIff(body: Body, allocatable: set<string>, done: set<int>, r: InterferenceResult)
    requires Exact(body, allocatable, done, r)
    ensures CountsAsMeant(body, allocatable, done, r.liveAcrossCall)
  {
    forall n | n in allocatable ensures CountOf(r.liveAcrossCall, n) == |CallsThrough(body, done, n)| <==> !OwnResultLives(body, done, n) {
      CountedIffThrough(body, done, n);
    }
    hide OwnResultLives, CallsThrough, CallsOver, GraphExact, AcrossExact, MovesExact;
  }

  /** The interference graph, the names live across each instruction, the number
      of calls each name is live after, and the copies, all exact. */
  method BuildInterference(body: Body, allocatable: set<string>) returns (r: InterferenceResult)
    requires WellFormed(body)
    ensures Exact(body, allocatable, Span(body, 0, |body|), r)
    ensures CountsAsMeant(body, allocatable, Span(body, 0, |body|), r.liveAcrossCall)
  {
    hide *;
    var blocks, cuts, liveOut := Analyze(body, allocatable);
    CutsEnds(body, blocks, cuts);
    r := InterferenceResult(map n | n in allocatable :: {}, map[], map[], {});
    StartsExact(body, allocatable, r);
    EmptySpan(body);
    for k := 0 to |blocks|
      invariant Exact(body, allocatable, Span(body, 0, cuts[k]), r)
    {
      BlockPlaced(body, blocks, cuts, k);
      var code := Code(blocks[k]);
      var base := cuts[k + 1] - |code|;
      SpanGrows(body, cuts[k], base, cuts[k + 1]);
      if code != [] { LiveOutOf(body, cuts, allocatable, liveOut, k); }
      r := WalkBlock(code, base, liveOut[k], allocatable, r, body, Span(body, 0, cuts[k]));
    }
    CountsAsMeantIff(body, allocatable, Span(body, 0, |body|), r);
  }

  lemma StartsExact(body: Body, allocatable: set<string>, r: InterferenceResult)
    requires r == InterferenceResult(map n | n in allocatable :: {}, map[], map[], {})
    ensures Exact(body, allocatable, {}, r)
  {
  }

  method SummarizeAll(g: ControlFlowGraph, allocatable: set<string>) returns (summaries: seq<Summary>)
    ensures |summaries| == |g.blocks|
    ensures forall k :: 0 <= k < |summaries| ==> SummaryIs(summaries[k], allocatable, Code(g.blocks[k]))
  {
    summaries := [];
    for k := 0 to |g.blocks|
      invariant |summaries| == k
      invariant forall i :: 0 <= i < k ==> SummaryIs(summaries[i], allocatable, Code(g.blocks[i]))
    {
      var uses, defs := Summarize(Code(g.blocks[k]), allocatable);
      summaries := summaries + [Summary(uses, defs)];
    }
  }
}
