/** The blocks and edges recorded for a body (cc/cfg.py:98-143, 215-259) run as the
    body itself does, so what is proved about runs over blocks holds of flat code. */
module FlatBlocks {
  import opened Common
  import opened IR
  import opened Cfg
  import opened BlockRuns

  /** The code of the blocks, terminators included. */
  function CodesOf(blocks: seq<Block>): (r: seq<Body>)
    ensures |r| == |blocks|
  {
    seq(|blocks|, k requires 0 <= k < |blocks| => Code(blocks[k]))
  }

  /** A run over blocks does not report names. */
  function Seen(r: Result): Outcome {
    match r
    case Finished(v, _, t) => Ended(v, t)
    case Exhausted(t) => Ran(t)
  }

  /** The blocks and edges of `body`, in the order in which they are recorded. */
  ghost predicate Wired(body: Body, g: ControlFlowGraph, cuts: seq<int>) {
    && Faithful(body, g, cuts) && |cuts| == |g.blocks| + 1
    && forall k :: 0 <= k < |g.blocks| ==> InOrder(body, cuts, k, g.graph.succ[k])
  }

  /** From inside block `k`, with `rest` of it to go. */
  function RunRest(m: Machine, codes: seq<Body>, g: Graph, k: int, rest: Body, s: Store, trace: seq<Event>, fuel: nat): Outcome
    requires 0 <= k < |codes| && |codes| == |g.succ|
  {
    match RunCode(m, rest, s, trace)
    case End(v, tr) => Ended(v, tr)
    case Leave(branch, s', tr) =>
      match NextBlock(codes[k], g.succ[k], branch)
      case None => Ended(None, tr)
      case Some(c) => if fuel == 0 || !(0 <= c < |codes|) then Ran(tr) else RunBlocks(m, codes, g, c, s', tr, fuel - 1)
  }

  lemma RestIsBlock(m: Machine, codes: seq<Body>, g: Graph, k: int, s: Store, trace: seq<Event>, fuel: nat)
    requires 0 <= k < |codes| && |codes| == |g.succ|
    ensures RunRest(m, codes, g, k, codes[k], s, trace, fuel) == RunBlocks(m, codes, g, k, s, trace, fuel)
  {
    hide RunCode, NextBlock;
  }

  /** One straight-line instruction. */
  lemma RestStep(m: Machine, codes: seq<Body>, g: Graph, k: int, i: Instruction, rest: Body, s: Store, trace: seq<Event>, fuel: nat)
    requires 0 <= k < |codes| && |codes| == |g.succ| && !IsTerminator(i)
    ensures RunRest(m, codes, g, k, [i] + rest, s, trace, fuel) == RunRest(m, codes, g, k, rest, Effect(m, i, s, trace), Calls(m, i, s, trace), fuel)
  {
    assert ([i] + rest)[1..] == rest;
    RunCodeStep(m, [i] + rest, s, trace);
    hide RunCode, NextBlock, Effect, Calls;
  }

  lemma RestExit(m: Machine, codes: seq<Body>, g: Graph, k: int, i: Instruction, s: Store, trace: seq<Event>, fuel: nat)
    requires 0 <= k < |codes| && |codes| == |g.succ| && (i.Return? || i.TailCall?)
    ensures RunRest(m, codes, g, k, [i], s, trace, fuel) == Seen(Eval(m, [], [i], s, trace, fuel))
  {
  }

  /** Leaving by a branch or into the block that follows. */
  lemma RestLeaves(m: Machine, codes: seq<Body>, g: Graph, k: int, rest: Body, s: Store, trace: seq<Event>, fuel: nat)
    requires 0 <= k < |codes| && |codes| == |g.succ|
    requires rest == [] || (|rest| == 1 && Branches(rest[0]))
    ensures var taken := rest != [] && (rest[0].Jump? || !Holds(m, s, rest[0]));
      var next := NextBlock(codes[k], g.succ[k], taken);
      RunRest(m, codes, g, k, rest, s, trace, fuel) ==
      if next.None? then Ended(None, trace)
      else if fuel == 0 || !(0 <= next.value < |codes|) then Ran(trace)
      else RunBlocks(m, codes, g, next.value, s, trace, fuel - 1)
  {
    if rest != [] { assert rest[1..] == []; }
    assert RunCode(m, [], s, trace) == Leave(false, s, trace);
    hide NextBlock, Holds;
  }

  // ----- A block's code and its piece of the body -----

  /** Block `k` holds some of the body. */
  ghost predicate InBlock(body: Body, g: ControlFlowGraph, cuts: seq<int>, k: int) {
    Wired(body, g, cuts) && 0 <= k < |g.blocks| && |cuts| == |g.blocks| + 1 && 0 <= cuts[k] < cuts[k + 1] <= |body|
  }

  lemma WiredParts(body: Body, g: ControlFlowGraph, cuts: seq<int>)
    requires Wired(body, g, cuts)
    ensures Carved(body, g.blocks, cuts) && ValidGraph(g.graph) && |g.graph.succ| == |g.blocks| && |cuts| == |g.blocks| + 1
    ensures forall k :: 0 <= k < |g.blocks| ==> InOrder(body, cuts, k, g.graph.succ[k])
  {
    hide Carved, ValidGraph, EdgesOf, InOrder;
  }

  lemma CutEnds(body: Body, cuts: seq<int>)
    requires Cut(body, cuts)
    ensures |cuts| > 0 && cuts[0] == 0 && cuts[|cuts| - 1] == |body|
  {
    hide Piece;
  }

  lemma WiredFacts(body: Body, g: ControlFlowGraph, cuts: seq<int>, k: int)
    requires Wired(body, g, cuts) && 0 <= k < |g.blocks|
    ensures |cuts| == |g.blocks| + 1 && cuts[0] == 0 && cuts[|g.blocks|] == |body|
    ensures |CodesOf(g.blocks)| == |g.graph.succ| == |g.blocks| && ValidGraph(g.graph) && InOrder(body, cuts, k, g.graph.succ[k])
    ensures Cut(body, cuts) && BlockIs(body, g.blocks, cuts, k) && 0 <= cuts[k] <= cuts[k + 1] <= |body| && (body != [] ==> cuts[k] < cuts[k + 1])
  {
    hide *;
    WiredParts(body, g, cuts);
    CarvedFacts(body, g.blocks, cuts, k);
    PieceOfBlock(body, g.blocks, cuts, k);
    CutEnds(body, cuts);
  }

  /** Only the last instruction of a block transfers control. */
  lemma InsideFacts(body: Body, g: ControlFlowGraph, cuts: seq<int>, k: int, pc: int)
    requires InBlock(body, g, cuts, k) && cuts[k] <= pc < cuts[k + 1]
    ensures pc + 1 < cuts[k + 1] ==> !IsTerminator(body[pc]) && !body[pc + 1].Label?
  {
    WiredFacts(body, g, cuts, k);
    hide Wired;
    assert Piece(body, cuts, k);
    if pc + 1 < cuts[k + 1] { assert !Leader(body, pc + 1); }
  }

  /** A block holds its piece of the body, without the label in front. */
  lemma CodeIs(body: Body, g: ControlFlowGraph, cuts: seq<int>, k: int)
    requires InBlock(body, g, cuts, k)
    ensures |CodesOf(g.blocks)| == |g.blocks|
    ensures CodesOf(g.blocks)[k] == if body[cuts[k]].Label? then body[cuts[k] + 1..cuts[k + 1]] else body[cuts[k]..cuts[k + 1]]
  {
    WiredFacts(body, g, cuts, k);
    PieceOfBlock(body, g.blocks, cuts, k);
    CodeOfBlock(Slice(body, cuts, k), BlockName(body, cuts[k]));
    SliceIs(body, cuts, k);
    hide Wired, BlockIs;
  }

  lemma InBlockIs(body: Body, g: ControlFlowGraph, cuts: seq<int>, k: int)
    requires InBlock(body, g, cuts, k)
    ensures Wired(body, g, cuts) && 0 <= k < |g.blocks| && |cuts| == |g.blocks| + 1 && 0 <= cuts[k] < cuts[k + 1] <= |body|
  {
    hide Wired;
  }

  /** Only the last block ends where the body ends. */
  lemma LastCut(body: Body, g: ControlFlowGraph, cuts: seq<int>, k: int)
    requires InBlock(body, g, cuts, k)
    ensures k + 1 < |g.blocks| <==> cuts[k + 1] < |body|
  {
    hide *;
    InBlockIs(body, g, cuts, k);
    WiredFacts(body, g, cuts, k);
    assert body != [];
    SameCut(body, cuts, k + 1, |cuts| - 1);
  }

  lemma NextInOrder(body: Body, cuts: seq<int>, k: int, succ: seq<int>, code: Body, taken: bool)
    requires 0 <= k < |cuts| - 1 && 0 < cuts[k + 1] <= |body| && InOrder(body, cuts, k, succ)
    requires var last := body[cuts[k + 1] - 1]; if code == [] then last.Label? else code[|code| - 1] == last
    ensures var last := body[cuts[k + 1] - 1]; var next := NextBlock(code, succ, taken);
      && (taken && Branches(last) ==> next.Some? && 0 <= next.value < |cuts| - 1 && cuts[next.value] == LabelIndex(body, last.target))
      && (!taken && (last.BranchFalse? || !IsTerminator(last)) ==> next == if k + 1 < |cuts| - 1 then Some(k + 1) else None)
  {
    hide LabelIndex;
  }

  /** Where control goes after the last instruction. */
  lemma NextIs(body: Body, g: ControlFlowGraph, cuts: seq<int>, k: int, taken: bool)
    requires InBlock(body, g, cuts, k) && |CodesOf(g.blocks)| == |g.blocks| == |g.graph.succ|
    ensures var last := body[cuts[k + 1] - 1]; var next := NextBlock(CodesOf(g.blocks)[k], g.graph.succ[k], taken);
      && (taken && Branches(last) ==> next.Some? && 0 <= next.value < |g.blocks| && cuts[next.value] == LabelIndex(body, last.target))
      && (!taken && (last.BranchFalse? || !IsTerminator(last)) ==> next == if k + 1 < |g.blocks| then Some(k + 1) else None)
  {
    hide *;
    InBlockIs(body, g, cuts, k);
    WiredFacts(body, g, cuts, k);
    CodeIs(body, g, cuts, k);
    var code, last := CodesOf(g.blocks)[k], body[cuts[k + 1] - 1];
    assert code != [] ==> code[|code| - 1] == last;
    assert code == [] ==> last.Label?;
    NextInOrder(body, cuts, k, g.graph.succ[k], code, taken);
    LastCut(body, g, cuts, k);
  }

  // ----- Both runs -----

  /** Entering block `k` from outside. */
  lemma {:induction false} BlockRunsFlat(m: Machine, body: Body, g: ControlFlowGraph, cuts: seq<int>, k: int, s: Store, trace: seq<Event>, fuel: nat) returns (f: nat)
    requires Wired(body, g, cuts) && body != [] && 0 <= k < |g.blocks|
    ensures |CodesOf(g.blocks)| == |g.graph.succ| == |g.blocks| && k < |cuts| && 0 <= cuts[k] <= |body| && f >= fuel
    ensures RunBlocks(m, CodesOf(g.blocks), g.graph, k, s, trace, f) == Seen(Eval(m, body, body[cuts[k]..], s, trace, fuel))
    decreases fuel, |body| - (if 0 <= k < |cuts| then cuts[k] else 0), 1
  {
    hide Wired, RunRest, Eval, RunBlocks, RunCode, NextBlock, Effect, Calls, CodesOf, LabelIndex, Seen, Cut, BlockIs, InOrder, ValidGraph;
    WiredFacts(body, g, cuts, k);
    var codes, pc := CodesOf(g.blocks), cuts[k];
    CodeIs(body, g, cuts, k);
    f := RestRunsFlat(m, body, g, cuts, k, pc, s, trace, fuel);
    RestIsBlock(m, codes, g.graph, k, s, trace, f);
    if body[pc].Label? {
      assert body[pc..cuts[k + 1]] == [body[pc]] + body[pc + 1..cuts[k + 1]];
      RestStep(m, codes, g.graph, k, body[pc], body[pc + 1..cuts[k + 1]], s, trace, f);
      LabelDoesNothing(m, body[pc], s, trace);
    }
  }

  lemma LabelDoesNothing(m: Machine, i: Instruction, s: Store, trace: seq<Event>)
    requires i.Label?
    ensures !IsTerminator(i) && Effect(m, i, s, trace) == s && Calls(m, i, s, trace) == trace
  {
  }

  lemma EvalStep(m: Machine, body: Body, pc: int, s: Store, trace: seq<Event>, fuel: nat)
    requires 0 <= pc < |body|
    ensures var i := body[pc]; var r := Eval(m, body, body[pc..], s, trace, fuel);
      && (!IsTerminator(i) ==> r == Eval(m, body, body[pc + 1..], Effect(m, i, s, trace), Calls(m, i, s, trace), fuel))
      && (i.BranchFalse? && Holds(m, s, i) ==> r == Eval(m, body, body[pc + 1..], s, trace, fuel))
      && (i.Jump? || (i.BranchFalse? && !Holds(m, s, i)) ==> r == Transfer(m, body, i.target, s, trace, fuel))
      && (i.Return? || i.TailCall? ==> r == Eval(m, [], [i], s, trace, fuel))
  {
    assert body[pc..][1..] == body[pc + 1..];
    hide Effect, Holds;
  }

  lemma NothingLeft(m: Machine, body: Body, s: Store, trace: seq<Event>, fuel: nat)
    ensures Seen(Eval(m, body, [], s, trace, fuel)) == Ended(None, trace)
  {
  }

  lemma OutOfFuel(m: Machine, body: Body, target: string, s: Store, trace: seq<Event>)
    ensures Seen(Transfer(m, body, target, s, trace, 0)) == Ran(trace)
  {
  }

  lemma TransferMoves(m: Machine, body: Body, target: string, s: Store, trace: seq<Event>, fuel: nat)
    requires fuel > 0
    ensures Transfer(m, body, target, s, trace, fuel) == Eval(m, body, body[LabelIndex(body, target)..], s, trace, fuel - 1)
  {
  }

  /** Falling into the block that follows, or off the end. */
  lemma {:induction false} FallsFlat(m: Machine, body: Body, g: ControlFlowGraph, cuts: seq<int>, k: int, rest: Body, s: Store, trace: seq<Event>, fuel: nat) returns (f: nat)
    requires InBlock(body, g, cuts, k)
    requires var last := body[cuts[k + 1] - 1];
      (rest == [] && !IsTerminator(last)) || (rest == [last] && last.BranchFalse? && Holds(m, s, last))
    ensures |CodesOf(g.blocks)| == |g.graph.succ| == |g.blocks| && f >= fuel
    ensures RunRest(m, CodesOf(g.blocks), g.graph, k, rest, s, trace, f) == Seen(Eval(m, body, body[cuts[k + 1]..], s, trace, fuel))
    decreases fuel, |body| - (if 0 <= k < |cuts| - 1 then cuts[k + 1] else 0), 2
  {
    hide Wired, RunRest, Eval, RunBlocks, RunCode, NextBlock, CodesOf, LabelIndex, Seen, Holds, Cut, BlockIs, InOrder, ValidGraph;
    WiredFacts(body, g, cuts, k);
    NextIs(body, g, cuts, k, false);
    f := fuel;
    if k + 1 < |g.blocks| {
      f := BlockRunsFlat(m, body, g, cuts, k + 1, s, trace, fuel);
      f := f + 1;
    } else {
      assert body[cuts[k + 1]..] == [];
      NothingLeft(m, body, s, trace, fuel);
    }
    RestLeaves(m, CodesOf(g.blocks), g.graph, k, rest, s, trace, f);
  }

  /** Taking a branch. */
  lemma {:induction false} BranchesFlat(m: Machine, body: Body, g: ControlFlowGraph, cuts: seq<int>, k: int, s: Store, trace: seq<Event>, fuel: nat) returns (f: nat)
    requires InBlock(body, g, cuts, k)
    requires var last := body[cuts[k + 1] - 1]; last.Jump? || (last.BranchFalse? && !Holds(m, s, last))
    ensures |CodesOf(g.blocks)| == |g.graph.succ| == |g.blocks| && f >= fuel
    ensures var last := body[cuts[k + 1] - 1];
      RunRest(m, CodesOf(g.blocks), g.graph, k, [last], s, trace, f) == Seen(Transfer(m, body, last.target, s, trace, fuel))
    decreases fuel, 0, 0
  {
    hide Wired, RunRest, Eval, Transfer, RunBlocks, RunCode, NextBlock, CodesOf, LabelIndex, Seen, Holds, Cut, BlockIs, InOrder, ValidGraph;
    WiredFacts(body, g, cuts, k);
    NextIs(body, g, cuts, k, true);
    var last := body[cuts[k + 1] - 1];
    var c := NextBlock(CodesOf(g.blocks)[k], g.graph.succ[k], true).value;
    f := 0;
    if fuel > 0 {
      f := BlockRunsFlat(m, body, g, cuts, c, s, trace, fuel - 1);
      f := f + 1;
      TransferMoves(m, body, last.target, s, trace, fuel);
    } else {
      OutOfFuel(m, body, last.target, s, trace);
    }
    RestLeaves(m, CodesOf(g.blocks), g.graph, k, [last], s, trace, f);
  }

  /** From any position on. */
  lemma {:induction false} RestRunsFlat(m: Machine, body: Body, g: ControlFlowGraph, cuts: seq<int>, k: int, pc: int, s: Store, trace: seq<Event>, fuel: nat) returns (f: nat)
    requires InBlock(body, g, cuts, k) && cuts[k] <= pc < cuts[k + 1]
    ensures |CodesOf(g.blocks)| == |g.graph.succ| == |g.blocks| && f >= fuel
    ensures RunRest(m, CodesOf(g.blocks), g.graph, k, body[pc..cuts[k + 1]], s, trace, f) == Seen(Eval(m, body, body[pc..], s, trace, fuel))
    decreases fuel, |body| - pc, 0
  {
    hide Wired, RunRest, Eval, Transfer, RunBlocks, RunCode, NextBlock, Effect, Calls, CodesOf, LabelIndex, Seen, Holds, Cut, BlockIs, InOrder, ValidGraph;
    WiredFacts(body, g, cuts, k);
    InsideFacts(body, g, cuts, k, pc);
    EvalStep(m, body, pc, s, trace, fuel);
    var i, codes := body[pc], CodesOf(g.blocks);
    var rest := body[pc + 1..cuts[k + 1]];
    assert body[pc..cuts[k + 1]] == [i] + rest;
    if pc + 1 == cuts[k + 1] { assert rest == [] && [i] + rest == [i]; }
    f := fuel;
    if IsTerminator(i) {
      if i.Return? || i.TailCall? {
        RestExit(m, codes, g.graph, k, i, s, trace, f);
      } else if i.BranchFalse? && Holds(m, s, i) {
        f := FallsFlat(m, body, g, cuts, k, [i], s, trace, fuel);
      } else {
        f := BranchesFlat(m, body, g, cuts, k, s, trace, fuel);
      }
    } else {
      var s', t := Effect(m, i, s, trace), Calls(m, i, s, trace);
      if pc + 1 < cuts[k + 1] {
        f := RestRunsFlat(m, body, g, cuts, k, pc + 1, s', t, fuel);
      } else {
        f := FallsFlat(m, body, g, cuts, k, [], s', t, fuel);
      }
      RestStep(m, codes, g.graph, k, i, rest, s, trace, f);
    }
  }

  /** Whatever the body does with some jumps allowed, its blocks do with enough edges. */
  lemma BlocksRunFlat(m: Machine, body: Body, g: ControlFlowGraph, cuts: seq<int>, s: Store, fuel: nat) returns (f: nat)
    requires Wired(body, g, cuts)
    ensures 0 < |CodesOf(g.blocks)| == |g.graph.succ| && f >= fuel
    ensures RunBlocks(m, CodesOf(g.blocks), g.graph, 0, s, [], f) == Seen(Run(m, body, s, fuel))
  {
    hide Wired, Eval, RunBlocks, Seen, CodesOf;
    HasBlock(body, g, cuts);
    WiredFacts(body, g, cuts, 0);
    if body != [] {
      assert body[cuts[0]..] == body;
      f := BlockRunsFlat(m, body, g, cuts, 0, s, [], fuel);
    } else {
      f := fuel;
      NothingLeft(m, body, s, [], fuel);
      EmptyBlock(body, g, cuts);
      RestIsBlock(m, CodesOf(g.blocks), g.graph, 0, s, [], f);
      RestLeaves(m, CodesOf(g.blocks), g.graph, 0, [], s, [], f);
    }
  }

  lemma HasBlock(body: Body, g: ControlFlowGraph, cuts: seq<int>)
    requires Wired(body, g, cuts)
    ensures |g.blocks| > 0
  {
    hide Carved, EdgesOf, InOrder;
  }

  lemma EmptyBlock(body: Body, g: ControlFlowGraph, cuts: seq<int>)
    requires Wired(body, g, cuts) && body == []
    ensures |CodesOf(g.blocks)| == |g.graph.succ| > 0 && CodesOf(g.blocks)[0] == [] && g.graph.succ[0] == [] && NextBlock([], [], false).None?
  {
    HasBlock(body, g, cuts);
    WiredFacts(body, g, cuts, 0);
    PieceOfBlock(body, g.blocks, cuts, 0);
    CodeOfBlock(Slice(body, cuts, 0), BlockName(body, cuts[0]));
    hide Wired, BlockIs;
  }

  /** A body ends in a certain way exactly when its blocks do; so they also go on
      for ever alike. */
  lemma BlocksEndAlike(m: Machine, body: Body, g: ControlFlowGraph, cuts: seq<int>, s: Store, e: Outcome)
    requires Wired(body, g, cuts) && e.Ended?
    ensures 0 < |CodesOf(g.blocks)| == |g.graph.succ|
    ensures (exists f: nat :: Seen(Run(m, body, s, f)) == e) <==> (exists f: nat :: RunBlocks(m, CodesOf(g.blocks), g.graph, 0, s, [], f) == e)
  {
    hide Wired, Run, RunBlocks, CodesOf;
    var codes := CodesOf(g.blocks);
    var _ := BlocksRunFlat(m, body, g, cuts, s, 0);
    if f: nat :| Seen(Run(m, body, s, f)) == e {
      var h := BlocksRunFlat(m, body, g, cuts, s, f);
      assert RunBlocks(m, codes, g.graph, 0, s, [], h) == e;
    }
    if f: nat :| RunBlocks(m, codes, g.graph, 0, s, [], f) == e {
      var h := BlocksRunFlat(m, body, g, cuts, s, f);
      MoreEdges(m, codes, g.graph, 0, s, [], f, h);
      assert Seen(Run(m, body, s, f)) == e;
    }
  }

  // ----- Passes over the blocks of a body -----

  /** No branch leads back to the first instruction. */
  ghost predicate EntryStaysBehind(body: Body) {
    forall pc :: 0 <= pc < |body| && Branches(body[pc]) ==> LabelIndex(body, body[pc].target) != 0
  }

  lemma NotBack(body: Body, cuts: seq<int>, k: int, targets: seq<int>)
    requires 0 <= k < |cuts| - 1 && EdgesOf(body, cuts, k, targets) && cuts[0] == 0 && EntryStaysBehind(body)
    ensures 0 !in targets
  {
    hide LabelIndex;
  }

  lemma EdgeBack(g: Graph, k: int)
    requires ValidGraph(g) && k in g.pred[0]
    ensures 0 <= k < |g.succ| && 0 in g.succ[k]
  {
  }

  lemma NoneEnters(g: Graph)
    requires ValidGraph(g) && forall k :: 0 <= k < |g.succ| ==> 0 !in g.succ[k]
    ensures |g.pred| > 0 && g.pred[0] == []
  {
    if g.pred[0] != [] {
      EdgeBack(g, g.pred[0][0]);
      assert false;
    }
  }

  lemma EntryAlone(body: Body, g: ControlFlowGraph, cuts: seq<int>)
    requires Wired(body, g, cuts) && EntryStaysBehind(body)
    ensures |g.graph.pred| > 0 && g.graph.pred[0] == []
  {
    hide Carved, InOrder, ValidGraph, EntryStaysBehind;
    HasBlock(body, g, cuts);
    WiredSize(body, g, cuts);
    forall k | 0 <= k < |g.blocks| ensures 0 !in g.graph.succ[k] {
      WiredFacts(body, g, cuts, k);
      NotBack(body, cuts, k, g.graph.succ[k]);
    }
    NoneEnters(g.graph);
  }

  lemma EmptyCode(body: Body, g: ControlFlowGraph, cuts: seq<int>, k: int)
    requires Wired(body, g, cuts) && body == [] && 0 <= k < |g.blocks|
    ensures CodesOf(g.blocks)[k] == []
  {
    WiredFacts(body, g, cuts, k);
    PieceOfBlock(body, g.blocks, cuts, k);
    CodeOfBlock(Slice(body, cuts, k), BlockName(body, cuts[k]));
    hide Wired, BlockIs;
  }

  lemma WiredSize(body: Body, g: ControlFlowGraph, cuts: seq<int>)
    requires Wired(body, g, cuts)
    ensures ValidGraph(g.graph) && 0 < |CodesOf(g.blocks)| == |g.graph.succ| == |g.blocks|
  {
    HasBlock(body, g, cuts);
    WiredFacts(body, g, cuts, 0);
  }

  /** Some run over the blocks from block `entry`, with as many edges or more, does
      what the body does. */
  ghost predicate BodyMatched(m: Machine, body: Body, r: Graph, codes: seq<Body>, entry: int, s: Store, fuel: nat)
    requires 0 <= entry < |codes| == |r.succ|
  {
    exists f: nat :: f >= fuel && RunBlocks(m, codes, r, entry, s, [], f) == Seen(Run(m, body, s, fuel))
  }

  lemma BodyMatches(m: Machine, body: Body, g: ControlFlowGraph, cuts: seq<int>, r: Graph, codes: seq<Body>, entry: int, s: Store, fuel: nat)
    requires Wired(body, g, cuts) && 0 <= entry < |codes| == |r.succ| && 0 < |CodesOf(g.blocks)| == |g.graph.succ|
    requires forall h: nat :: RunMatched(m, g.graph, CodesOf(g.blocks), r, codes, entry, s, h)
    ensures BodyMatched(m, body, r, codes, entry, s, fuel)
  {
    hide Wired, RunBlocks, Run, CodesOf;
    var h := BlocksRunFlat(m, body, g, cuts, s, fuel);
    assert RunMatched(m, g.graph, CodesOf(g.blocks), r, codes, entry, s, h);
  }

  lemma WiredIs(body: Body, g: ControlFlowGraph, cuts: seq<int>)
    requires Faithful(body, g, cuts) && |cuts| == |g.blocks| + 1 && forall k :: 0 <= k < |g.blocks| ==> InOrder(body, cuts, k, g.graph.succ[k])
    ensures Wired(body, g, cuts)
  {
  }
}
