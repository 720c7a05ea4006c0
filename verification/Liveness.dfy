/** Backward liveness over the blocks (cc/regalloc.py:319-347), proved equal to
    its meaning over paths of the flat code. */
module Liveness {
  import opened Common
  import opened IR
  import opened Cfg

  // ----- What it means to be live -----

  ghost predicate Path(body: Body, p: seq<int>) {
    && p != []
    && (forall i :: 0 <= i < |p| ==> 0 <= p[i] < |body|)
    && (forall i :: 0 <= i < |p| - 1 ==> Flows(body, p[i], p[i + 1]))
  }

  /** Following `p` reaches a read of `name` with no write of it before. */
  ghost predicate ReadAlong(body: Body, name: string, p: seq<int>) {
    && Path(body, p)
    && name in Uses(body[p[|p| - 1]])
    && forall i :: 0 <= i < |p| - 1 ==> name !in Defs(body[p[i]])
  }

  ghost predicate Live(body: Body, name: string, pc: int) {
    exists p :: ReadAlong(body, name, p) && p[0] == pc
  }

  ghost predicate LiveAfter(body: Body, name: string, pc: int)
    requires 0 <= pc < |body|
  {
    exists next :: Flows(body, pc, next) && 0 <= next < |body| && Live(body, name, next)
  }

  lemma ReadAlongTail(body: Body, name: string, p: seq<int>)
    requires ReadAlong(body, name, p) && |p| > 1
    ensures ReadAlong(body, name, p[1..]) && p[1..][0] == p[1]
    ensures Flows(body, p[0], p[1]) && name !in Defs(body[p[0]])
  {
    var q := p[1..];
    assert q[|q| - 1] == p[|p| - 1];
    forall i | 0 <= i < |q| - 1
      ensures Flows(body, q[i], q[i + 1]) && name !in Defs(body[q[i]])
    {
      assert q[i] == p[i + 1] && q[i + 1] == p[i + 2];
      assert Flows(body, p[i + 1], p[i + 1 + 1]);
    }
  }

  lemma LiveLater(body: Body, name: string, pc: int)
    requires 0 <= pc < |body| && name !in Defs(body[pc]) && LiveAfter(body, name, pc)
    ensures Live(body, name, pc)
  {
    var next :| Flows(body, pc, next) && 0 <= next < |body| && Live(body, name, next);
    var q :| ReadAlong(body, name, q) && q[0] == next;
    var p := [pc] + q;
    forall i | 0 <= i < |p| - 1
      ensures Flows(body, p[i], p[i + 1]) && name !in Defs(body[p[i]])
    {
      if i > 0 {
        assert p[i] == q[i - 1] && p[i + 1] == q[i];
        assert Flows(body, q[i - 1], q[i - 1 + 1]);
      }
    }
    assert ReadAlong(body, name, p);
  }

  /** The equation that liveness satisfies at each instruction. */
  lemma LiveEquation(body: Body, name: string, pc: int)
    requires 0 <= pc < |body|
    ensures Live(body, name, pc) <==> name in Uses(body[pc]) || (name !in Defs(body[pc]) && LiveAfter(body, name, pc))
  {
    if name in Uses(body[pc]) {
      assert ReadAlong(body, name, [pc]);
    } else if name !in Defs(body[pc]) && LiveAfter(body, name, pc) {
      LiveLater(body, name, pc);
    }
    if Live(body, name, pc) && name !in Uses(body[pc]) {
      var p :| ReadAlong(body, name, p) && p[0] == pc;
      ReadAlongTail(body, name, p);
      assert Live(body, name, p[1]);
    }
  }

  /** Before straight-line code, live means live after what precedes it. */
  lemma LiveAcrossStep(body: Body, name: string, pc: int)
    requires 0 <= pc < |body| - 1 && !IsTerminator(body[pc])
    ensures LiveAfter(body, name, pc) <==> Live(body, name, pc + 1)
  {
    assert Flows(body, pc, pc + 1);
  }

  // ----- Straight-line summaries -----

  /** Some instruction reads `name` before any writes it. */
  predicate Exposed(code: Body, name: string) {
    code != [] && (name in Uses(code[0]) || (name !in Defs(code[0]) && Exposed(code[1..], name)))
  }

  predicate Written(code: Body, name: string) {
    code != [] && (name in Defs(code[0]) || Written(code[1..], name))
  }

  lemma {:induction false} SummaryAppend(code: Body, next: Instruction, name: string)
    ensures Written(code + [next], name) <==> Written(code, name) || name in Defs(next)
    ensures Exposed(code + [next], name) <==> Exposed(code, name) || (name in Uses(next) && !Written(code, name))
  {
    if code == [] {
      assert code + [next] == [next];
    } else {
      SummaryAppend(code[1..], next, name);
      assert (code + [next])[1..] == code[1..] + [next];
    }
  }

  /** Reads not preceded by a write, and writes, of one block. */
  method Summarize(code: Body, allocatable: set<string>) returns (uses: set<string>, defs: set<string>)
    ensures forall n :: n in uses <==> n in allocatable && Exposed(code, n)
    ensures forall n :: n in defs <==> n in allocatable && Written(code, n)
  {
    uses, defs := {}, {};
    for i := 0 to |code|
      invariant forall n :: n in uses <==> n in allocatable && Exposed(code[..i], n)
      invariant forall n :: n in defs <==> n in allocatable && Written(code[..i], n)
    {
      assert code[..i + 1] == code[..i] + [code[i]];
      forall n { SummaryAppend(code[..i], code[i], n); }
      uses := uses + (Uses(code[i]) * allocatable - defs);
      defs := defs + Defs(code[i]) * allocatable;
    }
    assert code[..|code|] == code;
  }

  // ----- The block equations -----

  datatype Summary = Summary(uses: set<string>, defs: set<string>)

  ghost predicate SummaryIs(summary: Summary, allocatable: set<string>, code: Body) {
    && (forall n :: n in summary.uses <==> n in allocatable && Exposed(code, n))
    && (forall n :: n in summary.defs <==> n in allocatable && Written(code, n))
  }

  /** The union of the sets at a block's successors. */
  function JoinOf(sets: seq<set<string>>, targets: seq<int>): set<string>
    requires forall t :: t in targets ==> 0 <= t < |sets|
  {
    set t, n | t in targets && n in sets[t] :: n
  }

  function Transferred(summary: Summary, out: set<string>): set<string> {
    summary.uses + (out - summary.defs)
  }

  function Gap(bound: set<string>, sets: seq<set<string>>): nat {
    if sets == [] then 0 else |bound - sets[|sets| - 1]| + Gap(bound, sets[..|sets| - 1])
  }

  lemma GapLast(bound: set<string>, sets: seq<set<string>>, wider: set<string>)
    requires sets != [] && sets[|sets| - 1] <= wider <= bound
    ensures Gap(bound, sets[|sets| - 1 := wider]) <= Gap(bound, sets)
    ensures sets[|sets| - 1] != wider ==> Gap(bound, sets[|sets| - 1 := wider]) < Gap(bound, sets)
  {
    var last := |sets| - 1;
    assert sets[last := wider][..last] == sets[..last];
    SubsetSmaller(bound - wider, bound - sets[last]);
    if sets[last] != wider {
      var x :| x in wider && x !in sets[last];
      assert x in bound - sets[last] && x !in bound - wider;
    }
  }

  lemma GapSame(bound: set<string>, sets: seq<set<string>>, k: int, wider: set<string>)
    requires 0 <= k < |sets| - 1
    ensures var last := |sets| - 1;
      && Gap(bound, sets) == Gap(bound, sets[..last]) + |bound - sets[last]|
      && Gap(bound, sets[k := wider]) == Gap(bound, sets[..last][k := wider]) + |bound - sets[last]|
  {
    var last := |sets| - 1;
    assert sets[k := wider][..last] == sets[..last][k := wider];
  }

  lemma {:induction false} GapShrinks(bound: set<string>, sets: seq<set<string>>, k: int, wider: set<string>)
    requires 0 <= k < |sets| && sets[k] <= wider <= bound
    ensures Gap(bound, sets[k := wider]) <= Gap(bound, sets)
    ensures sets[k] != wider ==> Gap(bound, sets[k := wider]) < Gap(bound, sets)
    decreases |sets|
  {
    var last := |sets| - 1;
    if k == last {
      GapLast(bound, sets, wider);
    } else {
      GapSame(bound, sets, k, wider);
      GapShrinks(bound, sets[..last], k, wider);
    }
    hide Gap;
  }

  lemma SubsetSmaller(a: set<string>, b: set<string>)
    requires a <= b
    ensures |a| <= |b| && (a != b ==> |a| < |b|)
  {
    assert b == a + (b - a);
    assert |b| == |a| + |b - a|;
  }

  // ----- Blocks and paths -----

  /** The part of block `k` from `pc` on. */
  ghost function Onward(body: Body, cuts: seq<int>, k: int, pc: int): Body
    requires 0 <= k < |cuts| - 1 && Piece(body, cuts, k) && cuts[k] <= pc <= cuts[k + 1]
  {
    body[pc..cuts[k + 1]]
  }

  lemma OnwardStep(body: Body, cuts: seq<int>, k: int, pc: int, name: string)
    requires 0 <= k < |cuts| - 1 && Piece(body, cuts, k) && cuts[k] <= pc < cuts[k + 1]
    ensures Exposed(Onward(body, cuts, k, pc), name) <==>
      name in Uses(body[pc]) || (name !in Defs(body[pc]) && Exposed(Onward(body, cuts, k, pc + 1), name))
    ensures Written(Onward(body, cuts, k, pc), name) <==>
      name in Defs(body[pc]) || Written(Onward(body, cuts, k, pc + 1), name)
    ensures pc + 1 < cuts[k + 1] ==> !IsTerminator(body[pc])
  {
    assert Onward(body, cuts, k, pc)[1..] == Onward(body, cuts, k, pc + 1);
    if pc + 1 < cuts[k + 1] { assert !Leader(body, pc + 1); }
  }

  lemma OnwardFromStart(body: Body, blocks: seq<Block>, cuts: seq<int>, k: int, name: string)
    requires Carved(body, blocks, cuts) && 0 <= k < |blocks|
    ensures Piece(body, cuts, k)
    ensures Exposed(Onward(body, cuts, k, cuts[k]), name) <==> Exposed(Code(blocks[k]), name)
    ensures Written(Onward(body, cuts, k, cuts[k]), name) <==> Written(Code(blocks[k]), name)
  {
    assert BlockIs(body, blocks, cuts, k);
    CodeOfBlock(Slice(body, cuts, k), BlockName(body, cuts[k]));
  }

  /** Control leaves a block only for the start of a recorded successor. */
  lemma LeavesTo(body: Body, g: ControlFlowGraph, cuts: seq<int>, k: int, next: int) returns (j: int)
    requires Faithful(body, g, cuts) && 0 <= k < |g.blocks| && body != []
    requires 0 < cuts[k + 1] <= |body| && Flows(body, cuts[k + 1] - 1, next) && 0 <= next < |body|
    ensures 0 <= j < |g.blocks| && j in g.graph.succ[k] && cuts[j] == next
  {
    var pc := cuts[k + 1] - 1;
    if next == pc + 1 {
      j := k + 1;
    } else {
      j := LeaderBlock(body, cuts, next);
    }
    assert EdgesOf(body, cuts, k, g.graph.succ[k]);
  }

  lemma EntersFrom(body: Body, g: ControlFlowGraph, cuts: seq<int>, k: int, j: int)
    requires Faithful(body, g, cuts) && 0 <= k < |g.blocks| && j in g.graph.succ[k]
    ensures body != [] && 0 <= j < |g.blocks| && 0 < cuts[k + 1] <= |body| && 0 <= cuts[j] < |body|
    ensures Flows(body, cuts[k + 1] - 1, cuts[j])
  {
    assert EdgesOf(body, cuts, k, g.graph.succ[k]);
    assert Piece(body, cuts, j);
  }

  lemma PieceBounds(body: Body, cuts: seq<int>, k: int)
    requires 0 <= k < |cuts| - 1 && Piece(body, cuts, k)
    ensures 0 <= cuts[k] <= cuts[k + 1] <= |body|
  {
  }

  lemma OnwardEnd(body: Body, cuts: seq<int>, k: int, name: string)
    requires 0 <= k < |cuts| - 1 && Piece(body, cuts, k)
    ensures !Exposed(Onward(body, cuts, k, cuts[k + 1]), name) && !Written(Onward(body, cuts, k, cuts[k + 1]), name)
  {
  }

  /** A name read before it is written in what is left of a block is live there,
      and so is one that is not written and live after the block. */
  lemma {:induction false} LiveInBlock(body: Body, cuts: seq<int>, k: int, pc: int, name: string)
    requires 0 <= k < |cuts| - 1 && Piece(body, cuts, k) && body != [] && cuts[k] <= pc < cuts[k + 1]
    requires var rest := Onward(body, cuts, k, pc);
      Exposed(rest, name) || (!Written(rest, name) && LiveAfter(body, name, cuts[k + 1] - 1))
    ensures Live(body, name, pc)
    decreases cuts[k + 1] - pc
  {
    hide *;
    PieceBounds(body, cuts, k);
    OnwardStep(body, cuts, k, pc, name);
    LiveEquation(body, name, pc);
    if pc + 1 < cuts[k + 1] {
      LiveAcrossStep(body, name, pc);
      if name !in Uses(body[pc]) && name !in Defs(body[pc]) { LiveInBlock(body, cuts, k, pc + 1, name); }
    } else {
      OnwardEnd(body, cuts, k, name);
    }
  }

  // ----- The fixed point -----

  /** What the solver works with: the blocks' summaries and edges. */
  ghost predicate Problem(body: Body, g: ControlFlowGraph, cuts: seq<int>, allocatable: set<string>, summaries: seq<Summary>) {
    && Faithful(body, g, cuts)
    && |summaries| == |g.blocks|
    && forall k :: 0 <= k < |summaries| ==> SummaryIs(summaries[k], allocatable, Code(g.blocks[k]))
  }

  ghost predicate SoundAt(body: Body, cuts: seq<int>, k: int, liveIn: set<string>, liveOut: set<string>)
    requires 0 <= k < |cuts| - 1
  {
    && (liveIn + liveOut != {} ==> 0 < cuts[k + 1] <= |body|)
    && (forall n :: n in liveIn ==> Live(body, n, cuts[k]))
    && (forall n :: n in liveOut ==> LiveAfter(body, n, cuts[k + 1] - 1))
  }

  /** What a block's sets become when it is visited again. */
  function NewOut(g: Graph, liveIn: seq<set<string>>, k: int): set<string>
    requires 0 <= k < |g.succ| && forall t :: t in g.succ[k] ==> 0 <= t < |liveIn|
  {
    JoinOf(liveIn, g.succ[k])
  }

  ghost predicate Sized(g: Graph, n: int) {
    |g.succ| == n && forall i, t :: 0 <= i < n && t in g.succ[i] ==> 0 <= t < n
  }

  /** Sets only ever grow towards what a visit would compute. */
  ghost predicate BelowNext(g: Graph, summaries: seq<Summary>, liveIn: seq<set<string>>, liveOut: seq<set<string>>)
    requires Sized(g, |summaries|) && |liveIn| == |liveOut| == |summaries|
  {
    forall k :: 0 <= k < |summaries| ==>
      liveOut[k] <= NewOut(g, liveIn, k) && liveIn[k] <= Transferred(summaries[k], NewOut(g, liveIn, k))
  }

  ghost predicate StableAt(g: Graph, summaries: seq<Summary>, liveIn: seq<set<string>>, liveOut: seq<set<string>>, k: int)
    requires Sized(g, |summaries|) && |liveIn| == |liveOut| == |summaries| && 0 <= k < |summaries|
  {
    liveOut[k] == NewOut(g, liveIn, k) && liveIn[k] == Transferred(summaries[k], NewOut(g, liveIn, k))
  }

  lemma JoinGrows(sets: seq<set<string>>, k: int, wider: set<string>, targets: seq<int>)
    requires 0 <= k < |sets| && sets[k] <= wider
    requires forall t :: t in targets ==> 0 <= t < |sets|
    ensures JoinOf(sets, targets) <= JoinOf(sets[k := wider], targets)
  {
    forall n | n in JoinOf(sets, targets) ensures n in JoinOf(sets[k := wider], targets) {
      var t :| t in targets && n in sets[t];
      assert n in sets[k := wider][t];
    }
  }

  lemma VisitKeepsBelow(g: Graph, summaries: seq<Summary>, liveIn: seq<set<string>>, liveOut: seq<set<string>>, k: int)
    requires Sized(g, |summaries|) && |liveIn| == |liveOut| == |summaries| && 0 <= k < |summaries|
    requires BelowNext(g, summaries, liveIn, liveOut)
    ensures var out := NewOut(g, liveIn, k);
      BelowNext(g, summaries, liveIn[k := Transferred(summaries[k], out)], liveOut[k := out])
  {
    var out := NewOut(g, liveIn, k);
    var wider := Transferred(summaries[k], out);
    forall i | 0 <= i < |summaries|
      ensures NewOut(g, liveIn, i) <= NewOut(g, liveIn[k := wider], i)
    {
      JoinGrows(liveIn, k, wider, g.succ[i]);
    }
  }

  /** Everything a visit adds is really live. */
  lemma VisitSound(body: Body, g: ControlFlowGraph, cuts: seq<int>, allocatable: set<string>, summaries: seq<Summary>,
                   liveIn: seq<set<string>>, k: int)
    requires Problem(body, g, cuts, allocatable, summaries)
    requires |liveIn| == |g.blocks| && 0 <= k < |g.blocks| && Sized(g.graph, |g.blocks|)
    requires forall i, n :: 0 <= i < |liveIn| && n in liveIn[i] ==> n in allocatable
    requires forall i, n :: 0 <= i < |liveIn| && n in liveIn[i] ==> Live(body, n, cuts[i])
    ensures var out := NewOut(g.graph, liveIn, k);
      SoundAt(body, cuts, k, Transferred(summaries[k], out), out)
  {
    var out := NewOut(g.graph, liveIn, k);
    forall n | n in out
      ensures 0 < cuts[k + 1] <= |body| && LiveAfter(body, n, cuts[k + 1] - 1)
    {
      var t :| t in g.graph.succ[k] && n in liveIn[t];
      EntersFrom(body, g, cuts, k, t);
      assert Live(body, n, cuts[t]);
    }
    forall n | n in Transferred(summaries[k], out)
      ensures 0 < cuts[k + 1] <= |body| && Live(body, n, cuts[k])
    {
      BlockEntryLive(body, g, cuts, allocatable, summaries, k, n, n in out);
    }
  }

  lemma BlockEntryLive(body: Body, g: ControlFlowGraph, cuts: seq<int>, allocatable: set<string>, summaries: seq<Summary>,
                       k: int, name: string, after: bool)
    requires Problem(body, g, cuts, allocatable, summaries) && 0 <= k < |g.blocks|
    requires after ==> name in allocatable && 0 < cuts[k + 1] <= |body| && LiveAfter(body, name, cuts[k + 1] - 1)
    requires name in summaries[k].uses || (after && name !in summaries[k].defs)
    ensures 0 < cuts[k + 1] <= |body| && Live(body, name, cuts[k])
  {
    assert SummaryIs(summaries[k], allocatable, Code(g.blocks[k]));
    OnwardFromStart(body, g.blocks, cuts, k, name);
    assert Piece(body, cuts, k);
    LiveInBlock(body, cuts, k, cuts[k], name);
  }

  ghost predicate Stable(g: Graph, summaries: seq<Summary>, liveIn: seq<set<string>>, liveOut: seq<set<string>>) {
    && Sized(g, |summaries|) && |liveIn| == |liveOut| == |summaries|
    && forall k :: 0 <= k < |summaries| ==> StableAt(g, summaries, liveIn, liveOut, k)
  }

  lemma ProblemSizes(body: Body, g: ControlFlowGraph, cuts: seq<int>, allocatable: set<string>, summaries: seq<Summary>)
    requires Problem(body, g, cuts, allocatable, summaries)
    ensures |cuts| == |g.blocks| + 1
  {
  }

  lemma ReadStarts(body: Body, name: string, p: seq<int>)
    requires ReadAlong(body, name, p)
    ensures |p| >= 1
  {
  }

  lemma PlainFlow(body: Body, pc: int, next: int)
    requires 0 <= pc < |body| && Flows(body, pc, next) && !IsTerminator(body[pc])
    ensures next == pc + 1
  {
  }

  lemma ReadsNow(body: Body, name: string, p: seq<int>)
    requires ReadAlong(body, name, p) && |p| == 1
    ensures 0 <= p[0] < |body| && name in Uses(body[p[0]])
  {
  }

  /** At a fixed point, no path to a read is missed. */
  lemma {:induction false} StableComplete(body: Body, g: ControlFlowGraph, cuts: seq<int>, allocatable: set<string>, summaries: seq<Summary>,
                                          liveIn: seq<set<string>>, liveOut: seq<set<string>>, k: int, p: seq<int>, name: string)
    requires Problem(body, g, cuts, allocatable, summaries) && Stable(g.graph, summaries, liveIn, liveOut)
    requires 0 <= k < |g.blocks| && Piece(body, cuts, k)
    requires name in allocatable && ReadAlong(body, name, p) && cuts[k] <= p[0] < cuts[k + 1]
    ensures var rest := Onward(body, cuts, k, p[0]);
      Exposed(rest, name) || (!Written(rest, name) && name in liveOut[k])
    decreases |p|, 0
  {
    hide *;
    ProblemSizes(body, g, cuts, allocatable, summaries);
    PieceBounds(body, cuts, k);
    ReadStarts(body, name, p);
    OnwardStep(body, cuts, k, p[0], name);
    if |p| > 1 {
      ReadAlongTail(body, name, p);
      if p[0] + 1 < cuts[k + 1] {
        PlainFlow(body, p[0], p[1]);
        StableComplete(body, g, cuts, allocatable, summaries, liveIn, liveOut, k, p[1..], name);
      } else {
        OnwardEnd(body, cuts, k, name);
        StableAcross(body, g, cuts, allocatable, summaries, liveIn, liveOut, k, p[1..], name);
      }
    } else {
      ReadsNow(body, name, p);
    }
  }

  lemma {:induction false} StableAcross(body: Body, g: ControlFlowGraph, cuts: seq<int>, allocatable: set<string>, summaries: seq<Summary>,
                                        liveIn: seq<set<string>>, liveOut: seq<set<string>>, k: int, p: seq<int>, name: string)
    requires Problem(body, g, cuts, allocatable, summaries) && Stable(g.graph, summaries, liveIn, liveOut)
    requires 0 <= k < |g.blocks| && 0 < cuts[k + 1] <= |body|
    requires name in allocatable && ReadAlong(body, name, p) && Flows(body, cuts[k + 1] - 1, p[0])
    ensures name in liveOut[k]
    decreases |p|, 1
  {
    var j := LeavesTo(body, g, cuts, k, p[0]);
    assert Piece(body, cuts, j);
    StableComplete(body, g, cuts, allocatable, summaries, liveIn, liveOut, j, p, name);
    OnwardFromStart(body, g.blocks, cuts, j, name);
    assert SummaryIs(summaries[j], allocatable, Code(g.blocks[j]));
    assert StableAt(g.graph, summaries, liveIn, liveOut, j);
    assert name in liveIn[j];
    assert StableAt(g.graph, summaries, liveIn, liveOut, k);
  }

  /** `liveOut` of every block is exactly what is live after its last instruction. */
  ghost predicate ExactLiveOut(body: Body, cuts: seq<int>, allocatable: set<string>, liveOut: seq<set<string>>) {
    && |cuts| == |liveOut| + 1
    && forall k, n :: 0 <= k < |liveOut| ==>
         (n in liveOut[k] <==> n in allocatable && 0 < cuts[k + 1] <= |body| && LiveAfter(body, n, cuts[k + 1] - 1))
  }

  lemma StableIsExact(body: Body, g: ControlFlowGraph, cuts: seq<int>, allocatable: set<string>, summaries: seq<Summary>,
                      liveIn: seq<set<string>>, liveOut: seq<set<string>>)
    requires Invariant(body, g, cuts, allocatable, summaries, liveIn, liveOut) && Stable(g.graph, summaries, liveIn, liveOut)
    ensures ExactLiveOut(body, cuts, allocatable, liveOut)
  {
    forall k, n | 0 <= k < |liveOut| && n in allocatable && 0 < cuts[k + 1] <= |body| && LiveAfter(body, n, cuts[k + 1] - 1)
      ensures n in liveOut[k]
    {
      var next :| Flows(body, cuts[k + 1] - 1, next) && 0 <= next < |body| && Live(body, n, next);
      var p :| ReadAlong(body, n, p) && p[0] == next;
      StableAcross(body, g, cuts, allocatable, summaries, liveIn, liveOut, k, p, n);
    }
    forall k, n | 0 <= k < |liveOut| && n in liveOut[k]
      ensures 0 < cuts[k + 1] <= |body| && LiveAfter(body, n, cuts[k + 1] - 1)
    {
      assert SoundAt(body, cuts, k, liveIn[k], liveOut[k]);
    }
  }

  ghost predicate AllSound(body: Body, cuts: seq<int>, allocatable: set<string>, liveIn: seq<set<string>>, liveOut: seq<set<string>>)
    requires |liveIn| == |liveOut| == |cuts| - 1
  {
    forall k :: 0 <= k < |liveIn| ==> liveIn[k] <= allocatable && liveOut[k] <= allocatable && SoundAt(body, cuts, k, liveIn[k], liveOut[k])
  }

  ghost predicate Invariant(body: Body, g: ControlFlowGraph, cuts: seq<int>, allocatable: set<string>, summaries: seq<Summary>,
                            liveIn: seq<set<string>>, liveOut: seq<set<string>>) {
    && Problem(body, g, cuts, allocatable, summaries) && Sized(g.graph, |summaries|)
    && |liveIn| == |liveOut| == |summaries| == |cuts| - 1
    && BelowNext(g.graph, summaries, liveIn, liveOut)
    && AllSound(body, cuts, allocatable, liveIn, liveOut)
  }

  lemma VisitAllSound(body: Body, g: ControlFlowGraph, cuts: seq<int>, allocatable: set<string>, summaries: seq<Summary>,
                      liveIn: seq<set<string>>, liveOut: seq<set<string>>, k: int)
    requires Invariant(body, g, cuts, allocatable, summaries, liveIn, liveOut) && 0 <= k < |summaries|
    ensures var out := NewOut(g.graph, liveIn, k);
      AllSound(body, cuts, allocatable, liveIn[k := Transferred(summaries[k], out)], liveOut[k := out])
  {
    forall i, n | 0 <= i < |liveIn| && n in liveIn[i] ensures Live(body, n, cuts[i]) {
      assert SoundAt(body, cuts, i, liveIn[i], liveOut[i]);
    }
    VisitSound(body, g, cuts, allocatable, summaries, liveIn, k);
    assert SummaryIs(summaries[k], allocatable, Code(g.blocks[k]));
    hide SoundAt, Problem, BelowNext;
  }

  lemma VisitGap(g: Graph, allocatable: set<string>, summaries: seq<Summary>, liveIn: seq<set<string>>, liveOut: seq<set<string>>, k: int,
                 wider: set<string>, out: set<string>)
    requires |liveIn| == |liveOut| && 0 <= k < |liveIn|
    requires liveIn[k] <= wider <= allocatable && liveOut[k] <= out <= allocatable
    requires wider != liveIn[k] || out != liveOut[k]
    ensures Gap(allocatable, liveIn[k := wider]) + Gap(allocatable, liveOut[k := out]) < Gap(allocatable, liveIn) + Gap(allocatable, liveOut)
  {
    GapShrinks(allocatable, liveIn, k, wider);
    GapShrinks(allocatable, liveOut, k, out);
  }

  /** One visit keeps the invariant and, when it changes something, leaves less to add. */
  lemma Visit(body: Body, g: ControlFlowGraph, cuts: seq<int>, allocatable: set<string>, summaries: seq<Summary>,
              liveIn: seq<set<string>>, liveOut: seq<set<string>>, k: int)
    requires Invariant(body, g, cuts, allocatable, summaries, liveIn, liveOut) && 0 <= k < |summaries|
    ensures var out := NewOut(g.graph, liveIn, k);
      var wider := Transferred(summaries[k], out);
      && Invariant(body, g, cuts, allocatable, summaries, liveIn[k := wider], liveOut[k := out])
      && (wider != liveIn[k] || out != liveOut[k] ==>
            Gap(allocatable, liveIn[k := wider]) + Gap(allocatable, liveOut[k := out]) < Gap(allocatable, liveIn) + Gap(allocatable, liveOut))
  {
    var out := NewOut(g.graph, liveIn, k);
    var wider := Transferred(summaries[k], out);
    VisitAllSound(body, g, cuts, allocatable, summaries, liveIn, liveOut, k);
    VisitKeepsBelow(g.graph, summaries, liveIn, liveOut, k);
    hide Problem, SoundAt, Gap, NewOut, Transferred;
    assert wider == liveIn[k := wider][k] && out == liveOut[k := out][k];
    if wider != liveIn[k] || out != liveOut[k] {
      VisitGap(g.graph, allocatable, summaries, liveIn, liveOut, k, wider, out);
    }
  }

  lemma InitialInvariant(body: Body, g: ControlFlowGraph, cuts: seq<int>, allocatable: set<string>, summaries: seq<Summary>, none: seq<set<string>>)
    requires Problem(body, g, cuts, allocatable, summaries)
    requires |none| == |summaries| && forall k :: 0 <= k < |none| ==> none[k] == {}
    ensures Invariant(body, g, cuts, allocatable, summaries, none, none)
  {
  }

  /** One pass over the blocks, in order. */
  method Sweep(g: Graph, allocatable: set<string>, summaries: seq<Summary>, liveIn0: seq<set<string>>, liveOut0: seq<set<string>>,
               ghost body: Body, ghost cfg: ControlFlowGraph, ghost cuts: seq<int>)
    returns (liveIn: seq<set<string>>, liveOut: seq<set<string>>, changed: bool)
    requires Invariant(body, cfg, cuts, allocatable, summaries, liveIn0, liveOut0) && cfg.graph == g
    ensures Invariant(body, cfg, cuts, allocatable, summaries, liveIn, liveOut)
    ensures changed ==> Gap(allocatable, liveIn) + Gap(allocatable, liveOut) < Gap(allocatable, liveIn0) + Gap(allocatable, liveOut0)
    ensures !changed ==> liveIn == liveIn0 && liveOut == liveOut0 && Stable(g, summaries, liveIn, liveOut)
  {
    liveIn, liveOut, changed := liveIn0, liveOut0, false;
    hide Problem, BelowNext, AllSound, Gap, NewOut, Transferred;
    for k := 0 to |summaries|
      invariant Invariant(body, cfg, cuts, allocatable, summaries, liveIn, liveOut)
      invariant changed ==> Gap(allocatable, liveIn) + Gap(allocatable, liveOut) < Gap(allocatable, liveIn0) + Gap(allocatable, liveOut0)
      invariant !changed ==> liveIn == liveIn0 && liveOut == liveOut0
      invariant !changed ==> forall i :: 0 <= i < k ==> StableAt(g, summaries, liveIn, liveOut, i)
    {
      Visit(body, cfg, cuts, allocatable, summaries, liveIn, liveOut, k);
      var newOut := NewOut(g, liveIn, k);
      var newIn := Transferred(summaries[k], newOut);
      if newIn != liveIn[k] || newOut != liveOut[k] {
        liveIn := liveIn[k := newIn];
        liveOut := liveOut[k := newOut];
        changed := true;
      }
    }
  }

  /** Iterates the block equations until nothing changes. */
  method Solve(g: Graph, allocatable: set<string>, summaries: seq<Summary>,
               ghost body: Body, ghost cfg: ControlFlowGraph, ghost cuts: seq<int>) returns (liveOut: seq<set<string>>)
    requires Problem(body, cfg, cuts, allocatable, summaries) && cfg.graph == g
    ensures ExactLiveOut(body, cuts, allocatable, liveOut)
  {
    var liveIn: seq<set<string>> := seq(|summaries|, _ => {});
    liveOut := seq(|summaries|, _ => {});
    InitialInvariant(body, cfg, cuts, allocatable, summaries, liveIn);
    hide Problem, Invariant, Gap, ExactLiveOut, Stable;
    var changed := true;
    while changed
      invariant Invariant(body, cfg, cuts, allocatable, summaries, liveIn, liveOut)
      invariant !changed ==> Stable(g, summaries, liveIn, liveOut)
      decreases Gap(allocatable, liveIn) + Gap(allocatable, liveOut), changed
    {
      liveIn, liveOut, changed := Sweep(g, allocatable, summaries, liveIn, liveOut, body, cfg, cuts);
    }
    StableIsExact(body, cfg, cuts, allocatable, summaries, liveIn, liveOut);
  }
}
