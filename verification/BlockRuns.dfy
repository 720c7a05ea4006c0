/** Running basic blocks along the recorded edges of a graph. */
module BlockRuns {
  import opened Common
  import opened IR
  import opened Cfg

  // ----- Runs -----

  /** How a block's code ends: it leaves by its branch or falls through, or it
      ends the run. */
  datatype Exit =
    | Leave(branch: bool, store: Store, trace: seq<Event>)
    | End(outcome: Option<int>, trace: seq<Event>)

  function RunCode(m: Machine, code: Body, s: Store, trace: seq<Event>): Exit {
    if code == [] then Leave(false, s, trace)
    else
      var i := code[0];
      match i
      case Jump(_) => Leave(true, s, trace)
      case BranchFalse(_, _, _, _) => if Holds(m, s, i) then RunCode(m, code[1..], s, trace) else Leave(true, s, trace)
      case Return(v) => End(if v.Some? then Some(ValueOf(m, s, v.value)) else None, trace)
      case TailCall(_, _) => End(Some(m.answer(Calls(m, i, s, trace))), Calls(m, i, s, trace))
      case _ => RunCode(m, code[1..], Effect(m, i, s, trace), Calls(m, i, s, trace))
  }

  predicate EndsInBranch(code: Body) {
    code != [] && code[|code| - 1].BranchFalse?
  }

  /** The successor lists hold the branch target first and the block that follows
      last (cc/cfg.py:227-241). */
  function NextBlock(code: Body, succ: seq<int>, branch: bool): Option<int> {
    if branch then (if |succ| >= 1 then Some(succ[0]) else None)
    else if EndsInBranch(code) then (if |succ| >= 2 then Some(succ[1]) else None)
    else (if |succ| >= 1 then Some(succ[0]) else None)
  }

  datatype Outcome = Ended(outcome: Option<int>, trace: seq<Event>) | Ran(trace: seq<Event>)

  /** The original blocks, with `fuel` edges allowed. */
  function RunBlocks(m: Machine, codes: seq<Body>, g: Graph, b: int, s: Store, trace: seq<Event>, fuel: nat): Outcome
    requires 0 <= b < |codes| && |codes| == |g.succ|
    decreases fuel
  {
    match RunCode(m, codes[b], s, trace)
    case End(v, tr) => Ended(v, tr)
    case Leave(branch, s', tr) =>
      match NextBlock(codes[b], g.succ[b], branch)
      case None => Ended(None, tr)
      case Some(c) =>
        if fuel == 0 || !(0 <= c < |codes|) then Ran(tr) else RunBlocks(m, codes, g, c, s', tr, fuel - 1)
  }

  lemma RunCodeStep(m: Machine, code: Body, s: Store, trace: seq<Event>)
    requires code != [] && !IsTerminator(code[0])
    ensures RunCode(m, code, s, trace) == RunCode(m, code[1..], Effect(m, code[0], s, trace), Calls(m, code[0], s, trace))
  {
  }

  /** More edges let a run go on; one that has ended stays as it is. */
  lemma {:induction false} MoreEdges(m: Machine, codes: seq<Body>, g: Graph, b: int, s: Store, trace: seq<Event>, fuel: nat, more: nat)
    requires 0 <= b < |codes| && |codes| == |g.succ| && fuel <= more
    ensures RunBlocks(m, codes, g, b, s, trace, fuel).Ended? ==> RunBlocks(m, codes, g, b, s, trace, more) == RunBlocks(m, codes, g, b, s, trace, fuel)
    decreases fuel
  {
    hide RunCode, NextBlock;
    var x := RunCode(m, codes[b], s, trace);
    if x.Leave? && fuel > 0 {
      var next := NextBlock(codes[b], g.succ[b], x.branch);
      if next.Some? && 0 <= next.value < |codes| { MoreEdges(m, codes, g, next.value, x.store, x.trace, fuel - 1, more - 1); }
    }
  }

  // ----- Edges that take a detour -----

  /** The run of the blocks in `after` from block `entry`, with as many edges or more,
      does what the run of the blocks in `before` does. */
  ghost predicate RunMatched(m: Machine, g: Graph, before: seq<Body>, r: Graph, after: seq<Body>, entry: int, s: Store, fuel: nat)
    requires 0 < |before| == |g.succ| && 0 <= entry < |after| == |r.succ|
  {
    exists f: nat :: f >= fuel && RunBlocks(m, after, r, entry, s, [], f) == RunBlocks(m, before, g, 0, s, [], fuel)
  }

  /** Then both end alike, and so they also go on for ever alike. */
  lemma RunMatchedEndsAlike(m: Machine, g: Graph, before: seq<Body>, r: Graph, after: seq<Body>, entry: int, s: Store, e: Outcome)
    requires 0 < |before| == |g.succ| && 0 <= entry < |after| == |r.succ| && e.Ended?
    requires forall fuel: nat :: RunMatched(m, g, before, r, after, entry, s, fuel)
    ensures (exists f: nat :: RunBlocks(m, after, r, entry, s, [], f) == e) <==> (exists f: nat :: RunBlocks(m, before, g, 0, s, [], f) == e)
  {
    hide RunBlocks;
    if f: nat :| RunBlocks(m, before, g, 0, s, [], f) == e {
      assert RunMatched(m, g, before, r, after, entry, s, f);
    }
    if f: nat :| RunBlocks(m, after, r, entry, s, [], f) == e {
      assert RunMatched(m, g, before, r, after, entry, s, f);
      var h: nat :| h >= f && RunBlocks(m, after, r, entry, s, [], h) == RunBlocks(m, before, g, 0, s, [], f);
      MoreEdges(m, after, r, entry, s, [], f, h);
      assert RunBlocks(m, before, g, 0, s, [], f) == e;
    }
  }

  predicate LoneJump(code: Body) { |code| == 1 && code[0].Jump? }

  /** An edge leads where it led, or to a new block that leads there. */
  predicate LeadsTo(r: Graph, n: int, was: int, now: int) {
    now == was || (0 <= n <= now < |r.succ| && r.succ[now] == [was])
  }

  ghost predicate Detour(r: Graph, n: int, was: seq<int>, now: seq<int>) {
    |now| == |was| && forall i :: 0 <= i < |was| ==> LeadsTo(r, n, was[i], now[i])
  }

  /** The old blocks, some of whose edges now pass through new empty ones. */
  ghost predicate Detoured(g: Graph, before: seq<Body>, r: Graph, after: seq<Body>) {
    && |before| == |g.succ| <= |r.succ| == |after|
    && (forall b :: 0 <= b < |before| ==> after[b] == before[b] && Detour(r, |g.succ|, g.succ[b], r.succ[b]))
    && forall b :: |before| <= b < |after| ==> LoneJump(after[b])
  }

  lemma NextIsDetour(r: Graph, n: int, code: Body, was: seq<int>, now: seq<int>, branch: bool)
    requires Detour(r, n, was, now)
    ensures var x, y := NextBlock(code, was, branch), NextBlock(code, now, branch);
      (x.None? <==> y.None?) && (x.Some? ==> x.value in was && LeadsTo(r, n, x.value, y.value))
  {
    hide LeadsTo;
  }

  lemma ThroughDetour(m: Machine, g: Graph, before: seq<Body>, r: Graph, after: seq<Body>, c: int, n: int, s: Store, trace: seq<Event>, fuel: nat)
    requires Detoured(g, before, r, after) && LeadsTo(r, |g.succ|, c, n) && n != c && 0 <= c < |before|
    ensures 0 <= n < |after| && RunBlocks(m, after, r, n, s, trace, fuel + 1) == RunBlocks(m, after, r, c, s, trace, fuel)
  {
    assert RunCode(m, after[n], s, trace) == Leave(true, s, trace);
    assert NextBlock(after[n], r.succ[n], true) == Some(c);
    hide RunCode, NextBlock, Detour;
  }

  /** A run over the detours takes more edges and does the same. */
  lemma {:induction false} DetoursRun(m: Machine, g: Graph, before: seq<Body>, r: Graph, after: seq<Body>, b: int, s: Store, trace: seq<Event>, fuel: nat) returns (f: nat)
    requires ValidGraph(g) && Detoured(g, before, r, after) && 0 <= b < |before|
    ensures RunBlocks(m, after, r, b, s, trace, f) == RunBlocks(m, before, g, b, s, trace, fuel) && f >= fuel
    decreases fuel
  {
    hide RunCode, NextBlock, LeadsTo, Detour;
    f := fuel;
    var x := RunCode(m, before[b], s, trace);
    if x.Leave? {
      NextIsDetour(r, |g.succ|, before[b], g.succ[b], r.succ[b], x.branch);
      var next, now := NextBlock(before[b], g.succ[b], x.branch), NextBlock(before[b], r.succ[b], x.branch);
      if next.Some? && fuel > 0 {
        assert 0 <= next.value < |before|;
        f := DetoursRun(m, g, before, r, after, next.value, x.store, x.trace, fuel - 1);
        if now.value != next.value {
          ThroughDetour(m, g, before, r, after, next.value, now.value, x.store, x.trace, f);
          f := f + 1;
        } else {
          assert 0 <= now.value < |after|;
        }
        f := f + 1;
      }
    }
  }

  // ----- Instructions in front of a terminator -----

  predicate EndsInTerminator(code: Body) { code != [] && IsTerminator(code[|code| - 1]) }

  /** How much of a block comes before its terminator. */
  function FrontOf(code: Body): (k: int)
    ensures 0 <= k <= |code|
  {
    if EndsInTerminator(code) then |code| - 1 else |code|
  }

  function WithCopies(code: Body, copies: Body): Body {
    code[..FrontOf(code)] + copies + code[FrontOf(code)..]
  }

  /** Copies and operations only. */
  ghost predicate AllPlain(code: Body) {
    forall k :: 0 <= k < |code| ==> code[k].Copy? || code[k].BinaryOperation?
  }

  lemma FrontWithCopies(code: Body, copies: Body)
    requires AllPlain(copies)
    ensures FrontOf(WithCopies(code, copies)) == FrontOf(code) + |copies|
  {
    var r := WithCopies(code, copies);
    if EndsInTerminator(code) {
      assert r[|r| - 1] == code[|code| - 1];
    } else if copies != [] {
      assert r[|r| - 1] == copies[|copies| - 1];
    } else {
      assert r == code;
    }
  }

  lemma OneMoreCopy(code: Body, copies: Body, c: Instruction)
    requires AllPlain(copies)
    ensures WithCopies(WithCopies(code, copies), [c]) == WithCopies(code, copies + [c])
  {
    FrontWithCopies(code, copies);
    var r, k := WithCopies(code, copies), FrontOf(code);
    assert r[..k + |copies|] == code[..k] + copies;
    assert r[k + |copies|..] == code[k..];
  }

  function RunCopies(m: Machine, copies: Body, s: Store): Store {
    if copies == [] then s else Effect(m, copies[|copies| - 1], RunCopies(m, copies[..|copies| - 1], s), [])
  }

  /** Only the last instruction may transfer control. */
  ghost predicate Straight(code: Body) {
    forall k :: 0 <= k < |code| - 1 ==> !IsTerminator(code[k])
  }

  /** Control leaves the block in one way only. */
  predicate OneWay(code: Body) {
    EndsInTerminator(code) ==> code[|code| - 1].Jump?
  }

  lemma {:induction false} CopiesThen(m: Machine, copies: Body, rest: Body, s: Store, trace: seq<Event>)
    requires AllPlain(copies)
    ensures RunCode(m, copies + rest, s, trace) == RunCode(m, rest, RunCopies(m, copies, s), trace)
    decreases |copies|
  {
    if copies == [] {
      assert copies + rest == rest;
    } else {
      var n := |copies| - 1;
      var front, c := copies[..n], copies[n];
      assert copies + rest == front + ([c] + rest);
      CopiesThen(m, front, [c] + rest, s, trace);
      assert ([c] + rest)[1..] == rest;
      hide RunCopies;
      assert RunCode(m, [c] + rest, RunCopies(m, front, s), trace) == RunCode(m, rest, Effect(m, c, RunCopies(m, front, s), trace), trace);
    }
  }

  /** The copies change none of these names. */
  ghost predicate Indifferent(m: Machine, copies: Body, names: set<string>) {
    forall w: Store, x :: x in names ==> Read(m, RunCopies(m, copies, w), x) == Read(m, w, x)
  }

  lemma SameOperands(m: Machine, vs: seq<Value>, s: Store, w: Store)
    requires forall x :: x in NamesOfAll(vs) ==> Read(m, w, x) == Read(m, s, x)
    ensures ValuesOf(m, w, vs) == ValuesOf(m, s, vs)
  {
    forall k | 0 <= k < |vs| ensures ValueOf(m, w, vs[k]) == ValueOf(m, s, vs[k]) {
      if vs[k].Name? { assert vs[k].id in NamesOfAll(vs); }
    }
  }

  /** A terminator that reads the same decides the same. */
  lemma SameTerminator(m: Machine, i: Instruction, s: Store, w: Store, trace: seq<Event>)
    requires IsTerminator(i) && forall x :: x in Uses(i) ==> Read(m, w, x) == Read(m, s, x)
    ensures var x, y := RunCode(m, [i], s, trace), RunCode(m, [i], w, trace);
      if x.End? then y == x else x.store == s && y == Leave(x.branch, w, x.trace)
  {
    assert [i][1..] == [];
    if i.TailCall? { SameOperands(m, i.args, s, w); }
    hide Read, Compare;
  }

  /** Copies in front of the terminator run last. */
  lemma {:induction false} CopiesRunLast(m: Machine, code: Body, copies: Body, s: Store, trace: seq<Event>)
    requires Straight(code) && AllPlain(copies) && (EndsInTerminator(code) ==> Indifferent(m, copies, Uses(code[|code| - 1])))
    ensures var x, y := RunCode(m, code, s, trace), RunCode(m, WithCopies(code, copies), s, trace);
      if x.End? then y == x else y == Leave(x.branch, RunCopies(m, copies, x.store), x.trace)
    decreases |code|
  {
    var all := WithCopies(code, copies);
    if FrontOf(code) == 0 {
      assert all == copies + code;
      CopiesThen(m, copies, code, s, trace);
      if code != [] {
        assert code == [code[0]];
        SameTerminator(m, code[0], s, RunCopies(m, copies, s), trace);
      }
      hide Uses, Read, RunCopies;
    } else {
      assert !IsTerminator(code[0]);
      var tail := code[1..];
      TailStraight(code);
      CopiesRunLast(m, tail, copies, Effect(m, code[0], s, trace), Calls(m, code[0], s, trace));
      assert all[0] == code[0] && all[1..] == WithCopies(tail, copies) by { TailWithCopies(code, copies); }
      RunCodeStep(m, code, s, trace);
      RunCodeStep(m, all, s, trace);
      hide RunCode, WithCopies, Effect, Calls;
    }
  }

  /** A block that is left in one way always gets there. */
  lemma {:induction false} OneWayLeaves(m: Machine, code: Body, s: Store, trace: seq<Event>)
    requires Straight(code) && OneWay(code)
    ensures RunCode(m, code, s, trace).Leave? && (EndsInTerminator(code) ==> Uses(code[|code| - 1]) == {})
    decreases |code|
  {
    if FrontOf(code) > 0 {
      TailStraight(code);
      OneWayLeaves(m, code[1..], Effect(m, code[0], s, trace), Calls(m, code[0], s, trace));
    }
    hide Effect, Calls, Holds;
  }

  lemma TailStraight(code: Body)
    requires Straight(code) && code != []
    ensures Straight(code[1..]) && (OneWay(code) ==> OneWay(code[1..]))
    ensures |code| > 1 ==> EndsInTerminator(code[1..]) == EndsInTerminator(code) && code[1..][|code| - 2] == code[|code| - 1]
  {
    var tail := code[1..];
    forall k | 0 <= k < |tail| - 1 ensures !IsTerminator(tail[k]) { assert tail[k] == code[k + 1]; }
  }

  lemma TailWithCopies(code: Body, copies: Body)
    requires FrontOf(code) > 0
    ensures WithCopies(code, copies) != [] && WithCopies(code, copies)[0] == code[0] && WithCopies(code, copies)[1..] == WithCopies(code[1..], copies)
  {
    var tail := code[1..];
    if tail != [] { assert tail[|tail| - 1] == code[|code| - 1]; }
    assert FrontOf(tail) == FrontOf(code) - 1;
    assert code[..FrontOf(code)][1..] == tail[..FrontOf(tail)];
  }

  lemma CopiesKeepEnding(code: Body, copies: Body)
    requires AllPlain(copies)
    ensures EndsInBranch(WithCopies(code, copies)) == EndsInBranch(code)
  {
    var r := WithCopies(code, copies);
    if EndsInTerminator(code) {
      assert r[|r| - 1] == code[|code| - 1];
    } else if copies != [] {
      assert r[|r| - 1] == copies[|copies| - 1];
    } else {
      assert r == code;
    }
  }
}
