/** Strength reduction over whole loops (cc/loops.py:242-275, 343-411, 1118-1169,
    1505-1551). */
module LoopReduction {
  import opened Common
  import opened IR
  import opened Cfg
  import opened SsaNames
  import opened BlockRuns
  import opened Dominance
  import opened Dominators
  import opened NaturalLoops
  import opened Preheaders
  import opened StrengthReduction

  // ----- Names of accumulators -----

  const PREFIX := "_ir_lsr_acc_"

  function AccName(n: nat): string { PREFIX + Decimal(n) }

  ghost predicate IsAcc(x: string) { exists n: nat :: x == AccName(n) }

  /** An accumulator that has not been handed out yet. */
  ghost predicate AccFrom(x: string, lo: nat) { exists n: nat :: lo <= n && x == AccName(n) }

  lemma AccNamesDiffer(a: nat, b: nat)
    requires AccName(a) == AccName(b)
    ensures a == b
  {
    assert AccName(a)[|PREFIX|..] == Decimal(a) && AccName(b)[|PREFIX|..] == Decimal(b);
    DecimalValue(a);
    DecimalValue(b);
  }

  lemma OwnAcc(n: nat)
    ensures AccFrom(AccName(n), n) && !AccFrom(AccName(n), n + 1) && IsAcc(AccName(n))
  {
    if AccFrom(AccName(n), n + 1) {
      var k: nat :| n + 1 <= k && AccName(n) == AccName(k);
      AccNamesDiffer(n, k);
    }
  }

  lemma AccFromLess(x: string, lo: nat, hi: nat)
    requires AccFrom(x, hi) && lo <= hi
    ensures AccFrom(x, lo)
  {
    var n: nat :| hi <= n && x == AccName(n);
  }

  // ----- Counting definitions -----

  function Written(i: Instruction, x: string): int { if x in Defs(i) then 1 else 0 }

  function DefsIn(code: Body, x: string): (n: int)
    ensures n >= 0
  {
    if code == [] then 0 else Written(code[0], x) + DefsIn(code[1..], x)
  }

  /** How often the blocks in `order` write `x`. */
  function LoopDefs(codes: seq<Body>, order: seq<int>, x: string): (n: int)
    ensures n >= 0
  {
    if order == [] then 0
    else (if 0 <= order[0] < |codes| then DefsIn(codes[order[0]], x) else 0) + LoopDefs(codes, order[1..], x)
  }

  lemma {:induction false} DefsAt(code: Body, x: string, k: int)
    requires 0 <= k < |code| && x in Defs(code[k])
    ensures DefsIn(code, x) >= 1
    ensures DefsIn(code, x) == 1 ==> forall j :: 0 <= j < |code| && j != k ==> x !in Defs(code[j])
    decreases |code|
  {
    hide Defs;
    var tail := code[1..];
    if k > 0 {
      DefsAt(tail, x, k - 1);
      forall j | 0 <= j < |code| && j != k && DefsIn(code, x) == 1 ensures x !in Defs(code[j]) {
        if j > 0 { assert tail[j - 1] == code[j]; }
      }
    } else {
      forall j | 1 <= j < |code| && DefsIn(code, x) == 1 ensures x !in Defs(code[j]) {
        if x in Defs(tail[j - 1]) { DefsAt(tail, x, j - 1); }
      }
    }
  }

  ghost predicate DistinctOrder(order: seq<int>) {
    forall i, j :: 0 <= i < j < |order| ==> order[i] != order[j]
  }

  lemma {:induction false} LoopDefsAt(codes: seq<Body>, order: seq<int>, x: string, i: int)
    requires 0 <= i < |order| && 0 <= order[i] < |codes|
    ensures LoopDefs(codes, order, x) >= DefsIn(codes[order[i]], x)
    ensures LoopDefs(codes, order, x) == 1 && DefsIn(codes[order[i]], x) == 1 ==>
      forall j :: 0 <= j < |order| && j != i && 0 <= order[j] < |codes| ==> DefsIn(codes[order[j]], x) == 0
    decreases |order|
  {
    hide DefsIn;
    var tail := order[1..];
    if i > 0 {
      LoopDefsAt(codes, tail, x, i - 1);
      forall j | 0 <= j < |order| && j != i && 0 <= order[j] < |codes| && LoopDefs(codes, order, x) == 1 && DefsIn(codes[order[i]], x) == 1
        ensures DefsIn(codes[order[j]], x) == 0
      {
        if j > 0 { assert tail[j - 1] == order[j]; }
      }
    } else {
      forall j | 1 <= j < |order| && 0 <= order[j] < |codes| && LoopDefs(codes, order, x) == 1 && DefsIn(codes[order[0]], x) == 1
        ensures DefsIn(codes[order[j]], x) == 0
      {
        LoopDefsAt(codes, tail, x, j - 1);
      }
    }
  }

  /** A name written once in the loop, by a step, is written by nothing else there. */
  lemma SingleStep(codes: seq<Body>, order: seq<int>, iv: string, i: int, k: int)
    requires 0 <= i < |order| && (forall j :: 0 <= j < |order| ==> 0 <= order[j] < |codes|) && 0 <= k < |codes[order[i]]|
    requires LoopDefs(codes, order, iv) == 1 && StepOf(codes[order[i]][k], iv).Some?
    ensures forall j :: 0 <= j < |order| ==> OnlySteps(codes[order[j]], iv)
  {
    var code := codes[order[i]];
    assert iv in Defs(code[k]);
    DefsAt(code, iv, k);
    LoopDefsAt(codes, order, iv, i);
    hide Defs, StepOf;
    forall j | 0 <= j < |order| ensures OnlySteps(codes[order[j]], iv) {
      forall q | 0 <= q < |codes[order[j]]| && iv in Defs(codes[order[j]][q]) ensures StepOf(codes[order[j]][q], iv).Some? {
        DefsAt(codes[order[j]], iv, q);
      }
    }
  }

  // ----- Induction variables -----

  /** The instruction is `x = x + step`, or `x = x - n` where the step is `-n`. */
  ghost predicate Steps(i: Instruction, x: string, step: int) {
    i == BinaryOperation(x, Name(x), "+", Literal(step)) || i == BinaryOperation(x, Name(x), "-", Literal(-step))
  }

  /** Of all instructions in the loop, only this one writes `x`. */
  ghost predicate OnlyAt(codes: seq<Body>, order: seq<int>, x: string, i: int, k: int) {
    && 0 <= i < |order| && 0 <= order[i] < |codes| && 0 <= k < |codes[order[i]]| && x in Defs(codes[order[i]][k])
    && forall j, q :: 0 <= j < |order| && 0 <= order[j] < |codes| && 0 <= q < |codes[order[j]]| && x in Defs(codes[order[j]][q]) ==> j == i && q == k
  }

  /** Written once in the loop, by adding a constant to itself or subtracting one. */
  ghost predicate Inductive(codes: seq<Body>, order: seq<int>, x: string, step: int) {
    exists i, k :: OnlyAt(codes, order, x, i, k) && Steps(codes[order[i]][k], x, step)
  }

  lemma StepIs(i: Instruction, x: string, step: int)
    ensures StepOf(i, x) == Some(step) <==> Steps(i, x, step)
    ensures Steps(i, x, step) ==> x in Defs(i)
  {
  }

  lemma {:induction false} DefsNone(code: Body, x: string)
    requires forall k :: 0 <= k < |code| ==> x !in Defs(code[k])
    ensures DefsIn(code, x) == 0
    decreases |code|
  {
    hide Defs;
    if code != [] {
      forall k | 0 <= k < |code[1..]| ensures x !in Defs(code[1..][k]) { assert code[1..][k] == code[k + 1]; }
      DefsNone(code[1..], x);
    }
  }

  lemma {:induction false} DefsOne(code: Body, x: string, k: int)
    requires 0 <= k < |code| && x in Defs(code[k]) && forall q :: 0 <= q < |code| && q != k ==> x !in Defs(code[q])
    ensures DefsIn(code, x) == 1
    decreases |code|
  {
    hide Defs;
    var tail := code[1..];
    assert forall q :: 0 <= q < |tail| ==> tail[q] == code[q + 1];
    if k == 0 { DefsNone(tail, x); } else { DefsOne(tail, x, k - 1); }
  }

  lemma {:induction false} LoopNone(codes: seq<Body>, order: seq<int>, x: string)
    requires forall j :: 0 <= j < |order| && 0 <= order[j] < |codes| ==> DefsIn(codes[order[j]], x) == 0
    ensures LoopDefs(codes, order, x) == 0
    decreases |order|
  {
    hide DefsIn;
    if order != [] {
      assert forall j :: 0 <= j < |order[1..]| ==> order[1..][j] == order[j + 1];
      LoopNone(codes, order[1..], x);
    }
  }

  lemma {:induction false} LoopOne(codes: seq<Body>, order: seq<int>, x: string, i: int)
    requires 0 <= i < |order| && 0 <= order[i] < |codes| && DefsIn(codes[order[i]], x) == 1
    requires forall j :: 0 <= j < |order| && j != i && 0 <= order[j] < |codes| ==> DefsIn(codes[order[j]], x) == 0
    ensures LoopDefs(codes, order, x) == 1
    decreases |order|
  {
    hide DefsIn;
    var tail := order[1..];
    assert forall j :: 0 <= j < |tail| ==> tail[j] == order[j + 1];
    if i == 0 { LoopNone(codes, tail, x); } else { LoopOne(codes, tail, x, i - 1); }
  }

  lemma OnlyIsCounted(codes: seq<Body>, order: seq<int>, x: string, i: int, k: int)
    requires OnlyAt(codes, order, x, i, k)
    ensures LoopDefs(codes, order, x) == 1
  {
    hide Defs, DefsIn, LoopDefs;
    DefsOne(codes[order[i]], x, k);
    forall j | 0 <= j < |order| && j != i && 0 <= order[j] < |codes| ensures DefsIn(codes[order[j]], x) == 0 { DefsNone(codes[order[j]], x); }
    LoopOne(codes, order, x, i);
  }

  lemma CountedIsOnly(codes: seq<Body>, order: seq<int>, x: string, i: int, k: int)
    requires 0 <= i < |order| && 0 <= order[i] < |codes| && 0 <= k < |codes[order[i]]| && x in Defs(codes[order[i]][k])
    requires LoopDefs(codes, order, x) == 1
    ensures OnlyAt(codes, order, x, i, k)
  {
    hide Defs, DefsIn, LoopDefs;
    DefsAt(codes[order[i]], x, k);
    LoopDefsAt(codes, order, x, i);
    forall j, q | 0 <= j < |order| && 0 <= order[j] < |codes| && 0 <= q < |codes[order[j]]| && x in Defs(codes[order[j]][q]) ensures j == i && q == k {
      DefsAt(codes[order[j]], x, q);
    }
  }

  /** Counting the writes finds the same variables and steps. */
  lemma InductiveIff(codes: seq<Body>, order: seq<int>, x: string, step: int)
    ensures Inductive(codes, order, x, step) <==> CountedStep(codes, order, x, step)
  {
    hide Defs, LoopDefs, StepOf, Steps;
    if Inductive(codes, order, x, step) {
      var i, k :| OnlyAt(codes, order, x, i, k) && Steps(codes[order[i]][k], x, step);
      OnlyIsCounted(codes, order, x, i, k);
      StepIs(codes[order[i]][k], x, step);
    }
    if CountedStep(codes, order, x, step) {
      var i, k :| 0 <= i < |order| && 0 <= order[i] < |codes| && 0 <= k < |codes[order[i]]| && StepOf(codes[order[i]][k], x) == Some(step);
      StepIs(codes[order[i]][k], x, step);
      CountedIsOnly(codes, order, x, i, k);
    }
  }

  lemma OneStep(codes: seq<Body>, order: seq<int>, x: string, a: int, b: int)
    requires Inductive(codes, order, x, a) && Inductive(codes, order, x, b)
    ensures a == b
  {
    var i, k :| OnlyAt(codes, order, x, i, k) && Steps(codes[order[i]][k], x, a);
    var j, q :| OnlyAt(codes, order, x, j, q) && Steps(codes[order[j]][q], x, b);
  }

  /** As the pass finds it: by counting the writes. */
  ghost predicate CountedStep(codes: seq<Body>, order: seq<int>, x: string, step: int) {
    && LoopDefs(codes, order, x) == 1
    && exists i, k :: 0 <= i < |order| && 0 <= order[i] < |codes| && 0 <= k < |codes[order[i]]| && StepOf(codes[order[i]][k], x) == Some(step)
  }

  lemma CountedIs(codes: seq<Body>, order: seq<int>, x: string, step: int, i: int, k: int)
    requires 0 <= i < |order| && 0 <= order[i] < |codes| && 0 <= k < |codes[order[i]]|
    requires LoopDefs(codes, order, x) == 1 && StepOf(codes[order[i]][k], x) == Some(step)
    ensures CountedStep(codes, order, x, step)
  {
    hide StepOf, LoopDefs;
  }

  method FindInductionVariables(codes: seq<Body>, order: seq<int>) returns (ivs: map<string, int>)
    requires forall j :: 0 <= j < |order| ==> 0 <= order[j] < |codes|
    ensures forall x, step :: Inductive(codes, order, x, step) <==> x in ivs && ivs[x] == step
  {
    hide CountedStep, LoopDefs, StepOf, Inductive;
    ivs := map[];
    for i := 0 to |order|
      invariant forall x :: x in ivs ==> CountedStep(codes, order, x, ivs[x])
      invariant forall j, k, x :: 0 <= j < i && 0 <= k < |codes[order[j]]| && LoopDefs(codes, order, x) == 1 && StepOf(codes[order[j]][k], x).Some? ==> x in ivs
    {
      var code := codes[order[i]];
      for k := 0 to |code|
        invariant forall x :: x in ivs ==> CountedStep(codes, order, x, ivs[x])
        invariant forall j, k, x :: 0 <= j < i && 0 <= k < |codes[order[j]]| && LoopDefs(codes, order, x) == 1 && StepOf(codes[order[j]][k], x).Some? ==> x in ivs
        invariant forall q, x :: 0 <= q < k && LoopDefs(codes, order, x) == 1 && StepOf(code[q], x).Some? ==> x in ivs
      {
        var x := DestinationOf(code[k]);
        StepDestination(code[k]);
        if x.Some? && LoopDefs(codes, order, x.value) == 1 && StepOf(code[k], x.value).Some? {
          CountedIs(codes, order, x.value, StepOf(code[k], x.value).value, i, k);
          ivs := ivs[x.value := StepOf(code[k], x.value).value];
        }
      }
    }
    forall x, step ensures Inductive(codes, order, x, step) <==> x in ivs && ivs[x] == step { FoundIff(codes, order, ivs, x, step); }
  }

  lemma FoundIff(codes: seq<Body>, order: seq<int>, ivs: map<string, int>, x: string, step: int)
    requires forall j :: 0 <= j < |order| ==> 0 <= order[j] < |codes|
    requires forall y :: y in ivs ==> CountedStep(codes, order, y, ivs[y])
    requires forall i, k, y :: 0 <= i < |order| && 0 <= k < |codes[order[i]]| && LoopDefs(codes, order, y) == 1 && StepOf(codes[order[i]][k], y).Some? ==> y in ivs
    ensures Inductive(codes, order, x, step) <==> x in ivs && ivs[x] == step
  {
    InductiveIff(codes, order, x, step);
    if x in ivs { InductiveIff(codes, order, x, ivs[x]); }
    hide LoopDefs, StepOf, Inductive;
    if Inductive(codes, order, x, step) { OneStep(codes, order, x, step, ivs[x]); }
  }

  lemma StepDestination(i: Instruction)
    ensures forall x :: StepOf(i, x).Some? ==> DestinationOf(i) == Some(x)
  {
  }

  // ----- Candidates -----

  /** The variable and the factor of a product `iv * k` or `k * iv`. */
  datatype Product = Product(iv: string, factor: int)

  function AsProduct(i: Instruction, ivs: map<string, int>): Option<Product> {
    if !i.BinaryOperation? || i.operation != "*" then None
    else if i.left.Name? && i.left.id in ivs && i.right.Literal? then Some(Product(i.left.id, i.right.n))
    else if i.right.Name? && i.right.id in ivs && i.left.Literal? then Some(Product(i.right.id, i.left.n))
    else None
  }

  /** A product of an induction variable whose destination is written once in the
      function. */
  predicate Candidate(i: Instruction, ivs: map<string, int>, counts: map<string, int>) {
    AsProduct(i, ivs).Some? && i.destination in counts && counts[i.destination] == 1
  }

  ghost function CountIn(code: Body, ivs: map<string, int>, counts: map<string, int>): (n: nat) {
    if code == [] then 0 else (if Candidate(code[0], ivs, counts) then 1 else 0) + CountIn(code[1..], ivs, counts)
  }

  ghost function CountAll(codes: seq<Body>, order: seq<int>, ivs: map<string, int>, counts: map<string, int>): (n: nat) {
    if order == [] then 0
    else (if 0 <= order[0] < |codes| then CountIn(codes[order[0]], ivs, counts) else 0) + CountAll(codes, order[1..], ivs, counts)
  }

  ghost predicate NoneIn(code: Body, ivs: map<string, int>, counts: map<string, int>) {
    forall k :: 0 <= k < |code| ==> !Candidate(code[k], ivs, counts)
  }

  ghost predicate NoneLeft(codes: seq<Body>, order: seq<int>, ivs: map<string, int>, counts: map<string, int>) {
    forall i :: 0 <= i < |order| && 0 <= order[i] < |codes| ==> NoneIn(codes[order[i]], ivs, counts)
  }

  /** The first candidate: place in `order` and in the block. */
  datatype Place = Place(i: int, k: int)

  ghost predicate IsPlace(codes: seq<Body>, order: seq<int>, ivs: map<string, int>, counts: map<string, int>, p: Place) {
    && 0 <= p.i < |order| && 0 <= order[p.i] < |codes| && 0 <= p.k < |codes[order[p.i]]|
    && Candidate(codes[order[p.i]][p.k], ivs, counts)
  }

  method FindCandidate(codes: seq<Body>, order: seq<int>, ivs: map<string, int>, counts: map<string, int>) returns (found: Option<Place>)
    requires forall j :: 0 <= j < |order| ==> 0 <= order[j] < |codes|
    ensures found.None? ==> NoneLeft(codes, order, ivs, counts)
    ensures found.Some? ==> IsPlace(codes, order, ivs, counts, found.value)
  {
    hide Candidate;
    found := None;
    var i := 0;
    while i < |order| && found.None?
      invariant 0 <= i <= |order|
      invariant found.Some? ==> IsPlace(codes, order, ivs, counts, found.value)
      invariant found.None? ==> forall j :: 0 <= j < i ==> NoneIn(codes[order[j]], ivs, counts)
      decreases |order| - i, if found.None? then 1 else 0
    {
      var code := codes[order[i]];
      var k := 0;
      while k < |code| && !Candidate(code[k], ivs, counts)
        invariant 0 <= k <= |code| && forall q :: 0 <= q < k ==> !Candidate(code[q], ivs, counts)
      {
        k := k + 1;
      }
      if k < |code| { found := Some(Place(i, k)); } else { i := i + 1; }
    }
  }

  lemma AsProductIs(i: Instruction, ivs: map<string, int>, acc: string)
    requires AsProduct(i, ivs).Some?
    ensures var q := AsProduct(i, ivs).value; q.iv in ivs && q.iv in Uses(i) && IsProduct(i, Reduction(q.iv, q.factor, acc))
    ensures i.BinaryOperation? && i.operation == "*"
  {
  }

  // ----- One reduction -----

  function StepBlock(code: Body, d: Reduction, at: int): Body { Updated(Replaced(code, at, d.acc), d) }

  /** The blocks after one reduction of the product at place `p`. */
  function Rewritten(codes: seq<Body>, order: seq<int>, pre: int, d: Reduction, p: Place): (r: seq<Body>)
    ensures |r| == |codes|
  {
    seq(|codes|, b requires 0 <= b < |codes| =>
      if b in order then StepBlock(codes[b], d, if 0 <= p.i < |order| && order[p.i] == b then p.k else -1)
      else if b == pre then WithCopies(codes[b], [Initial(d)])
      else codes[b])
  }

  method Rewrite(codes0: seq<Body>, order: seq<int>, pre: int, d: Reduction, p: Place) returns (codes: seq<Body>)
    requires (forall j :: 0 <= j < |order| ==> 0 <= order[j] < |codes0|) && DistinctOrder(order) && 0 <= pre < |codes0| && pre !in order
    requires 0 <= p.i < |order| && 0 <= p.k < |codes0[order[p.i]]|
    ensures codes == Rewritten(codes0, order, pre, d, p)
  {
    hide Updated, WithCopies;
    codes := codes0[pre := WithCopies(codes0[pre], [Initial(d)])];
    codes := codes[order[p.i] := Replaced(codes[order[p.i]], p.k, d.acc)];
    ghost var start := codes;
    for n := 0 to |order|
      invariant |codes| == |codes0|
      invariant forall b :: 0 <= b < |codes| ==> codes[b] == if b in order[..n] then Updated(start[b], d) else start[b]
    {
      assert order[n] !in order[..n];
      codes := codes[order[n] := Updated(codes[order[n]], d)];
    }
    assert order[..|order|] == order;
    forall b | 0 <= b < |codes| ensures codes[b] == Rewritten(codes0, order, pre, d, p)[b] {
      assert Replaced(codes0[b], -1, d.acc) == codes0[b];
    }
  }

  // ----- What each reduction keeps -----

  ghost predicate NoAccIn(code: Body, lo: nat) {
    forall k, x :: 0 <= k < |code| && x in Uses(code[k]) + Defs(code[k]) ==> !AccFrom(x, lo)
  }

  /** Products read no accumulator. */
  ghost predicate TimesClean(code: Body) {
    forall k, x :: 0 <= k < |code| && code[k].BinaryOperation? && code[k].operation == "*" && x in Uses(code[k]) ==> !IsAcc(x)
  }

  /** A preheader computes accumulators and leaves. */
  ghost predicate InitsOnly(code: Body) {
    && Straight(code) && OneWay(code)
    && forall k, x :: 0 <= k < |code| && x in Defs(code[k]) ==> IsAcc(x)
  }

  ghost predicate BlockOk(code: Body, preheader: bool, lo: nat) {
    NoAccIn(code, lo) && if preheader then InitsOnly(code) else TimesClean(code)
  }

  ghost predicate AllOk(codes: seq<Body>, pres: set<int>, lo: nat) {
    forall b :: 0 <= b < |codes| ==> BlockOk(codes[b], b in pres, lo)
  }

  ghost predicate StepsOnly(codes: seq<Body>, order: seq<int>, ivs: map<string, int>) {
    forall j, x :: 0 <= j < |order| && 0 <= order[j] < |codes| && x in ivs ==> OnlySteps(codes[order[j]], x)
  }

  ghost predicate OldNames(ivs: map<string, int>, lo: nat) {
    forall x :: x in ivs ==> !AccFrom(x, lo)
  }

  /** A loop in its graph, which is run from `entry`: the blocks of the loop and of the
      preheaders inside it, the loop's own blocks in order, its preheader and header,
      and all preheaders. */
  datatype LoopFrame = LoopFrame(g: Graph, entry: int, region: set<int>, order: seq<int>, pre: int, header: int, pres: set<int>)

  /** One loop with its preheader, ready for the next reduction. */
  ghost predicate LoopReady(l: LoopFrame) {
    && SingleEntry(l.g, l.region, l.pre, l.header) && l.entry !in l.region && 0 <= l.entry < |l.g.succ|
    && DistinctOrder(l.order) && l.pre in l.pres
    && (forall j :: 0 <= j < |l.order| ==> 0 <= l.order[j] < |l.g.succ| && l.order[j] in l.region && l.order[j] !in l.pres)
    && (forall b :: b in l.region ==> b in l.order || b in l.pres)
  }

  ghost predicate SameRuns(g: Graph, entry: int, before: seq<Body>, after: seq<Body>)
    requires |before| == |after| == |g.succ| && 0 <= entry < |g.succ|
  {
    forall m, size, low, s: Store, fuel: nat :: WordMachine(m, size, low) ==>
      RunBlocks(m, before, g, entry, s, [], fuel) == RunBlocks(m, after, g, entry, s, [], fuel)
  }

  lemma FreshFrom(code: Body, lo: nat)
    requires NoAccIn(code, lo)
    ensures FreshIn(code, AccName(lo))
  {
    OwnAcc(lo);
    hide AccFrom, Uses, Defs;
    forall k | 0 <= k < |code| ensures AccName(lo) !in Uses(code[k]) && AccName(lo) !in Defs(code[k]) {
      assert AccName(lo) in Uses(code[k]) + Defs(code[k]) ==> !AccFrom(AccName(lo), lo);
    }
  }

  lemma StepDefines(i: Instruction, x: string)
    ensures StepOf(i, x).Some? ==> x in Defs(i)
  {
  }

  lemma QuietPreheader(code: Body, d: Reduction)
    requires InitsOnly(code) && !IsAcc(d.iv)
    ensures OnlySteps(code, d.iv) && Reduced(code, code, d)
  {
    forall k | 0 <= k < |code| ensures StepOf(code[k], d.iv).None? {
      StepDefines(code[k], d.iv);
    }
    UnchangedIsReduced(code, d);
    hide IsAcc, Reduced;
  }

  /** One block under one reduction. */
  lemma RewrittenBlock(l: LoopFrame, codes: seq<Body>, ivs: map<string, int>, counts: map<string, int>,
                       lo: nat, d: Reduction, p: Place, b: int)
    requires LoopReady(l) && |codes| == |l.g.succ| && AllOk(codes, l.pres, lo) && StepsOnly(codes, l.order, ivs)
    requires IsPlace(codes, l.order, ivs, counts, p) && IsProduct(codes[l.order[p.i]][p.k], d) && d.acc == AccName(lo) && d.iv in ivs && !IsAcc(d.iv)
    requires 0 <= b < |codes|
    ensures BlockReduced(l.region, l.pre, d, b, codes[b], Rewritten(codes, l.order, l.pre, d, p)[b])
  {
    assert BlockOk(codes[b], b in l.pres, lo);
    FreshFrom(codes[b], lo);
    hide Candidate, IsProduct, NoAccIn, TimesClean, IsAcc, Reduced, FreshIn, OnlySteps, WithCopies, Updated, Replaced, Straight, OneWay;
    if b in l.order {
      var j :| 0 <= j < |l.order| && l.order[j] == b;
      assert OnlySteps(codes[l.order[j]], d.iv);
      if l.order[p.i] == b {
        ReplacedIsReduced(codes[b], p.k, d);
      } else {
        NotReplaced(codes[b], d);
        UpdatedIsReduced(codes[b], d);
      }
    } else if b in l.pres {
      QuietPreheader(codes[b], d);
    }
  }

  lemma NotReplaced(code: Body, d: Reduction)
    ensures Replaced(code, -1, d.acc) == code
  {
  }

  /** Where an instruction of the rewritten code comes from. */
  ghost predicate ComesFrom(i: Instruction, d: Reduction, j: Instruction) {
    || j == i
    || (StepOf(i, d.iv).Some? && j == Update(d, StepOf(i, d.iv).value))
    || (IsProduct(i, d) && j == Copy(i.destination, Name(d.acc)))
  }

  lemma {:induction false} ReducedOrigin(before: Body, after: Body, d: Reduction, q: int) returns (k: int)
    requires Reduced(before, after, d) && 0 <= q < |after|
    ensures 0 <= k < |before| && ComesFrom(before[k], d, after[q])
    decreases |before|
  {
    hide StepOf, IsProduct, Update;
    var n := if StepOf(before[0], d.iv).Some? then 2 else 1;
    if q < n {
      k := 0;
    } else {
      assert after[q] == after[n..][q - n];
      k := ReducedOrigin(before[1..], after[n..], d, q - n);
      assert before[1..][k] == before[k + 1];
      k := k + 1;
    }
  }

  lemma OriginNames(i: Instruction, d: Reduction, j: Instruction)
    requires ComesFrom(i, d, j)
    ensures Uses(j) + Defs(j) <= Uses(i) + Defs(i) + {d.acc}
    ensures j.BinaryOperation? && j.operation == "*" ==> j == i
    ensures forall x :: x in Defs(j) && x != d.acc ==> x in Defs(i) && (StepOf(i, x).Some? ==> j == i)
  {
  }

  lemma ReducedNames(before: Body, after: Body, d: Reduction, lo: nat)
    requires Reduced(before, after, d) && NoAccIn(before, lo) && d.acc == AccName(lo)
    ensures NoAccIn(after, lo + 1)
  {
    OwnAcc(lo);
    hide Reduced, AccFrom, Uses, Defs, ComesFrom;
    forall q, x | 0 <= q < |after| && x in Uses(after[q]) + Defs(after[q]) ensures !AccFrom(x, lo + 1) {
      var k := ReducedOrigin(before, after, d, q);
      OriginNames(before[k], d, after[q]);
      LaterAcc(x, lo);
    }
  }

  lemma LaterAcc(x: string, lo: nat)
    ensures AccFrom(x, lo + 1) ==> AccFrom(x, lo)
  {
    if AccFrom(x, lo + 1) { AccFromLess(x, lo, lo + 1); }
  }

  lemma ReducedTimes(before: Body, after: Body, d: Reduction)
    requires Reduced(before, after, d) && TimesClean(before)
    ensures TimesClean(after)
  {
    hide Reduced, IsAcc, Uses, Defs, ComesFrom;
    forall q, x | 0 <= q < |after| && after[q].BinaryOperation? && after[q].operation == "*" && x in Uses(after[q]) ensures !IsAcc(x) {
      var k := ReducedOrigin(before, after, d, q);
      OriginNames(before[k], d, after[q]);
    }
  }

  lemma ReducedSteps(before: Body, after: Body, d: Reduction, x: string)
    requires Reduced(before, after, d) && OnlySteps(before, x) && x != d.acc
    ensures OnlySteps(after, x)
  {
    hide Reduced, Uses, Defs, ComesFrom, StepOf;
    forall q | 0 <= q < |after| && x in Defs(after[q]) ensures StepOf(after[q], x).Some? {
      var k := ReducedOrigin(before, after, d, q);
      OriginNames(before[k], d, after[q]);
    }
  }

  lemma InitsMore(code: Body, d: Reduction, lo: nat)
    requires InitsOnly(code) && NoAccIn(code, lo) && d.acc == AccName(lo) && !AccFrom(d.iv, lo + 1)
    ensures InitsOnly(WithCopies(code, [Initial(d)])) && NoAccIn(WithCopies(code, [Initial(d)]), lo + 1)
  {
    var r, at := WithCopies(code, [Initial(d)]), FrontOf(code);
    OwnAcc(lo);
    assert Uses(Initial(d)) + Defs(Initial(d)) == {d.iv, d.acc} && Defs(Initial(d)) == {d.acc};
    var i := Initial(d);
    hide IsAcc, AccFrom, Uses, Defs, Initial;
    assert |r| == |code| + 1;
    forall k | 0 <= k < |r|
      ensures r[k] == i || r[k] in code
      ensures k < |r| - 1 ==> !IsTerminator(r[k])
      ensures k == |r| - 1 && IsTerminator(r[k]) ==> r[k].Jump?
    {
      assert k < at ==> r[k] == code[k];
      assert k > at ==> r[k] == code[k - 1];
      assert k == at ==> r[k] == i;
    }
    InitsNames(code, r, i, lo);
  }

  lemma InitsNames(code: Body, r: Body, i: Instruction, lo: nat)
    requires InitsOnly(code) && NoAccIn(code, lo) && forall k :: 0 <= k < |r| ==> r[k] == i || r[k] in code
    requires (forall x :: x in Uses(i) + Defs(i) ==> !AccFrom(x, lo + 1)) && (forall x :: x in Defs(i) ==> IsAcc(x))
    ensures NoAccIn(r, lo + 1) && forall k, x :: 0 <= k < |r| && x in Defs(r[k]) ==> IsAcc(x)
  {
    hide IsAcc, AccFrom, Uses, Defs, Straight, OneWay;
    forall k, x | 0 <= k < |r| && x in Uses(r[k]) + Defs(r[k]) ensures !AccFrom(x, lo + 1) { LaterAcc(x, lo); }
  }

  // ----- Progress -----

  lemma UpdatedEmpty(d: Reduction)
    ensures Updated([], d) == []
  {
  }

  lemma UpdatedFirst(code: Body, d: Reduction)
    requires code != []
    ensures var s := StepOf(code[0], d.iv);
      Updated(code, d) == (if s.Some? then [code[0], Update(d, s.value)] else [code[0]]) + Updated(code[1..], d)
  {
    hide StepOf, Update;
  }

  lemma UpdateNoCandidate(d: Reduction, step: int, ivs: map<string, int>, counts: map<string, int>)
    ensures !Candidate(Update(d, step), ivs, counts)
  {
  }

  lemma {:induction false} UpdatedCount(code: Body, d: Reduction, ivs: map<string, int>, counts: map<string, int>)
    ensures CountIn(Updated(code, d), ivs, counts) == CountIn(code, ivs, counts)
  {
    hide Candidate, Update, Updated, StepOf, CountIn;
    if code == [] {
      UpdatedEmpty(d);
    } else {
      var i, rest := code[0], Updated(code[1..], d);
      UpdatedFirst(code, d);
      UpdatedCount(code[1..], d, ivs, counts);
      assert code == [i] + code[1..];
      CountCons(i, code[1..], ivs, counts);
      var s := StepOf(i, d.iv);
      if s.Some? {
        var j := Update(d, s.value);
        UpdateNoCandidate(d, s.value, ivs, counts);
        CountCons(j, rest, ivs, counts);
        CountCons(i, [j] + rest, ivs, counts);
        assert [i, j] + rest == [i] + ([j] + rest);
      } else {
        CountCons(i, rest, ivs, counts);
      }
    }
  }

  lemma CountCons(i: Instruction, rest: Body, ivs: map<string, int>, counts: map<string, int>)
    ensures CountIn([i] + rest, ivs, counts) == (if Candidate(i, ivs, counts) then 1 else 0) + CountIn(rest, ivs, counts)
  {
    assert ([i] + rest)[1..] == rest;
  }

  lemma {:induction false} ReplacedCount(code: Body, at: int, acc: string, ivs: map<string, int>, counts: map<string, int>)
    requires 0 <= at < |code| && Candidate(code[at], ivs, counts) && code[at].BinaryOperation?
    ensures CountIn(Replaced(code, at, acc), ivs, counts) == CountIn(code, ivs, counts) - 1
    decreases at
  {
    var r := Replaced(code, at, acc);
    if at == 0 {
      assert r[1..] == code[1..] && r[0].Copy?;
    } else {
      assert r[0] == code[0] && r[1..] == Replaced(code[1..], at - 1, acc);
      ReplacedCount(code[1..], at - 1, acc, ivs, counts);
      hide Candidate, Replaced;
    }
  }

  /** The sum over the loop when one block has lost a candidate. */
  lemma {:induction false} CountDrops(before: seq<Body>, after: seq<Body>, order: seq<int>, ivs: map<string, int>, counts: map<string, int>, at: int)
    requires |before| == |after| && forall j :: 0 <= j < |order| ==> 0 <= order[j] < |before|
    requires forall j :: 0 <= j < |order| ==>
      CountIn(after[order[j]], ivs, counts) == CountIn(before[order[j]], ivs, counts) - (if order[j] == at then 1 else 0)
    ensures CountAll(after, order, ivs, counts) <= CountAll(before, order, ivs, counts)
    ensures at in order ==> CountAll(after, order, ivs, counts) < CountAll(before, order, ivs, counts)
    decreases |order|
  {
    hide CountIn;
    if order != [] {
      var tail := order[1..];
      forall j | 0 <= j < |tail|
        ensures 0 <= tail[j] < |before| && CountIn(after[tail[j]], ivs, counts) == CountIn(before[tail[j]], ivs, counts) - (if tail[j] == at then 1 else 0)
      {
        assert tail[j] == order[j + 1];
      }
      CountDrops(before, after, tail, ivs, counts, at);
      assert order == [order[0]] + tail;
    }
  }

  // ----- What a reduction leaves alone -----

  predicate Times(i: Instruction) { i.BinaryOperation? && i.operation == "*" }

  ghost predicate HasStep(code: Body, x: string, step: int) {
    exists k :: 0 <= k < |code| && StepOf(code[k], x) == Some(step)
  }

  /** Names other than accumulators are written as often and stepped alike, and no
      product is new. */
  ghost predicate Kin(before: Body, after: Body) {
    && (forall x :: !IsAcc(x) ==> DefsIn(after, x) == DefsIn(before, x))
    && (forall x, step :: !IsAcc(x) && HasStep(before, x, step) ==> HasStep(after, x, step))
    && (forall k :: 0 <= k < |after| && Times(after[k]) ==> after[k] in before)
  }

  ghost predicate Kindred(pres: set<int>, before: seq<Body>, after: seq<Body>) {
    |after| == |before| && forall b :: 0 <= b < |before| && b !in pres ==> Kin(before[b], after[b])
  }

  lemma KindredSelf(pres: set<int>, codes: seq<Body>)
    ensures Kindred(pres, codes, codes)
  {
    hide IsAcc, DefsIn, HasStep, Times;
  }

  lemma KinThen(a: Body, b: Body, c: Body)
    requires Kin(a, b) && Kin(b, c)
    ensures Kin(a, c)
  {
    hide IsAcc, DefsIn, HasStep, Times;
    forall k | 0 <= k < |c| && Times(c[k]) ensures c[k] in a {
      var j :| 0 <= j < |b| && b[j] == c[k];
    }
  }

  lemma KindredThen(pres: set<int>, a: seq<Body>, b: seq<Body>, c: seq<Body>)
    requires Kindred(pres, a, b) && Kindred(pres, b, c)
    ensures Kindred(pres, a, c)
  {
    hide Kin;
    forall k | 0 <= k < |a| && k !in pres ensures Kin(a[k], c[k]) { KinThen(a[k], b[k], c[k]); }
  }

  lemma {:induction false} ReducedDefs(before: Body, after: Body, d: Reduction, x: string)
    requires Reduced(before, after, d) && x != d.acc
    ensures DefsIn(after, x) == DefsIn(before, x)
    decreases |before|
  {
    if before != [] {
      var s := StepOf(before[0], d.iv);
      if s.Some? {
        ReducedDefs(before[1..], after[2..], d, x);
        assert after[1..][1..] == after[2..] && Written(after[1], x) == 0;
      } else {
        ReducedDefs(before[1..], after[1..], d, x);
        assert Written(after[0], x) == Written(before[0], x);
      }
      hide Reduced, StepOf, Update, IsProduct, Written;
    }
  }

  lemma {:induction false} ReducedSurvives(before: Body, after: Body, d: Reduction, k: int) returns (q: int)
    requires Reduced(before, after, d) && 0 <= k < |before| && !Times(before[k])
    ensures 0 <= q < |after| && after[q] == before[k]
    decreases |before|
  {
    hide StepOf, Update;
    if k == 0 {
      q := 0;
    } else {
      var n := if StepOf(before[0], d.iv).Some? then 2 else 1;
      q := ReducedSurvives(before[1..], after[n..], d, k - 1);
      assert after[n..][q] == after[q + n];
      q := q + n;
    }
  }

  lemma StepNoProduct(i: Instruction, x: string)
    ensures StepOf(i, x).Some? ==> !Times(i)
  {
  }

  lemma ReducedKin(before: Body, after: Body, d: Reduction)
    requires Reduced(before, after, d) && IsAcc(d.acc)
    ensures Kin(before, after)
  {
    hide Reduced, IsAcc, DefsIn, StepOf, ComesFrom, Uses, Defs;
    forall x | !IsAcc(x) ensures DefsIn(after, x) == DefsIn(before, x) { ReducedDefs(before, after, d, x); }
    forall x, step | !IsAcc(x) && HasStep(before, x, step) ensures HasStep(after, x, step) {
      var k :| 0 <= k < |before| && StepOf(before[k], x) == Some(step);
      StepNoProduct(before[k], x);
      var q := ReducedSurvives(before, after, d, k);
    }
    forall q | 0 <= q < |after| && Times(after[q]) ensures after[q] in before {
      var k := ReducedOrigin(before, after, d, q);
      OriginNames(before[k], d, after[q]);
    }
  }

  // ----- One loop -----

  /** Everything that one reduction needs and keeps. */
  ghost predicate Reducing(l: LoopFrame, codes: seq<Body>, ivs: map<string, int>, lo: nat) {
    && LoopReady(l) && |codes| == |l.g.succ|
    && AllOk(codes, l.pres, lo) && StepsOnly(codes, l.order, ivs) && OldNames(ivs, lo)
  }

  lemma ReducingFacts(l: LoopFrame, codes: seq<Body>, ivs: map<string, int>, lo: nat)
    requires Reducing(l, codes, ivs, lo)
    ensures |codes| == |l.g.succ| && 0 <= l.entry < |l.g.succ| && 0 <= l.pre < |codes| && l.pre !in l.order && l.pre in l.pres && DistinctOrder(l.order)
    ensures forall j :: 0 <= j < |l.order| ==> 0 <= l.order[j] < |codes| && l.order[j] !in l.pres
    ensures LoopReady(l) && AllOk(codes, l.pres, lo) && StepsOnly(codes, l.order, ivs) && OldNames(ivs, lo)
  {
    hide AllOk, StepsOnly, OldNames;
  }

  /** The variable of a candidate is no accumulator. */
  lemma CandidateIsOld(l: LoopFrame, codes: seq<Body>, ivs: map<string, int>, counts: map<string, int>, lo: nat, p: Place)
    requires Reducing(l, codes, ivs, lo) && IsPlace(codes, l.order, ivs, counts, p)
    ensures var i := codes[l.order[p.i]][p.k];
      AsProduct(i, ivs).Some? && i.BinaryOperation? && AsProduct(i, ivs).value.iv in ivs && !IsAcc(AsProduct(i, ivs).value.iv)
  {
    var b, i := l.order[p.i], codes[l.order[p.i]][p.k];
    assert BlockOk(codes[b], b in l.pres, lo);
    AsProductIs(i, ivs, "");
    hide AllOk, StepsOnly, OldNames, NoAccIn, IsAcc, AsProduct, Uses, SingleEntry;
  }

  lemma OneReduction(l: LoopFrame, codes: seq<Body>, ivs: map<string, int>, counts: map<string, int>,
                     lo: nat, d: Reduction, p: Place)
    requires Reducing(l, codes, ivs, lo)
    requires IsPlace(codes, l.order, ivs, counts, p) && IsProduct(codes[l.order[p.i]][p.k], d) && d.acc == AccName(lo) && d.iv in ivs && !IsAcc(d.iv)
    ensures var after := Rewritten(codes, l.order, l.pre, d, p);
      BlocksReduced(l.g, l.region, l.pre, d, codes, after) && Reducing(l, after, ivs, lo + 1)
  {
    hide *;
    ReducingFacts(l, codes, ivs, lo);
    var after := Rewritten(codes, l.order, l.pre, d, p);
    forall b | 0 <= b < |codes|
      ensures BlockReduced(l.region, l.pre, d, b, codes[b], after[b])
      ensures BlockOk(after[b], b in l.pres, lo + 1)
    {
      RewrittenBlock(l, codes, ivs, counts, lo, d, p, b);
      BlockKept(l, codes, ivs, lo, d, p, b);
    }
    AllReduced(l.g, l.region, l.pre, d, codes, after);
    OldNamesLater(ivs, lo);
    StepsKept(l, codes, after, ivs, lo, d);
    ReducingIs(l, after, ivs, lo + 1);
  }

  lemma ReducingIs(l: LoopFrame, codes: seq<Body>, ivs: map<string, int>, lo: nat)
    requires LoopReady(l) && |codes| == |l.g.succ|
    requires (forall b :: 0 <= b < |codes| ==> BlockOk(codes[b], b in l.pres, lo)) && StepsOnly(codes, l.order, ivs) && OldNames(ivs, lo)
    ensures Reducing(l, codes, ivs, lo)
  {
    hide LoopReady, BlockOk, StepsOnly, OldNames;
  }

  lemma AllReduced(g: Graph, region: set<int>, pre: int, d: Reduction, before: seq<Body>, after: seq<Body>)
    requires |before| == |after| == |g.succ| && forall b :: 0 <= b < |before| ==> BlockReduced(region, pre, d, b, before[b], after[b])
    ensures BlocksReduced(g, region, pre, d, before, after)
  {
    hide BlockReduced;
  }

  lemma OldNamesLater(ivs: map<string, int>, lo: nat)
    requires OldNames(ivs, lo)
    ensures OldNames(ivs, lo + 1)
  {
    hide AccFrom;
    forall x | x in ivs ensures !AccFrom(x, lo + 1) { LaterAcc(x, lo); }
  }

  lemma NotTheNewOne(ivs: map<string, int>, lo: nat, x: string)
    requires OldNames(ivs, lo) && x in ivs
    ensures x != AccName(lo) && !AccFrom(x, lo + 1)
  {
    OwnAcc(lo);
    LaterAcc(x, lo);
    hide AccFrom;
  }

  lemma StepsKept(l: LoopFrame, codes: seq<Body>, after: seq<Body>, ivs: map<string, int>, lo: nat, d: Reduction)
    requires Reducing(l, codes, ivs, lo) && BlocksReduced(l.g, l.region, l.pre, d, codes, after) && d.acc == AccName(lo)
    ensures StepsOnly(after, l.order, ivs)
  {
    hide AllOk, OldNames, NoAccIn, OnlySteps, Reduced, FreshIn, Straight, OneWay, SingleEntry;
    forall j, x | 0 <= j < |l.order| && x in ivs ensures OnlySteps(after[l.order[j]], x) {
      NotTheNewOne(ivs, lo, x);
      assert BlockReduced(l.region, l.pre, d, l.order[j], codes[l.order[j]], after[l.order[j]]);
      ReducedSteps(codes[l.order[j]], after[l.order[j]], d, x);
    }
  }

  lemma BlockKept(l: LoopFrame, codes: seq<Body>, ivs: map<string, int>, lo: nat, d: Reduction, p: Place, b: int)
    requires Reducing(l, codes, ivs, lo) && d.acc == AccName(lo) && d.iv in ivs && 0 <= b < |codes|
    requires BlockReduced(l.region, l.pre, d, b, codes[b], Rewritten(codes, l.order, l.pre, d, p)[b])
    ensures BlockOk(Rewritten(codes, l.order, l.pre, d, p)[b], b in l.pres, lo + 1)
  {
    hide OnlySteps, Reduced, FreshIn, Straight, OneWay, SingleEntry, StepsOnly, OldNames, NoAccIn, TimesClean, InitsOnly, WithCopies, Updated, Replaced;
    assert BlockOk(codes[b], b in l.pres, lo);
    NotTheNewOne(ivs, lo, d.iv);
    var after := Rewritten(codes, l.order, l.pre, d, p)[b];
    if b in l.order {
      ReducedNames(codes[b], after, d, lo);
      ReducedTimes(codes[b], after, d);
    } else if b == l.pre {
      InitsMore(codes[b], d, lo);
    } else {
      assert after == codes[b];
      NamesLater(codes[b], lo);
    }
  }

  lemma NamesLater(code: Body, lo: nat)
    requires NoAccIn(code, lo)
    ensures NoAccIn(code, lo + 1)
  {
    hide AccFrom, Uses, Defs;
    forall k, x | 0 <= k < |code| && x in Uses(code[k]) + Defs(code[k]) ensures !AccFrom(x, lo + 1) { LaterAcc(x, lo); }
  }

  lemma ReductionSameRuns(g: Graph, entry: int, region: set<int>, pre: int, header: int, d: Reduction, before: seq<Body>, after: seq<Body>)
    requires SingleEntry(g, region, pre, header) && BlocksReduced(g, region, pre, d, before, after) && d.iv != d.acc && entry !in region && 0 <= entry < |g.succ|
    ensures |before| == |after| == |g.succ| && SameRuns(g, entry, before, after)
  {
    hide SingleEntry, BlockReduced, WordMachine, RunBlocks;
    forall m, size, low, s: Store, fuel: nat | WordMachine(m, size, low)
      ensures RunBlocks(m, before, g, entry, s, [], fuel) == RunBlocks(m, after, g, entry, s, [], fuel)
    {
      AgreesWithItself(m, d, s);
      RunsAgree(m, size, low, g, region, pre, header, d, before, after, entry, s, s, [], fuel);
    }
  }

  lemma AgreesWithItself(m: Machine, d: Reduction, s: Store)
    ensures Agree(m, d, s, s)
  {
  }

  lemma SameRunsThen(g: Graph, entry: int, a: seq<Body>, b: seq<Body>, c: seq<Body>)
    requires |a| == |b| == |c| == |g.succ| && 0 <= entry < |g.succ| && SameRuns(g, entry, a, b) && SameRuns(g, entry, b, c)
    ensures SameRuns(g, entry, a, c)
  {
    hide WordMachine, RunBlocks;
  }

  lemma SameRunsSelf(g: Graph, entry: int, a: seq<Body>)
    requires |a| == |g.succ| && 0 <= entry < |g.succ|
    ensures SameRuns(g, entry, a, a)
  {
  }

  /** A reduction uses up one candidate. */
  lemma RewrittenCount(codes: seq<Body>, order: seq<int>, pre: int, d: Reduction, p: Place, ivs: map<string, int>, counts: map<string, int>)
    requires IsPlace(codes, order, ivs, counts, p) && DistinctOrder(order) && (forall j :: 0 <= j < |order| ==> 0 <= order[j] < |codes|)
    requires codes[order[p.i]][p.k].BinaryOperation?
    ensures CountAll(Rewritten(codes, order, pre, d, p), order, ivs, counts) < CountAll(codes, order, ivs, counts)
  {
    var after, at := Rewritten(codes, order, pre, d, p), order[p.i];
    hide CountIn, CountAll, Candidate, Updated, Replaced, WithCopies;
    forall j | 0 <= j < |order|
      ensures CountIn(after[order[j]], ivs, counts) == CountIn(codes[order[j]], ivs, counts) - (if order[j] == at then 1 else 0)
    {
      var code := codes[order[j]];
      UpdatedCount(Replaced(code, if order[j] == at then p.k else -1, d.acc), d, ivs, counts);
      if order[j] == at {
        ReplacedCount(code, p.k, d.acc, ivs, counts);
      } else {
        NotReplaced(code, d);
      }
    }
    CountDrops(codes, after, order, ivs, counts, at);
  }

  /** Reduces every candidate of one loop: no product of an induction variable is
      left, and every run is as before. */
  method ReduceProducts(codes0: seq<Body>, order: seq<int>, pre: int, ivs: map<string, int>, counts: map<string, int>, counter0: nat, ghost l: LoopFrame)
    returns (codes: seq<Body>, counter: nat)
    requires Reducing(l, codes0, ivs, counter0) && l.order == order && l.pre == pre
    ensures |codes| == |codes0| == |l.g.succ| && 0 <= l.entry < |l.g.succ| && SameRuns(l.g, l.entry, codes0, codes)
    ensures Reducing(l, codes, ivs, counter) && counter >= counter0
    ensures NoneLeft(codes, order, ivs, counts) && Kindred(l.pres, codes0, codes)
  {
    hide *;
    codes, counter := codes0, counter0;
    ReducingFacts(l, codes, ivs, counter);
    SameRunsSelf(l.g, l.entry, codes);
    KindredSelf(l.pres, codes);
    var found := FindCandidate(codes, order, ivs, counts);
    while found.Some?
      invariant |codes| == |codes0| == |l.g.succ| && 0 <= l.entry < |l.g.succ| && counter >= counter0
      invariant Reducing(l, codes, ivs, counter) && SameRuns(l.g, l.entry, codes0, codes) && Kindred(l.pres, codes0, codes)
      invariant found.None? ==> NoneLeft(codes, order, ivs, counts)
      invariant found.Some? ==> IsPlace(codes, order, ivs, counts, found.value)
      decreases CountAll(codes, order, ivs, counts), if found.Some? then 1 else 0
    {
      var p := found.value;
      PlaceIn(codes, order, ivs, counts, p);
      var i := codes[order[p.i]][p.k];
      CandidateIsOld(l, codes, ivs, counts, counter, p);
      var q := AsProduct(i, ivs).value;
      var d := Reduction(q.iv, q.factor, AccName(counter));
      AsProductIs(i, ivs, d.acc);
      OneReduction(l, codes, ivs, counts, counter, d, p);
      RewrittenCount(codes, order, pre, d, p, ivs, counts);
      NewNameDiffers(l, codes, ivs, counter, d);
      ReductionSameRuns(l.g, l.entry, l.region, pre, l.header, d, codes, Rewritten(codes, order, pre, d, p));
      SameRunsThen(l.g, l.entry, codes0, codes, Rewritten(codes, order, pre, d, p));
      OneReductionKin(l, codes, ivs, counter, d, p);
      KindredThen(l.pres, codes0, codes, Rewritten(codes, order, pre, d, p));
      codes := Rewrite(codes, order, pre, d, p);
      counter := counter + 1;
      found := FindCandidate(codes, order, ivs, counts);
    }
  }

  lemma OneReductionKin(l: LoopFrame, codes: seq<Body>, ivs: map<string, int>, lo: nat, d: Reduction, p: Place)
    requires Reducing(l, codes, ivs, lo) && d.acc == AccName(lo)
    requires BlocksReduced(l.g, l.region, l.pre, d, codes, Rewritten(codes, l.order, l.pre, d, p))
    ensures Kindred(l.pres, codes, Rewritten(codes, l.order, l.pre, d, p))
  {
    hide *;
    ReducingFacts(l, codes, ivs, lo);
    var after := Rewritten(codes, l.order, l.pre, d, p);
    OwnAcc(lo);
    forall b | 0 <= b < |codes| && b !in l.pres ensures Kin(codes[b], after[b]) {
      BlockKin(l.g, l.region, l.pre, d, codes, after, b);
    }
    KindredIs(l.pres, codes, after);
  }

  lemma BlockKin(g: Graph, region: set<int>, pre: int, d: Reduction, codes: seq<Body>, after: seq<Body>, b: int)
    requires BlocksReduced(g, region, pre, d, codes, after) && 0 <= b < |codes| && b != pre && IsAcc(d.acc)
    ensures Kin(codes[b], after[b])
  {
    hide Kin, Reduced, FreshIn, OnlySteps, IsAcc;
    assert BlockReduced(region, pre, d, b, codes[b], after[b]);
    if b in region { ReducedKin(codes[b], after[b], d); } else { KinSelf(codes[b]); }
  }

  lemma KinSelf(code: Body)
    ensures Kin(code, code)
  {
    hide IsAcc, DefsIn, HasStep, Times;
  }

  lemma KindredIs(pres: set<int>, before: seq<Body>, after: seq<Body>)
    requires |after| == |before| && forall b :: 0 <= b < |before| && b !in pres ==> Kin(before[b], after[b])
    ensures Kindred(pres, before, after)
  {
    hide Kin;
  }

  lemma PlaceIn(codes: seq<Body>, order: seq<int>, ivs: map<string, int>, counts: map<string, int>, p: Place)
    requires IsPlace(codes, order, ivs, counts, p)
    ensures 0 <= p.i < |order| && 0 <= order[p.i] < |codes| && 0 <= p.k < |codes[order[p.i]]|
  {
  }

  lemma NewNameDiffers(l: LoopFrame, codes: seq<Body>, ivs: map<string, int>, lo: nat, d: Reduction)
    requires Reducing(l, codes, ivs, lo) && d.iv in ivs && d.acc == AccName(lo)
    ensures d.iv != d.acc && SingleEntry(l.g, l.region, l.pre, l.header) && l.entry !in l.region && 0 <= l.entry < |l.g.succ|
  {
    NotTheNewOne(ivs, lo, d.iv);
    hide AllOk, StepsOnly, OldNames, SingleEntry, AccFrom;
  }
}
