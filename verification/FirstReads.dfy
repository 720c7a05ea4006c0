/** Which names can be read before they are written, and the proof that the six
    control-flow passes (cc/ir_optimize.py:616-631) make no further name such. */
module FirstReads {
  import opened Common
  import opened IR
  import opened ControlFlow
  import C = Cfg
  import L = Liveness

  // ----- Reading before writing -----

  /** What one instruction makes of a name, given what a branch and what the next
      instruction would. */
  predicate Through(i: Instruction, x: string, jump: bool, fall: bool) {
    x in Uses(i) || (x !in Defs(i) && ((Branches(i) && jump) || (!Unconditional(i) && fall)))
  }

  /** Some way on from `rest`, with at most `fuel` branches taken, reads `x` before
      it writes it. */
  ghost predicate MayRead(body: Body, rest: Body, x: string, fuel: nat)
    decreases fuel, |rest|
  {
    rest != [] && Through(rest[0], x,
      Branches(rest[0]) && fuel > 0 && MayRead(body, From(body, rest[0].target), x, fuel - 1),
      MayRead(body, rest[1..], x, fuel))
  }

  ghost predicate ReadFirst(body: Body, rest: Body, x: string) {
    exists fuel: nat :: MayRead(body, rest, x, fuel)
  }

  lemma MayReadCons(body: Body, i: Instruction, rest: Body, x: string, fuel: nat)
    ensures MayRead(body, [i] + rest, x, fuel) ==
      Through(i, x, Branches(i) && fuel > 0 && MayRead(body, From(body, i.target), x, fuel - 1), MayRead(body, rest, x, fuel))
  {
    assert ([i] + rest)[1..] == rest;
    hide Through, From;
  }

  lemma MayReadNone(body: Body, x: string, fuel: nat)
    ensures !MayRead(body, [], x, fuel)
  {
  }

  /** The equation that reading first satisfies. */
  lemma ReadFirstCons(body: Body, i: Instruction, rest: Body, x: string)
    ensures ReadFirst(body, [i] + rest, x) == Through(i, x, Branches(i) && ReadFirst(body, From(body, i.target), x), ReadFirst(body, rest, x))
  {
    hide MayRead, From;
    if ReadFirst(body, [i] + rest, x) {
      var fuel: nat :| MayRead(body, [i] + rest, x, fuel);
      MayReadCons(body, i, rest, x, fuel);
    }
    if Branches(i) && ReadFirst(body, From(body, i.target), x) {
      var fuel: nat :| MayRead(body, From(body, i.target), x, fuel);
      MayReadCons(body, i, rest, x, fuel + 1);
      assert x !in Defs(i) ==> MayRead(body, [i] + rest, x, fuel + 1);
    }
    if ReadFirst(body, rest, x) {
      var fuel: nat :| MayRead(body, rest, x, fuel);
      MayReadCons(body, i, rest, x, fuel);
      assert x !in Defs(i) && !Unconditional(i) ==> MayRead(body, [i] + rest, x, fuel);
    }
    if x in Uses(i) {
      MayReadCons(body, i, rest, x, 0);
      assert MayRead(body, [i] + rest, x, 0);
    }
  }

  // ----- The same as being live -----

  lemma FlowsIs(body: Body, pc: int, next: int)
    requires 0 <= pc < |body|
    ensures C.Flows(body, pc, next) <==>
      (Branches(body[pc]) && next == LabelIndex(body, body[pc].target)) || (!Unconditional(body[pc]) && next == pc + 1)
  {
  }

  lemma {:induction false} LiveReads(body: Body, x: string, p: seq<int>)
    requires L.ReadAlong(body, x, p)
    ensures 0 <= p[0] < |body| && ReadFirst(body, body[p[0]..], x)
    decreases |p|
  {
    hide ReadFirst, C.Flows, LabelIndex;
    var i, rest := body[p[0]], body[p[0] + 1..];
    assert body[p[0]..] == [i] + rest;
    ReadFirstCons(body, i, rest, x);
    if |p| > 1 {
      L.ReadAlongTail(body, x, p);
      LiveReads(body, x, p[1..]);
      FlowsIs(body, p[0], p[1]);
    }
  }

  lemma {:induction false} ReadsLive(body: Body, x: string, pc: int, fuel: nat)
    requires 0 <= pc <= |body| && MayRead(body, body[pc..], x, fuel)
    ensures L.Live(body, x, pc)
    decreases fuel, |body| - pc
  {
    hide C.Flows, L.Live, LabelIndex, Uses, Defs;
    MayReadNone(body, x, fuel);
    assert pc < |body|;
    var i, rest := body[pc], body[pc + 1..];
    assert body[pc..] == [i] + rest;
    MayReadCons(body, i, rest, x, fuel);
    hide MayRead;
    L.LiveEquation(body, x, pc);
    if x !in Uses(i) {
      if Branches(i) && fuel > 0 && MayRead(body, From(body, i.target), x, fuel - 1) {
        var next := LabelIndex(body, i.target);
        ReadsLive(body, x, next, fuel - 1);
        FlowsIs(body, pc, next);
        LiveInside(body, x, next);
      } else {
        ReadsLive(body, x, pc + 1, fuel);
        FlowsIs(body, pc, pc + 1);
        LiveInside(body, x, pc + 1);
      }
    }
  }

  lemma LiveInside(body: Body, x: string, pc: int)
    requires L.Live(body, x, pc)
    ensures 0 <= pc < |body|
  {
  }

  /** A name can be read first exactly when it is live. */
  lemma ReadFirstIsLive(body: Body, x: string, pc: int)
    requires 0 <= pc <= |body|
    ensures ReadFirst(body, body[pc..], x) <==> L.Live(body, x, pc)
  {
    if ReadFirst(body, body[pc..], x) {
      var fuel: nat :| MayRead(body, body[pc..], x, fuel);
      ReadsLive(body, x, pc, fuel);
    }
    if L.Live(body, x, pc) {
      var p :| L.ReadAlong(body, x, p) && p[0] == pc;
      LiveReads(body, x, p);
    }
  }

  // ----- Constant branches -----

  lemma FoldOneForms(i: Instruction)
    ensures FoldOne(i) == [i] || (i.BranchFalse? && (FoldOne(i) == [] || FoldOne(i) == [Jump(i.target)]))
  {
  }

  lemma JumpReads(target: string)
    ensures Uses(Jump(target)) == {} && Defs(Jump(target)) == {}
  {
  }

  lemma BranchWrites(i: Instruction)
    ensures i.BranchFalse? ==> Defs(i) == {}
  {
  }

  lemma {:induction false} FoldedReads(body: Body, rest: Body, x: string, fuel: nat)
    ensures MayRead(Folded(body), Folded(rest), x, fuel) ==> ReadFirst(body, rest, x)
    decreases fuel, |rest|
  {
    hide MayRead, ReadFirst, Folded, FoldOne, From, Uses, Defs;
    var body' := Folded(body);
    if rest == [] {
      FoldedEnds([]);
      MayReadNone(body', x, fuel);
    } else {
      var i, tail := rest[0], rest[1..];
      assert rest == [i] + tail;
      FoldedCons(i, tail);
      FoldOneForms(i);
      if Branches(i) {
        FoldedFrom(body, i.target);
        if fuel > 0 { FoldedReads(body, From(body, i.target), x, fuel - 1); }
        MayReadCons(body', Jump(i.target), Folded(tail), x, fuel);
        JumpReads(i.target);
        BranchWrites(i);
      }
      FoldedReads(body, tail, x, fuel);
      ReadFirstCons(body, i, tail, x);
      MayReadCons(body', i, Folded(tail), x, fuel);
      assert [] + Folded(tail) == Folded(tail);
    }
  }

  // ----- Unreachable code -----

  lemma {:induction false} PrunedReads(body: Body, rest: Body, x: string, fuel: nat)
    ensures MayRead(Pruned(body, false), Pruned(rest, false), x, fuel) ==> ReadFirst(body, rest, x)
    decreases fuel, |rest|
  {
    hide MayRead, ReadFirst, Pruned, From, Uses, Defs;
    var body' := Pruned(body, false);
    if rest == [] {
      PrunedEnds([]);
      MayReadNone(body', x, fuel);
    } else {
      var i, tail := rest[0], rest[1..];
      assert rest == [i] + tail;
      PrunedCons(i, tail, false);
      var tail' := Pruned(tail, Unconditional(i));
      assert body' == Pruned(body, false);
      if Branches(i) {
        PrunedFrom(body, false, i.target);
        if fuel > 0 { PrunedReads(body, From(body, i.target), x, fuel - 1); }
      }
      PrunedReads(body, tail, x, fuel);
      ReadFirstCons(body, i, tail, x);
      MayReadCons(body', i, tail', x, fuel);
      assert Pruned(rest, false) == [i] + tail';
    }
  }

  // ----- Dead labels -----

  lemma LabelReads(i: Instruction)
    requires i.Label? || i.LoopBoundary?
    ensures Uses(i) == {} && Defs(i) == {} && !Branches(i) && !Unconditional(i)
  {
  }

  lemma {:induction false} UnlabelledReads(body: Body, referenced: set<string>, rest: Body, x: string, fuel: nat)
    requires TargetsIn(body, referenced) && TargetsIn(rest, referenced)
    ensures MayRead(Unlabelled(body, referenced), Unlabelled(rest, referenced), x, fuel) ==> ReadFirst(body, rest, x)
    decreases fuel, |rest|
  {
    hide MayRead, ReadFirst, Unlabelled, From, Uses, Defs, TargetsIn, KeptBy;
    var body' := Unlabelled(body, referenced);
    if rest == [] {
      UnlabelledEnds([], referenced);
      MayReadNone(body', x, fuel);
    } else {
      var i, tail := rest[0], rest[1..];
      assert rest == [i] + tail;
      UnlabelledCons(i, tail, referenced);
      TargetsInTail(rest, referenced);
      KeptByIs(referenced, i);
      if Branches(i) {
        UnlabelledFrom(body, referenced, i.target);
        TargetsInFrom(body, referenced, i.target);
        if fuel > 0 { UnlabelledReads(body, referenced, From(body, i.target), x, fuel - 1); }
      }
      UnlabelledReads(body, referenced, tail, x, fuel);
      ReadFirstCons(body, i, tail, x);
      MayReadCons(body', i, Unlabelled(tail, referenced), x, fuel);
      if !KeptBy(referenced, i) {
        LabelReads(i);
        assert [] + Unlabelled(tail, referenced) == Unlabelled(tail, referenced);
      }
    }
  }

  lemma TargetsInFrom(body: Body, referenced: set<string>, name: string)
    requires TargetsIn(body, referenced)
    ensures TargetsIn(From(body, name), referenced)
  {
  }

  // ----- Markers -----

  lemma {:induction false} MarkersRead(body: Body, marks: Body, rest: Body, x: string, fuel: nat)
    requires forall i :: 0 <= i < |marks| ==> marks[i].LoopBoundary?
    ensures MayRead(body, marks + rest, x, fuel) == MayRead(body, rest, x, fuel)
    decreases |marks|
  {
    if marks == [] {
      assert marks + rest == rest;
    } else {
      hide MayRead, Uses, Defs;
      MarkersRead(body, marks[1..], rest, x, fuel);
      assert marks + rest == [marks[0]] + (marks[1..] + rest);
      MayReadCons(body, marks[0], marks[1..] + rest, x, fuel);
      LabelReads(marks[0]);
    }
  }

  lemma MarkersReadFirst(body: Body, marks: Body, rest: Body, x: string)
    requires forall i :: 0 <= i < |marks| ==> marks[i].LoopBoundary?
    ensures ReadFirst(body, marks + rest, x) == ReadFirst(body, rest, x)
  {
    forall fuel: nat { MarkersRead(body, marks, rest, x, fuel); }
    hide MayRead;
    if ReadFirst(body, rest, x) {
      var fuel: nat :| MayRead(body, rest, x, fuel);
      assert MayRead(body, marks + rest, x, fuel);
    }
  }

  /** A jump reads first what its target does. */
  lemma JumpReadFirst(body: Body, target: string, rest: Body, x: string)
    ensures ReadFirst(body, [Jump(target)] + rest, x) == ReadFirst(body, From(body, target), x)
  {
    hide ReadFirst, From;
    ReadFirstCons(body, Jump(target), rest, x);
  }

  // ----- Jumps to the next label -----

  lemma {:induction false} CollapsedReads(body: Body, k: nat, x: string, fuel: nat)
    requires DistinctNames(Labels(body)) && k <= |body|
    ensures MayRead(Collapsed(body), Collapsed(body[k..]), x, fuel) ==> ReadFirst(body, body[k..], x)
    decreases fuel, |body| - k
  {
    hide MayRead, ReadFirst, Collapsed, Uses, Defs, Labels, DistinctNames, JumpsToNext, LabelIndex;
    var body' := Collapsed(body);
    if k == |body| {
      assert body[k..] == [];
      CollapsedEnds([]);
      MayReadNone(body', x, fuel);
    } else {
      var i, tail := body[k], body[k + 1..];
      assert body[k..] == [i] + tail && body[k..][1..] == tail;
      if JumpsToNext(body[k..]) {
        var q, marks := CollapsedJumpShape(body, k);
        MarkersRead(body', marks, Collapsed(body[q..]), x, fuel);
        CollapsedReads(body, q, x, fuel);
        JumpReadFirst(body, i.target, tail, x);
      } else {
        CollapsedCons(body[k..]);
        if Branches(i) {
          CollapsedFrom(body, i.target);
          if fuel > 0 { CollapsedReads(body, LabelIndex(body, i.target), x, fuel - 1); }
        }
        CollapsedReads(body, k + 1, x, fuel);
        ReadFirstCons(body, i, tail, x);
        MayReadCons(body', i, Collapsed(tail), x, fuel);
      }
    }
  }

  // ----- Branches over jumps -----

  lemma InvertReads(i: Instruction, target: string)
    requires Invertible(i)
    ensures var b := InvertBranch(i, target);
      b.BranchFalse? && b.target == target && Uses(b) == Uses(i) && Defs(b) == {} && i.BranchFalse? && Defs(i) == {}
  {
  }

  /** A branch around a jump may go to either target. */
  lemma AroundReads(body: Body, k: nat, j: nat, q: nat, x: string)
    requires DistinctNames(Labels(body)) && Around(body, k, j, q)
    ensures From(body, body[k].target) == body[q..]
    ensures ReadFirst(body, body[k..], x) <==> x in Uses(body[k]) || ReadFirst(body, body[q..], x) || ReadFirst(body, From(body, body[j].target), x)
  {
    hide ReadFirst, Inverted, Labels, DistinctNames, InvertBranch, From, Inverse, Uses, Defs, OverJump;
    FromHere(body, q);
    InvertReads(body[k], "");
    var marks := body[k + 1..j];
    forall n | 0 <= n < |marks| ensures marks[n].LoopBoundary? { assert marks[n] == body[k + 1 + n]; }
    assert body[k..] == [body[k]] + (marks + ([body[j]] + body[j + 1..]));
    ReadFirstCons(body, body[k], marks + ([body[j]] + body[j + 1..]), x);
    MarkersReadFirst(body, marks, [body[j]] + body[j + 1..], x);
    JumpReadFirst(body, body[j].target, body[j + 1..], x);
  }

  lemma InvertedLeadReads(body': Body, code: Body, x: string, fuel: nat)
    ensures MayRead(body', Inverted(code), x, fuel) == MayRead(body', Inverted(code[Lead(code)..]), x, fuel)
  {
    InvertedMarkers(code);
    hide MayRead, Inverted;
    MarkersRead(body', code[..Lead(code)], Inverted(code[Lead(code)..]), x, fuel);
  }

  /** And so may the inverted one. */
  lemma AroundInverted(body: Body, k: nat, j: nat, q: nat, x: string, fuel: nat)
    requires Around(body, k, j, q)
    ensures MayRead(Inverted(body), Inverted(body[k..]), x, fuel) <==>
      x in Uses(body[k]) || MayRead(Inverted(body), Inverted(body[q..]), x, fuel)
      || (fuel > 0 && MayRead(Inverted(body), From(Inverted(body), body[j].target), x, fuel - 1))
  {
    hide MayRead, Inverted, InvertBranch, From, Inverse, Uses, Defs, OverJump;
    var body', b := Inverted(body), InvertBranch(body[k], body[j].target);
    InvertReads(body[k], body[j].target);
    var marks := body[k + 1..j];
    forall n | 0 <= n < |marks| ensures marks[n].LoopBoundary? { assert marks[n] == body[k + 1 + n]; }
    var rest := Inverted(body[j + 1..]);
    assert [b] + marks + rest == [b] + (marks + rest);
    MayReadCons(body', b, marks + rest, x, fuel);
    MarkersRead(body', marks, rest, x, fuel);
    InvertedLeadReads(body', body[j + 1..], x, fuel);
    assert body[j + 1..][Lead(body[j + 1..])..] == body[q..];
  }

  lemma {:induction false} InvertedReads(body: Body, k: nat, x: string, fuel: nat)
    requires DistinctNames(Labels(body)) && k <= |body|
    ensures MayRead(Inverted(body), Inverted(body[k..]), x, fuel) ==> ReadFirst(body, body[k..], x)
    decreases fuel, |body| - k
  {
    hide MayRead, ReadFirst, Inverted, Uses, Defs, Labels, DistinctNames, OverJump, LabelIndex, InvertBranch, Inverse, Invertible;
    var body' := Inverted(body);
    if k == |body| {
      assert body[k..] == [];
      InvertedEmpty();
      MayReadNone(body', x, fuel);
    } else {
      var i, tail := body[k], body[k + 1..];
      assert body[k..] == [i] + tail;
      if OverJump(body[k..]).Some? {
        var j, q := FindAround(body, k);
        var target := body[j].target;
        InvertedFrom(body, target);
        if fuel > 0 { InvertedReads(body, LabelIndex(body, target), x, fuel - 1); }
        InvertedReads(body, q, x, fuel);
        AroundInverted(body, k, j, q, x, fuel);
        AroundReads(body, k, j, q, x);
      } else {
        InvertedNone(body, k);
        if Branches(i) {
          InvertedFrom(body, i.target);
          if fuel > 0 { InvertedReads(body, LabelIndex(body, i.target), x, fuel - 1); }
        }
        InvertedReads(body, k + 1, x, fuel);
        ReadFirstCons(body, i, tail, x);
        MayReadCons(body', i, Inverted(tail), x, fuel);
      }
    }
  }

  // ----- Trampolines -----

  lemma LandsReads(body: Body, index: nat, x: string)
    requires index < |body| && TrampolineAt(body, index)
    ensures ReadFirst(body, body[index..], x) == ReadFirst(body, From(body, LandsAt(body, index)), x)
  {
    hide *;
    var rest := body[index + 1..];
    var next := index + 1 + Lead(rest);
    TrampolineIs(body, index);
    assert body[index..] == [body[index]] + rest;
    assert rest == rest[..Lead(rest)] + ([body[next]] + body[next + 1..]);
    LabelReadFirst(body, body[index], rest, x);
    MarkersReadFirst(body, rest[..Lead(rest)], [body[next]] + body[next + 1..], x);
    JumpReadFirst(body, LandsAt(body, index), body[next + 1..], x);
  }

  lemma LabelReadFirst(body: Body, i: Instruction, rest: Body, x: string)
    requires i.Label?
    ensures ReadFirst(body, [i] + rest, x) == ReadFirst(body, rest, x)
  {
    hide ReadFirst, Uses, Defs;
    LabelReads(i);
    ReadFirstCons(body, i, rest, x);
  }

  /** Running from a trampoline reads first what the place it lands at does. */
  lemma TrampolineReads(body: Body, tr: Trampolines, name: string, x: string)
    requires DistinctNames(Labels(body)) && name in tr && Recorded(body, tr, name)
    ensures ReadFirst(body, From(body, name), x) == ReadFirst(body, From(body, tr[name]), x)
  {
    hide ReadFirst, Labels, DistinctNames, From;
    var index: nat :| index < |body| && TrampolineAt(body, index) && body[index].name == name && tr[name] == LandsAt(body, index);
    FromHere(body, index);
    LandsReads(body, index, x);
  }

  lemma {:induction false} ResolvedReads(body: Body, tr: Trampolines, current: string, seen: set<string>, x: string)
    requires AllRecorded(body, tr)
    ensures ReadFirst(body, From(body, current), x) == ReadFirst(body, From(body, ResolveFrom(tr, current, seen)), x)
    decreases |tr.Keys - seen|
  {
    hide ReadFirst, From, Recorded, Labels, DistinctNames;
    if current in tr && current !in seen {
      assert tr.Keys - (seen + {current}) == (tr.Keys - seen) - {current};
      TrampolineReads(body, tr, current, x);
      ResolvedReads(body, tr, tr[current], seen + {current}, x);
    }
  }

  lemma RetargetReads(i: Instruction, tr: Trampolines)
    ensures Uses(Retarget(i, tr)) == Uses(i) && Defs(Retarget(i, tr)) == Defs(i)
    ensures Branches(Retarget(i, tr)) == Branches(i) && Unconditional(Retarget(i, tr)) == Unconditional(i)
    ensures Branches(i) ==> Retarget(i, tr).target == ResolveFrom(tr, i.target, {})
  {
    hide ResolveFrom;
  }

  lemma {:induction false} RetargetedReads(body: Body, tr: Trampolines, rest: Body, x: string, fuel: nat)
    requires AllRecorded(body, tr)
    ensures MayRead(Retargeted(body, tr), Retargeted(rest, tr), x, fuel) ==> ReadFirst(body, rest, x)
    decreases fuel, |rest|
  {
    hide MayRead, ReadFirst, Retargeted, Retarget, From, Uses, Defs, AllRecorded, ResolveFrom;
    var body' := Retargeted(body, tr);
    if rest == [] {
      RetargetedEmpty(tr);
      MayReadNone(body', x, fuel);
    } else {
      var i, tail := rest[0], rest[1..];
      assert rest == [i] + tail;
      RetargetedCons(i, tail, tr);
      RetargetReads(i, tr);
      if Branches(i) {
        var last := ResolveFrom(tr, i.target, {});
        RetargetedFrom(body, tr, last);
        ResolvedReads(body, tr, i.target, {}, x);
        if fuel > 0 { RetargetedReads(body, tr, From(body, last), x, fuel - 1); }
      }
      RetargetedReads(body, tr, tail, x, fuel);
      ReadFirstCons(body, i, tail, x);
      MayReadCons(body', Retarget(i, tr), Retargeted(tail, tr), x, fuel);
    }
  }

  // ----- All six -----

  /** What can be read first in `b` can be read first in `a`. */
  ghost predicate ReadsNoMore(a: Body, b: Body) {
    forall x :: ReadFirst(b, b, x) ==> ReadFirst(a, a, x)
  }

  lemma ReadsNoMoreFrom(a: Body, b: Body)
    requires forall x, fuel: nat :: MayRead(b, b, x, fuel) ==> ReadFirst(a, a, x)
    ensures ReadsNoMore(a, b)
  {
    hide MayRead;
  }

  lemma FoldedReadsNoMore(body: Body)
    ensures ReadsNoMore(body, Folded(body))
  {
    forall x, fuel: nat { FoldedReads(body, body, x, fuel); }
    hide MayRead, ReadFirst, Folded;
    ReadsNoMoreFrom(body, Folded(body));
  }

  lemma RetargetedReadsNoMore(body: Body, tr: Trampolines)
    requires AllRecorded(body, tr)
    ensures ReadsNoMore(body, Retargeted(body, tr))
  {
    forall x, fuel: nat { RetargetedReads(body, tr, body, x, fuel); }
    hide MayRead, ReadFirst, Retargeted;
    ReadsNoMoreFrom(body, Retargeted(body, tr));
  }

  lemma InvertedReadsNoMore(body: Body)
    requires DistinctNames(Labels(body))
    ensures ReadsNoMore(body, Inverted(body))
  {
    assert body[0..] == body;
    forall x, fuel: nat { InvertedReads(body, 0, x, fuel); }
    hide MayRead, ReadFirst, Inverted;
    ReadsNoMoreFrom(body, Inverted(body));
  }

  lemma CollapsedReadsNoMore(body: Body)
    requires DistinctNames(Labels(body))
    ensures ReadsNoMore(body, Collapsed(body))
  {
    assert body[0..] == body;
    forall x, fuel: nat { CollapsedReads(body, 0, x, fuel); }
    hide MayRead, ReadFirst, Collapsed;
    ReadsNoMoreFrom(body, Collapsed(body));
  }

  lemma PrunedReadsNoMore(body: Body)
    ensures ReadsNoMore(body, Pruned(body, false))
  {
    forall x, fuel: nat { PrunedReads(body, body, x, fuel); }
    hide MayRead, ReadFirst, Pruned;
    ReadsNoMoreFrom(body, Pruned(body, false));
  }

  lemma UnlabelledReadsNoMore(body: Body)
    ensures ReadsNoMore(body, Unlabelled(body, Referenced(body)))
  {
    assert TargetsIn(body, Referenced(body));
    forall x, fuel: nat { UnlabelledReads(body, Referenced(body), body, x, fuel); }
    hide MayRead, ReadFirst, Unlabelled;
    ReadsNoMoreFrom(body, Unlabelled(body, Referenced(body)));
  }

  lemma ReadsNoMoreTransitive(a: Body, b: Body, c: Body)
    requires ReadsNoMore(a, b) && ReadsNoMore(b, c)
    ensures ReadsNoMore(a, c)
  {
    hide ReadFirst;
  }

  /** The six passes let no further name be read before it is written. */
  lemma SimplifiedReadsNoMore(body: Body)
    requires UniqueLabels(body)
    ensures ReadsNoMore(body, Simplified(body))
  {
    hide *;
    UniqueIsDistinct(body);
    SimplifiedIs(body);
    var one := Folded(body);
    FoldedFrom(body, "");
    FoldedReadsNoMore(body);
    var tr := TrampolinesOf(one);
    AllRecordedOf(one);
    var two := Retargeted(one, tr);
    RetargetedFrom(one, tr, "");
    RetargetedReadsNoMore(one, tr);
    ReadsNoMoreTransitive(body, one, two);
    var three := Inverted(two);
    InvertedFrom(two, "");
    InvertedReadsNoMore(two);
    ReadsNoMoreTransitive(body, two, three);
    var four := Collapsed(three);
    CollapsedReadsNoMore(three);
    ReadsNoMoreTransitive(body, three, four);
    var five := Pruned(four, false);
    PrunedReadsNoMore(four);
    ReadsNoMoreTransitive(body, four, five);
    UnlabelledReadsNoMore(five);
    ReadsNoMoreTransitive(body, five, Unlabelled(five, Referenced(five)));
  }

  lemma AllRecordedOf(body: Body)
    requires DistinctNames(Labels(body))
    ensures AllRecorded(body, TrampolinesOf(body))
  {
    UpToRecorded(body, |body|);
    hide Recorded, TrampolinesUpTo;
  }
}
