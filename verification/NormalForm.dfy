/** What the scalar pipeline leaves behind (cc/ir_optimize.py:596-614): where a round
    changes nothing, none of its passes finds anything more to do. */
module NormalForm {
  import opened Common
  import opened IR
  import opened ControlFlow
  import opened ScalarPipeline

  // ----- The normal form -----

  /** Only loop markers stand between `k` and `j`. */
  ghost predicate OnlyMarkers(r: Body, k: int, j: int) {
    0 <= k < j < |r| && forall i :: k < i < j ==> r[i].LoopBoundary?
  }

  /** No arithmetic and no equality between two literals. */
  ghost predicate NoConstants(r: Body) {
    forall k :: 0 <= k < |r| ==>
      && (r[k].BinaryOperation? && r[k].left.Literal? && r[k].right.Literal? ==> r[k].operation !in {"+", "-", "*", "&", "|", "^"})
      && (r[k].BranchFalse? && r[k].left.Literal? && r[k].right.Literal? ==> r[k].operation !in {"==", "!="})
  }

  /** The instruction at `i` is a copy into a temporary that is written nowhere else. */
  ghost predicate OnlyCopy(r: Body, i: int) {
    && 0 <= i < |r| && r[i].Copy? && "_ir_" <= r[i].destination && r[i].source != Name(r[i].destination)
    && forall k :: 0 <= k < |r| && k != i ==> DestinationOf(r[k]) != Some(r[i].destination)
  }

  /** Nothing behind a forwardable copy reads its destination. */
  ghost predicate NoCopies(r: Body) {
    forall i, j :: OnlyCopy(r, i) && i < j < |r| && !r[j].TailCall? ==> r[i].destination !in Uses(r[j])
  }

  /** A jump does not lead to the label that comes next anyway. */
  ghost predicate NoIdleJumps(r: Body) {
    forall k, j :: OnlyMarkers(r, k, j) && r[k].Jump? ==> r[j] != Label(r[k].target)
  }

  ghost predicate Compares(i: Instruction) { i.BranchFalse? && i.operation in {"==", "!=", "<", "<=", ">", ">="} }

  /** No branch leads around a jump. */
  ghost predicate NoBranchAroundJump(r: Body) {
    forall k, j, q :: OnlyMarkers(r, k, j) && OnlyMarkers(r, j, q) && Compares(r[k]) && r[j].Jump? ==> r[q] != Label(r[k].target)
  }

  ghost predicate Transfers(i: Instruction) { i.Jump? || i.Return? || i.TailCall? }

  /** Behind a jump, a return or a tail call only loop markers stand before the next label. */
  ghost predicate NothingStranded(r: Body) {
    forall k, j :: 0 <= k < j < |r| && Transfers(r[k]) && (forall i :: k < i <= j ==> !r[i].Label?) ==> r[j].LoopBoundary?
  }

  ghost predicate BranchedTo(r: Body, name: string) {
    exists i :: 0 <= i < |r| && (r[i].Jump? || r[i].BranchFalse?) && r[i].target == name
  }

  ghost predicate NoIdleLabels(r: Body) {
    forall k :: 0 <= k < |r| && r[k].Label? ==> BranchedTo(r, r[k].name)
  }

  ghost predicate ReadSomewhere(r: Body, x: string) {
    exists j :: 0 <= j < |r| && !r[j].TailCall? && x in Uses(r[j])
  }

  /** Every temporary that is written is read. */
  ghost predicate NoIdleTemporaries(r: Body) {
    forall k, x :: 0 <= k < |r| && DestinationOf(r[k]) == Some(x) && "_ir_" <= x ==> ReadSomewhere(r, x)
  }

  /** Behind label `a` nothing comes but a jump to another label `b`. */
  ghost predicate PassesOn(r: Body, a: string, b: string) {
    a != b && exists k, j :: OnlyMarkers(r, k, j) && r[k] == Label(a) && r[j] == Jump(b)
  }

  /** Labels that pass on in a ring. */
  ghost predicate Ring(r: Body, q: seq<string>) {
    |q| >= 2 && q[0] == q[|q| - 1] && forall i :: 0 <= i < |q| - 1 ==> PassesOn(r, q[i], q[i + 1])
  }

  /** A branch leads to a label that passes on only if that label is in a ring. */
  ghost predicate NoDetours(r: Body) {
    forall k, b :: 0 <= k < |r| && (r[k].Jump? || r[k].BranchFalse?) && PassesOn(r, r[k].target, b) ==>
      exists q :: Ring(r, q) && q[0] == r[k].target
  }

  ghost predicate Normal(r: Body) {
    && NoConstants(r) && NoCopies(r) && NoIdleJumps(r) && NoBranchAroundJump(r) && NothingStranded(r)
    && NoIdleLabels(r) && NoIdleTemporaries(r) && NoDetours(r)
  }

  // ----- Propagation has nothing to do -----

  lemma NothingFolds(r: Body, bits: (string, int, int) -> int)
    requires FoldOperations(r, bits) == r && Folded(r) == r
    ensures NoConstants(r)
  {
    FoldedSettled(r);
    hide Folded;
    forall k | 0 <= k < |r| && r[k].BinaryOperation? && r[k].left.Literal? && r[k].right.Literal?
      ensures r[k].operation !in {"+", "-", "*", "&", "|", "^"}
    {
      assert FoldOperations(r, bits)[k] == FoldOperation(r[k], bits);
      hide FoldValue, FoldOperations;
    }
  }

  lemma {:induction false} CountZero(r: Body, x: string)
    requires forall k :: 0 <= k < |r| ==> DestinationOf(r[k]) != Some(x)
    ensures CountDefs(r, x) == 0
    decreases |r|
  {
    hide DestinationOf;
    if r != [] {
      forall k | 0 <= k < |r[1..]| ensures DestinationOf(r[1..][k]) != Some(x) { assert r[1..][k] == r[k + 1]; }
      CountZero(r[1..], x);
    }
  }

  lemma {:induction false} CountAlone(r: Body, x: string, i: int)
    requires 0 <= i < |r| && DestinationOf(r[i]) == Some(x)
    requires forall k :: 0 <= k < |r| && k != i ==> DestinationOf(r[k]) != Some(x)
    ensures CountDefs(r, x) == 1
    decreases |r|
  {
    hide DestinationOf;
    var rest := r[1..];
    assert forall k :: 0 <= k < |rest| ==> rest[k] == r[k + 1];
    if i == 0 { CountZero(rest, x); } else { CountAlone(rest, x, i - 1); }
  }

  lemma OnlyCopyForwards(r: Body, i: int)
    requires OnlyCopy(r, i)
    ensures Forwards(r[i], Singles(r))
  {
    CountAlone(r, r[i].destination, i);
    hide CountDefs;
    assert r[i].destination[..4] == "_ir_";
  }

  lemma NothingForwarded(r: Body)
    requires Forwarded(r) == r
    ensures NoCopies(r)
  {
    ForwardFromSettles(r, 0, Singles(r));
    hide ForwardFrom, Forwards, OnlyCopy, Singles, Uses;
    forall i, j | OnlyCopy(r, i) && i < j < |r| && !r[j].TailCall? ensures r[i].destination !in Uses(r[j]) {
      OnlyCopyForwards(r, i);
      OnlyCopySource(r, i);
    }
  }

  lemma OnlyCopySource(r: Body, i: int)
    requires OnlyCopy(r, i)
    ensures 0 <= i < |r| && r[i].Copy? && r[i].source != Name(r[i].destination)
  {
  }

  // ----- The control-flow passes have nothing to do -----

  lemma {:induction false} LeadIs(code: Body, n: int)
    requires 0 <= n < |code| && (forall i :: 0 <= i < n ==> code[i].LoopBoundary?) && !code[n].LoopBoundary?
    ensures Lead(code) == n
  {
    if n > 0 { LeadIs(code[1..], n - 1); }
  }

  lemma LeadBehind(r: Body, k: int, j: int)
    requires OnlyMarkers(r, k, j) && !r[j].LoopBoundary?
    ensures k + 1 + Lead(r[k + 1..]) == j
  {
    var code := r[k + 1..];
    assert forall i :: 0 <= i < |code| ==> code[i] == r[k + 1 + i];
    LeadIs(code, j - k - 1);
  }

  lemma CollapsesShorter(r: Body)
    requires JumpsToNext(r)
    ensures |Collapsed(r)| < |r|
  {
    var n := 1 + Lead(r[1..]);
    CollapsedShrinks(r[n..]);
    hide Weight, Lead;
  }

  lemma InvertsShorter(r: Body)
    requires r != [] && OverJump(r).Some?
    ensures |Inverted(r)| < |r|
  {
    assert r[0..] == r;
    var j := OverJump(r).value;
    InvertedSome(r, 0, j);
    InvertedShrinks(r[j + 1..]);
    hide Inverted, OverJump, InvertBranch, Weight;
  }

  lemma {:induction false} NothingCollapses(r: Body, k: int)
    requires Collapsed(r) == r && 0 <= k < |r|
    ensures !JumpsToNext(r[k..])
    decreases |r|
  {
    if JumpsToNext(r) {
      CollapsesShorter(r);
    } else if k > 0 {
      assert Collapsed(r)[1..] == Collapsed(r[1..]);
      hide JumpsToNext, Collapsed;
      NothingCollapses(r[1..], k - 1);
      assert r[1..][k - 1..] == r[k..];
    } else {
      assert r[0..] == r;
    }
  }

  lemma NoIdleJump(r: Body)
    requires Collapsed(r) == r
    ensures NoIdleJumps(r)
  {
    hide Collapsed, Lead;
    forall k, j | OnlyMarkers(r, k, j) && r[k].Jump? ensures r[j] != Label(r[k].target) {
      NothingCollapses(r, k);
      CollapsedAt(r, k, k + 1 + Lead(r[k + 1..]));
      if r[j] == Label(r[k].target) { LeadBehind(r, k, j); }
    }
  }

  lemma {:induction false} NothingInverts(r: Body, k: int)
    requires Inverted(r) == r && 0 <= k < |r|
    ensures OverJump(r[k..]).None?
    decreases |r|
  {
    assert r[0..] == r;
    if OverJump(r).Some? {
      InvertsShorter(r);
    } else if k > 0 {
      InvertedNone(r, 0);
      hide Inverted, OverJump;
      assert Inverted(r)[1..] == Inverted(r[1..]);
      NothingInverts(r[1..], k - 1);
      assert r[1..][k - 1..] == r[k..];
    }
  }

  lemma NoneAround(r: Body)
    requires Inverted(r) == r
    ensures NoBranchAroundJump(r)
  {
    hide Inverted;
    forall k, j, q | OnlyMarkers(r, k, j) && OnlyMarkers(r, j, q) && Compares(r[k]) && r[j].Jump? ensures r[q] != Label(r[k].target) {
      NotAround(r, k, j, q);
    }
    NoBranchAroundJumpIs(r);
  }

  lemma NoBranchAroundJumpIs(r: Body)
    requires forall k, j, q :: OnlyMarkers(r, k, j) && OnlyMarkers(r, j, q) && Compares(r[k]) && r[j].Jump? ==> r[q] != Label(r[k].target)
    ensures NoBranchAroundJump(r)
  {
  }

  lemma MarkersBounds(r: Body, k: int, j: int)
    requires OnlyMarkers(r, k, j)
    ensures 0 <= k < j < |r|
  {
  }

  lemma ComparesInvertibly(i: Instruction)
    requires Compares(i)
    ensures Invertible(i) && i.BranchFalse?
  {
  }

  lemma NotAround(r: Body, k: int, j: int, q: int)
    requires Inverted(r) == r && OnlyMarkers(r, k, j) && OnlyMarkers(r, j, q)
    requires Compares(r[k]) && r[j].Jump?
    ensures r[k].BranchFalse? && r[q] != Label(r[k].target)
  {
    hide *;
    MarkersBounds(r, k, j);
    MarkersBounds(r, j, q);
    LeadBehind(r, k, j);
    ComparesInvertibly(r[k]);
    NothingInverts(r, k);
    OverJumpAt(r, k, j);
    if r[q] == Label(r[k].target) { LeadBehind(r, j, q); }
  }

  lemma PrunedRest(r: Body, skipping: bool) returns (next: bool)
    requires r != [] && Pruned(r, skipping) == r
    ensures Pruned(r[1..], next) == r[1..]
    ensures !r[0].Label? ==> (next <==> skipping || Transfers(r[0])) && (skipping ==> r[0].LoopBoundary?)
  {
    var i, rest := r[0], r[1..];
    assert r == [i] + rest;
    PrunedCons(i, rest, skipping);
    PrunedShrinks(rest, true);
    hide Pruned, Weight;
    next := if i.Label? then false else skipping || Unconditional(i);
    assert [] + Pruned(rest, true) == Pruned(rest, true);
    assert ([i] + Pruned(rest, next))[1..] == Pruned(rest, next);
  }

  /** What pruning leaves in place behind a transfer. */
  lemma {:induction false} NothingPruned(r: Body, skipping: bool, k: int, j: int)
    requires Pruned(r, skipping) == r && -1 <= k < j < |r|
    requires if k < 0 then skipping else Transfers(r[k])
    requires forall i :: k < i <= j ==> !r[i].Label?
    ensures r[j].LoopBoundary?
    decreases |r|
  {
    hide Pruned;
    var i, rest := r[0], r[1..];
    var next := PrunedRest(r, skipping);
    if k < 0 && j == 0 {
    } else if k <= 0 {
      if j > 0 { NothingPruned(rest, next, -1, j - 1); }
    } else {
      NothingPruned(rest, next, k - 1, j - 1);
    }
  }

  lemma NoneStranded(r: Body)
    requires Pruned(r, false) == r
    ensures NothingStranded(r)
  {
    hide Pruned;
    forall k, j | 0 <= k < j < |r| && Transfers(r[k]) && (forall i :: k < i <= j ==> !r[i].Label?)
      ensures r[j].LoopBoundary?
    {
      NothingPruned(r, false, k, j);
    }
  }

  lemma {:induction false} NothingUnlabelled(r: Body, referenced: set<string>, k: int)
    requires Unlabelled(r, referenced) == r && 0 <= k < |r|
    ensures KeptBy(referenced, r[k])
    decreases |r|
  {
    var i, rest := r[0], r[1..];
    assert r == [i] + rest;
    UnlabelledCons(i, rest, referenced);
    UnlabelledShrinks(rest, referenced);
    hide Unlabelled, KeptBy, Weight;
    assert [] + Unlabelled(rest, referenced) == Unlabelled(rest, referenced);
    if k > 0 {
      assert ([i] + Unlabelled(rest, referenced))[1..] == Unlabelled(rest, referenced);
      NothingUnlabelled(rest, referenced, k - 1);
    }
  }

  lemma LabelsUsed(r: Body)
    requires Unlabelled(r, Referenced(r)) == r
    ensures NoIdleLabels(r)
  {
    hide Unlabelled;
    forall k | 0 <= k < |r| && r[k].Label? ensures BranchedTo(r, r[k].name) { NothingUnlabelled(r, Referenced(r), k); }
  }

  lemma {:induction false} NothingDies(r: Body, used: set<string>, k: int)
    requires AliveOf(r, used) == r && 0 <= k < |r|
    ensures !Dead(r[k], used)
    decreases |r|
  {
    var i, rest := r[0], r[1..];
    AliveShrinks(rest, used);
    AliveKinds(i, used);
    var head := Alive(i, used);
    assert AliveOf(r, used) == head + AliveOf(rest, used);
    hide AliveOf, Alive, Dead, Weight;
    assert head != [];
    assert (head + AliveOf(rest, used))[0] == head[0] && (head + AliveOf(rest, used))[1..] == AliveOf(rest, used);
    if k > 0 { NothingDies(rest, used, k - 1); }
  }

  lemma AliveKinds(i: Instruction, used: set<string>)
    ensures |Alive(i, used)| <= 1 && (Alive(i, used) == [i] ==> !Dead(i, used))
  {
    hide IsTemp;
  }

  lemma TemporariesUsed(r: Body)
    requires WithoutDead(r) == r
    ensures NoIdleTemporaries(r)
  {
    WithoutDeadIs(r);
    hide AliveOf, Uses;
    forall k, x | 0 <= k < |r| && DestinationOf(r[k]) == Some(x) && "_ir_" <= x ensures ReadSomewhere(r, x) {
      NothingDies(r, UsedNames(r), k);
      assert x[..4] == "_ir_";
      assert x in UsedNames(r);
      var j :| 0 <= j < |r| && x in Reads(r[j]);
    }
  }

  // ----- Where branches lead -----

  /** What the trampolines record is what labels pass on to. */
  lemma PassesOnIs(r: Body, a: string, b: string)
    requires UniqueLabels(r)
    ensures PassesOn(r, a, b) <==> Step(TrampolinesOf(r), a, b)
  {
    hide *;
    if PassesOn(r, a, b) { PassedIsRecorded(r, a, b); }
    if Step(TrampolinesOf(r), a, b) { RecordedPassesOn(r, a, b); }
  }

  lemma PassedIsRecorded(r: Body, a: string, b: string)
    requires UniqueLabels(r) && PassesOn(r, a, b)
    ensures Step(TrampolinesOf(r), a, b)
  {
    hide UniqueLabels, TrampolinesOf, LandsAt, TrampolineAt, Lead;
    var k, j :| OnlyMarkers(r, k, j) && r[k] == Label(a) && r[j] == Jump(b);
    LeadBehind(r, k, j);
    TrampolineIff(r, k);
    RecordedTarget(r, k);
  }

  lemma RecordedLabel(r: Body, a: string, b: string) returns (k: nat)
    requires Step(TrampolinesOf(r), a, b)
    ensures k < |r| && TrampolineAt(r, k) && r[k] == Label(a) && LandsAt(r, k) == b
  {
    var tr := TrampolinesOf(r);
    UpToRecorded(r, |r|);
    hide TrampolinesUpTo, LandsAt, Lead;
    assert Recorded(r, tr, a);
    k :| k < |r| && TrampolineAt(r, k) && r[k].name == a && tr[a] == LandsAt(r, k);
  }

  lemma PassesOnFrom(r: Body, k: int, j: int, a: string, b: string)
    requires OnlyMarkers(r, k, j) && r[k] == Label(a) && r[j].Jump? && r[j].target == b && a != b
    ensures PassesOn(r, a, b)
  {
    assert r[j] == Jump(b);
  }

  lemma RecordedPassesOn(r: Body, a: string, b: string)
    requires Step(TrampolinesOf(r), a, b)
    ensures PassesOn(r, a, b)
  {
    hide *;
    var k := RecordedLabel(r, a, b);
    TrampolineIff(r, k);
    BehindMarkers(r, k);
    PassesOnFrom(r, k, Behind(r, k), a, b);
  }

  lemma BehindMarkers(r: Body, k: nat)
    requires k < |r| && Behind(r, k) < |r|
    ensures OnlyMarkers(r, k, Behind(r, k))
  {
    forall i | k < i < Behind(r, k) ensures r[i].LoopBoundary? { assert r[i] == r[k + 1..][i - k - 1]; }
  }

  lemma NoneDetours(r: Body)
    requires UniqueLabels(r) && Retargeted(r, TrampolinesOf(r)) == r
    ensures NoDetours(r)
  {
    var tr := TrampolinesOf(r);
    RetargetedAt(r, tr);
    hide UniqueLabels, TrampolinesOf, Retargeted, PassesOn, Resolve;
    forall k, b | 0 <= k < |r| && (r[k].Jump? || r[k].BranchFalse?) && PassesOn(r, r[k].target, b)
      ensures exists q :: Ring(r, q) && q[0] == r[k].target
    {
      var t := r[k].target;
      PassesOnIs(r, t, b);
      assert Retarget(r[k], tr) == r[k];
      var q := StopsOnCycle(tr, t);
      forall i | 0 <= i < |q| - 1 ensures PassesOn(r, q[i], q[i + 1]) {
        assert Step(tr, q[i], q[i + 1]);
        PassesOnIs(r, q[i], q[i + 1]);
      }
      assert Ring(r, q);
    }
  }

  // ----- A round that changes nothing -----

  /** Where a round changes nothing, neither does any of its passes. */
  lemma SettledStages(r: Body, bits: (string, int, int) -> int)
    requires UniqueLabels(r) && OneRound(r, bits) == r
    ensures Forwarded(r) == r && FoldOperations(r, bits) == r && Folded(r) == r && Retargeted(r, TrampolinesOf(r)) == r
    ensures Inverted(r) == r && Collapsed(r) == r && Pruned(r, false) == r && Unlabelled(r, Referenced(r)) == r && WithoutDead(r) == r
  {
    var z := Forwarded(r);
    var p := Propagated(r, bits);
    ForwardedSameSize(r);
    FoldOperationsShrinks(z, bits);
    StagesShrink(p);
    UniqueForwarded(r, bits);
    hide Folded, Retargeted, Inverted, Collapsed, Pruned, Unlabelled, WithoutDead, Simplified, Forwarded, FoldOperations, Weight, TrampolinesOf, Referenced, UniqueLabels;
    assert p == z;
    var tr := TrampolinesOf(z);
    assert Folded(z) == z && r == Retargeted(z, tr);
    NothingToPropagate(r, bits, tr);
    assert p == r && FoldOperations(z, bits) == z;
  }

  /** A body that a round leaves unchanged is in normal form. */
  lemma SettledIsNormal(r: Body, bits: (string, int, int) -> int)
    requires UniqueLabels(r) && OneRound(r, bits) == r
    ensures Normal(r)
  {
    hide *;
    SettledStages(r, bits);
    NothingFolds(r, bits);
    NothingForwarded(r);
    NoIdleJump(r);
    NoneAround(r);
    NoneStranded(r);
    LabelsUsed(r);
    TemporariesUsed(r);
    NoneDetours(r);
    NormalIs(r);
  }

  lemma NormalIs(r: Body)
    requires NoConstants(r) && NoCopies(r) && NoIdleJumps(r) && NoBranchAroundJump(r) && NothingStranded(r)
    requires NoIdleLabels(r) && NoIdleTemporaries(r) && NoDetours(r)
    ensures Normal(r)
  {
  }
}
