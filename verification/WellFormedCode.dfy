/** The scalar passes keep code well formed (cc/ir_optimize.py:556-631): labels stay
    distinct, and every branch still finds its label. */
module WellFormedCode {
  import opened Common
  import opened IR
  import opened Cfg
  import opened ControlFlow
  import opened ScalarPipeline

  lemma ReferencedBoth(a: Body, b: Body)
    ensures Referenced(a + b) == Referenced(a) + Referenced(b)
  {
    var c := a + b;
    forall x | x in Referenced(a) + Referenced(b) ensures x in Referenced(c) {
      if x in Referenced(a) {
        var k :| 0 <= k < |a| && Branches(a[k]) && a[k].target == x;
        assert c[k] == a[k];
      } else {
        var k :| 0 <= k < |b| && Branches(b[k]) && b[k].target == x;
        assert c[|a| + k] == b[k];
      }
    }
  }

  lemma ReferencedOne(i: Instruction)
    ensures Referenced([i]) == (if Branches(i) then {i.target} else {}) && Referenced([]) == {}
  {
    var code := [i];
    if Branches(i) { assert code[0].target in Referenced(code); }
  }

  lemma TargetReferenced(body: Body, k: int)
    requires 0 <= k < |body| && Branches(body[k])
    ensures body[k].target in Referenced(body)
  {
  }

  // ----- No pass aims at anything new -----

  lemma {:induction false} FoldedAims(body: Body)
    ensures Referenced(Folded(body)) <= Referenced(body)
    decreases |body|
  {
    if body != [] {
      hide Referenced, FoldOne;
      FoldedAims(body[1..]);
      FoldOneAims(body[0]);
      ReferencedBoth([body[0]], body[1..]);
      ReferencedBoth(FoldOne(body[0]), Folded(body[1..]));
      assert body == [body[0]] + body[1..];
    }
  }

  lemma FoldOneAims(i: Instruction)
    ensures Referenced(FoldOne(i)) <= Referenced([i])
  {
    ReferencedOne(i);
    ReferencedOne(if i.BranchFalse? then Jump(i.target) else i);
    hide Referenced;
  }

  lemma {:induction false} ResolvedAims(body: Body, tr: Trampolines, current: string, seen: set<string>)
    requires current in Referenced(body) && forall name :: name in tr ==> tr[name] in Referenced(body)
    ensures ResolveFrom(tr, current, seen) in Referenced(body)
    decreases |tr.Keys - seen|
  {
    hide Referenced;
    if current in tr && current !in seen {
      assert tr.Keys - (seen + {current}) == (tr.Keys - seen) - {current};
      ResolvedAims(body, tr, tr[current], seen + {current});
    }
  }

  lemma TrampolinesAim(body: Body)
    ensures forall name :: name in TrampolinesOf(body) ==> TrampolinesOf(body)[name] in Referenced(body)
  {
    var tr := TrampolinesOf(body);
    UpToRecorded(body, |body|);
    hide TrampolineAt, LandsAt, Referenced, TrampolinesUpTo;
    forall name | name in tr ensures tr[name] in Referenced(body) {
      assert Recorded(body, tr, name);
      var index: nat :| index < |body| && TrampolineAt(body, index) && body[index].name == name && tr[name] == LandsAt(body, index);
      TrampolineIs(body, index);
      TargetReferenced(body, index + 1 + Lead(body[index + 1..]));
    }
  }

  lemma RetargetAims(body: Body, i: Instruction, tr: Trampolines)
    requires Branches(i) ==> i.target in Referenced(body)
    requires forall name :: name in tr ==> tr[name] in Referenced(body)
    ensures Referenced([Retarget(i, tr)]) <= Referenced(body)
  {
    ReferencedOne(Retarget(i, tr));
    if Branches(i) { ResolvedAims(body, tr, i.target, {}); }
    hide Referenced, ResolveFrom;
  }

  lemma {:induction false} RetargetedAims(body: Body, code: Body, tr: Trampolines)
    requires (forall k :: 0 <= k < |code| && Branches(code[k]) ==> code[k].target in Referenced(body))
    requires forall name :: name in tr ==> tr[name] in Referenced(body)
    ensures Referenced(Retargeted(code, tr)) <= Referenced(body)
    decreases |code|
  {
    hide Referenced, Retarget;
    if code == [] {
      ReferencedOne(Return(None));
    } else {
      RetargetedAims(body, code[1..], tr);
      RetargetAims(body, code[0], tr);
      ReferencedBoth([Retarget(code[0], tr)], Retargeted(code[1..], tr));
    }
  }

  lemma {:induction false} InvertedAims(body: Body)
    ensures Referenced(Inverted(body)) <= Referenced(body)
    decreases |body|
  {
    hide *;
    assert body[0..] == body;
    if body == [] {
      InvertedEmpty();
    } else if OverJump(body).Some? {
      var j := OverJump(body).value;
      InvertedSome(body, 0, j);
      OverJumpShape(body);
      InvertedAims(body[j + 1..]);
      var b := InvertBranch(body[0], body[j].target);
      InvertBranchIs(body[0], body[j].target);
      ReferencedOne(b);
      MarkersAim(body[1..j]);
      ReferencedBoth([b], body[1..j]);
      ReferencedBoth([b] + body[1..j], Inverted(body[j + 1..]));
      JumpAims(body, j);
      assert body == body[..j + 1] + body[j + 1..] && body[0 + 1..j] == body[1..j];
      ReferencedBoth(body[..j + 1], body[j + 1..]);
      BranchIs(b);
    } else {
      InvertedNone(body, 0);
      InvertedAims(body[1..]);
      ReferencedBoth([body[0]], body[1..]);
      ReferencedBoth([body[0]], Inverted(body[1..]));
      assert body == [body[0]] + body[1..];
    }
  }

  lemma BranchIs(i: Instruction)
    ensures i.BranchFalse? || i.Jump? ==> Branches(i)
  {
  }

  lemma JumpAims(body: Body, j: int)
    requires 0 <= j < |body| && body[j].Jump?
    ensures body[j].target in Referenced(body)
  {
  }

  lemma MarkersAim(code: Body)
    requires forall k :: 0 <= k < |code| ==> code[k].LoopBoundary?
    ensures Referenced(code) == {}
  {
  }

  lemma {:induction false} CollapsedAims(body: Body)
    ensures Referenced(Collapsed(body)) <= Referenced(body)
    decreases |body|
  {
    hide Referenced;
    if body == [] {
    } else if JumpsToNext(body) {
      var n := 1 + Lead(body[1..]);
      CollapsedAims(body[n..]);
      ReferencedBoth(body[1..n], Collapsed(body[n..]));
      ReferencedBoth([body[0]], body[1..n]);
      ReferencedBoth([body[0]] + body[1..n], body[n..]);
      assert body == [body[0]] + body[1..n] + body[n..];
    } else {
      CollapsedAims(body[1..]);
      ReferencedBoth([body[0]], Collapsed(body[1..]));
      ReferencedBoth([body[0]], body[1..]);
      assert body == [body[0]] + body[1..];
    }
  }

  lemma {:induction false} PrunedAims(body: Body, skipping: bool)
    ensures Referenced(Pruned(body, skipping)) <= Referenced(body)
    decreases |body|
  {
    if body != [] {
      hide Referenced, Unconditional;
      var i, rest := body[0], body[1..];
      assert body == [i] + rest;
      PrunedCons(i, rest, skipping);
      PrunedAims(rest, false);
      PrunedAims(rest, true);
      hide Pruned;
      ReferencedBoth([i], rest);
      ReferencedBoth([i], Pruned(rest, false));
      ReferencedBoth([i], Pruned(rest, true));
      assert [] + Pruned(rest, true) == Pruned(rest, true);
    }
  }

  lemma {:induction false} UnlabelledAims(body: Body, referenced: set<string>)
    ensures Referenced(Unlabelled(body, referenced)) <= Referenced(body)
    decreases |body|
  {
    if body != [] {
      hide Referenced, KeptBy;
      var i, rest := body[0], body[1..];
      assert body == [i] + rest;
      UnlabelledCons(i, rest, referenced);
      UnlabelledAims(rest, referenced);
      hide Unlabelled;
      ReferencedBoth([i], rest);
      ReferencedBoth([i], Unlabelled(rest, referenced));
      assert [] + Unlabelled(rest, referenced) == Unlabelled(rest, referenced);
    }
  }

  // ----- Labels that are aimed at stay -----

  lemma {:induction false} KeptLabels(body: Body, referenced: set<string>, name: string)
    requires name in referenced && name in Labels(body)
    ensures name in Labels(Unlabelled(body, referenced))
    decreases |body|
  {
    if body != [] {
      var i, rest := body[0], body[1..];
      assert body == [i] + rest;
      UnlabelledCons(i, rest, referenced);
      LabelsSplit([i], rest);
      LabelsSplit([i], Unlabelled(rest, referenced));
      LabelsOfOne(i);
      KeptOne(i, referenced);
      hide Unlabelled, Labels, KeptBy;
      if name in Labels(rest) { KeptLabels(rest, referenced, name); }
      assert [] + Unlabelled(rest, referenced) == Unlabelled(rest, referenced);
    }
  }

  lemma KeptOne(i: Instruction, referenced: set<string>)
    ensures KeptBy(referenced, i) == (i.Label? ==> i.name in referenced)
  {
  }

  /** Every target is a label, and no label uses the reserved prefix. */
  ghost predicate Landed(body: Body) {
    Referenced(body) <= (set x | x in Labels(body)) && forall x :: x in Labels(body) ==> !Synthetic(x)
  }

  lemma LandedIs(body: Body)
    ensures Landed(body) <==> TargetsDefined(body) && NoReservedLabels(body)
  {
    forall x ensures x in Labels(body) <==> Label(x) in body { LabelListed(body, x); }
    hide Labels, Synthetic;
    if Landed(body) {
      forall k | 0 <= k < |body| && Branches(body[k]) ensures Label(body[k].target) in body { assert body[k].target in Referenced(body); }
      forall k | 0 <= k < |body| && body[k].Label? ensures !Synthetic(body[k].name) { assert body[k] == Label(body[k].name); }
    }
    if TargetsDefined(body) && NoReservedLabels(body) {
      forall x | x in Labels(body) ensures !Synthetic(x) {
        var k :| 0 <= k < |body| && body[k] == Label(x);
      }
    }
  }

  lemma SameLabelsLanded(a: Body, b: Body)
    requires Landed(a) && Labels(b) == Labels(a) && Referenced(b) <= Referenced(a)
    ensures Landed(b)
  {
    hide Labels, Referenced, Synthetic;
  }

  lemma UnlabelledLanded(body: Body)
    requires Landed(body) && DistinctNames(Labels(body))
    ensures Landed(Unlabelled(body, Referenced(body)))
  {
    var r := Unlabelled(body, Referenced(body));
    UnlabelledAims(body, Referenced(body));
    UnlabelledNames(body, Referenced(body));
    hide Labels, Referenced, Synthetic, Unlabelled, DistinctNames;
    forall x | x in Referenced(r) ensures x in Labels(r) { KeptLabels(body, Referenced(body), x); }
  }

  lemma AllAims(body: Body)
    ensures forall k :: 0 <= k < |body| && Branches(body[k]) ==> body[k].target in Referenced(body)
  {
  }

  /** The six control-flow passes. */
  lemma SimplifiedLanded(body: Body)
    requires Landed(body) && UniqueLabels(body)
    ensures Landed(Simplified(body)) && UniqueLabels(Simplified(body))
  {
    hide *;
    UniqueIsDistinct(body);
    SimplifiedIs(body);
    var one := Folded(body);
    FoldedFrom(body, "");
    FoldedAims(body);
    SameLabelsLanded(body, one);
    var tr := TrampolinesOf(one);
    var two := Retargeted(one, tr);
    TrampolinesAim(one);
    RetargetedFrom(one, tr, "");
    AllAims(one);
    RetargetedAims(one, one, tr);
    SameLabelsLanded(one, two);
    var three := Inverted(two);
    InvertedFrom(two, "");
    InvertedAims(two);
    SameLabelsLanded(two, three);
    var four := Collapsed(three);
    CollapsedFrom(three, "");
    CollapsedAims(three);
    SameLabelsLanded(three, four);
    var five := Pruned(four, false);
    PrunedFrom(four, false, "");
    PrunedAims(four, false);
    SameLabelsLanded(four, five);
    UnlabelledLanded(five);
    UnlabelledNames(five, Referenced(five));
    DistinctIsUnique(Unlabelled(five, Referenced(five)));
  }

  // ----- Propagation and dead code -----

  /** Propagation changes no label and no target. */
  lemma {:induction false} SameLabelNames(a: Body, b: Body)
    requires |a| == |b| && forall k :: 0 <= k < |a| ==> a[k].Label? == b[k].Label? && (a[k].Label? ==> a[k] == b[k])
    ensures Labels(a) == Labels(b)
    decreases |a|
  {
    if a != [] {
      forall k | 0 <= k < |a[1..]| ensures a[1..][k].Label? == b[1..][k].Label? && (a[1..][k].Label? ==> a[1..][k] == b[1..][k]) { assert a[1..][k] == a[k + 1] && b[1..][k] == b[k + 1]; }
      SameLabelNames(a[1..], b[1..]);
    }
  }

  ghost predicate SameAim(i: Instruction, j: Instruction) {
    i.Label? == j.Label? && (i.Label? ==> i == j) && Branches(i) == Branches(j) && (Branches(i) ==> i.target == j.target)
  }

  lemma SubstAims(i: Instruction, target: string, source: Value)
    ensures SameAim(i, Subst(i, target, source))
  {
  }

  lemma {:induction false} ForwardAims(r: Body, n: nat, single: set<string>)
    requires n <= |r|
    ensures forall k :: 0 <= k < |r| ==> SameAim(r[k], ForwardFrom(r, n, single)[k])
    decreases |r| - n
  {
    if n < |r| {
      var s := ForwardAt(r, n, single);
      forall k | 0 <= k < |r| ensures SameAim(r[k], s[k]) {
        if Forwards(r[n], single) { SubstAims(r[k], r[n].destination, r[n].source); }
        hide Subst;
      }
      hide ForwardAt, Forwards;
      ForwardAims(s, n + 1, single);
    }
  }

  lemma FoldAims(i: Instruction, bits: (string, int, int) -> int)
    ensures SameAim(i, FoldOperation(i, bits))
  {
    hide FoldValue, Foldable;
  }

  lemma AimsSame(a: Body, b: Body)
    requires |a| == |b| && forall k :: 0 <= k < |a| ==> SameAim(a[k], b[k])
    ensures Labels(a) == Labels(b) && Referenced(a) == Referenced(b)
  {
    SameLabelNames(a, b);
    assert forall k :: 0 <= k < |a| ==> SameAim(a[k], b[k]);
    hide Labels;
    forall x ensures x in Referenced(a) <==> x in Referenced(b) {
      if x in Referenced(a) {
        var k :| 0 <= k < |a| && Branches(a[k]) && a[k].target == x;
        assert SameAim(a[k], b[k]);
      }
      if x in Referenced(b) {
        var k :| 0 <= k < |b| && Branches(b[k]) && b[k].target == x;
        assert SameAim(a[k], b[k]);
      }
    }
  }

  lemma PropagatedLanded(body: Body, bits: (string, int, int) -> int)
    requires Landed(body)
    ensures Landed(Propagated(body, bits))
  {
    var z := ForwardFrom(body, 0, Singles(body));
    var p := FoldOperations(z, bits);
    assert p == Propagated(body, bits);
    ForwardAims(body, 0, Singles(body));
    forall k | 0 <= k < |body| ensures SameAim(body[k], p[k]) {
      FoldAims(z[k], bits);
      assert p[k] == FoldOperation(z[k], bits);
      hide FoldOperation;
    }
    hide ForwardFrom, Singles, FoldOperations, Propagated;
    AimsSame(body, p);
    hide Landed, Labels, Referenced;
    SameLabelsLanded(body, p);
  }

  lemma {:induction false} AliveAims(body: Body, used: set<string>)
    ensures Referenced(AliveOf(body, used)) <= Referenced(body)
    decreases |body|
  {
    if body != [] {
      hide Referenced, Alive;
      AliveAims(body[1..], used);
      AliveOneAims(body[0], used);
      ReferencedBoth([body[0]], body[1..]);
      ReferencedBoth(Alive(body[0], used), AliveOf(body[1..], used));
      assert body == [body[0]] + body[1..];
    }
  }

  lemma AliveOneAims(i: Instruction, used: set<string>)
    ensures Referenced(Alive(i, used)) <= Referenced([i])
  {
    ReferencedOne(i);
    ReferencedOne(if i.Call? then i.(result := None) else i);
    hide Referenced, IsTemp;
  }

  /** One round of the scalar pipeline keeps code well formed. */
  lemma RoundWellFormed(x: Body, bits: (string, int, int) -> int)
    requires WellFormed(x)
    ensures WellFormed(OneRound(x, bits))
  {
    hide *;
    WellFormedIs(x);
    LandedIs(x);
    var p := Propagated(x, bits);
    UniqueForwarded(x, bits);
    PropagatedLanded(x, bits);
    SimplifiedLanded(p);
    var six := Simplified(p);
    AliveNames(six, UsedNames(six));
    AliveAims(six, UsedNames(six));
    WithoutDeadIs(six);
    SameLabelsLanded(six, WithoutDead(six));
    RoundKeepsUnique(x, bits);
    OneRoundIs(x, bits);
    LandedIs(OneRound(x, bits));
    WellFormedIs(OneRound(x, bits));
  }

  lemma WellFormedIs(x: Body)
    ensures WellFormed(x) <==> UniqueLabels(x) && TargetsDefined(x) && NoReservedLabels(x)
  {
  }
}
