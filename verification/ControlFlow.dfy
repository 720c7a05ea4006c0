/** The six control-flow passes over flat code (cc/ir_optimize.py:98-126,
    225-334, 386-464, 616-631), and the proof that they keep its meaning. */
module ControlFlow {
  import opened Common
  import opened IR

  /** The part of `body` that a jump to `label` runs. */
  function From(body: Body, name: string): Body {
    body[LabelIndex(body, name)..]
  }

  lemma FromStep(body: Body, name: string)
    requires body != [] && body[0] != Label(name)
    ensures From(body, name) == From(body[1..], name)
  {
  }

  // ----- Labels -----

  function Labels(code: Body): seq<string> {
    if code == [] then []
    else (if code[0].Label? then [code[0].name] else []) + Labels(code[1..])
  }

  lemma {:induction false} LabelsSplit(a: Body, b: Body)
    ensures Labels(a + b) == Labels(a) + Labels(b)
  {
    if a == [] {
      assert a + b == b;
    } else {
      LabelsSplit(a[1..], b);
      assert (a + b)[1..] == a[1..] + b;
    }
  }

  lemma {:induction false} LabelListed(code: Body, name: string)
    ensures name in Labels(code) <==> Label(name) in code
  {
    if code != [] {
      LabelListed(code[1..], name);
      assert code == [code[0]] + code[1..];
    }
  }

  predicate DistinctNames(s: seq<string>) {
    forall i, j :: 0 <= i < j < |s| ==> s[i] != s[j]
  }

  /** When no label is defined twice, a label's own position is the one found. */
  lemma {:induction false} FromHere(body: Body, k: nat)
    requires DistinctNames(Labels(body)) && k < |body| && body[k].Label?
    ensures From(body, body[k].name) == body[k..]
    decreases k
  {
    if k > 0 {
      var rest := body[1..];
      assert body == [body[0]] + rest;
      assert rest[k - 1] == body[k] && Label(body[k].name) in rest;
      LabelListed(rest, body[k].name);
      assert Labels(body) == (if body[0].Label? then [body[0].name] else []) + Labels(rest);
      TailDistinct(body);
      FromHere(rest, k - 1);
      assert body[0] != body[k] by {
        if body[0].Label? { assert Labels(body)[0] == body[0].name; }
      }
    }
  }

  lemma DistinctTail(head: string, tail: seq<string>)
    requires DistinctNames([head] + tail)
    ensures DistinctNames(tail) && head !in tail
  {
    var all := [head] + tail;
    forall i | 0 <= i < |tail| ensures tail[i] != head { assert all[0] == head && all[i + 1] == tail[i]; }
    forall i, j | 0 <= i < j < |tail| ensures tail[i] != tail[j] {
      assert all[i + 1] == tail[i] && all[j + 1] == tail[j];
    }
  }

  lemma TailDistinct(body: Body)
    requires body != [] && DistinctNames(Labels(body))
    ensures DistinctNames(Labels(body[1..]))
    ensures body[0].Label? ==> body[0].name !in Labels(body[1..])
  {
    var tail := Labels(body[1..]);
    assert Labels(body) == (if body[0].Label? then [body[0].name] else []) + tail;
    hide DistinctNames, Labels;
    if body[0].Label? { DistinctTail(body[0].name, tail); } else { assert Labels(body) == tail; }
  }

  // ----- One step of a run -----

  lemma EvalPlain(m: Machine, body: Body, i: Instruction, rest: Body, s: Store, trace: seq<Event>, fuel: nat)
    requires !IsTerminator(i)
    ensures Eval(m, body, [i] + rest, s, trace, fuel) == Eval(m, body, rest, Effect(m, i, s, trace), Calls(m, i, s, trace), fuel)
  {
    assert ([i] + rest)[1..] == rest;
  }

  lemma EvalBranch(m: Machine, body: Body, i: Instruction, rest: Body, s: Store, trace: seq<Event>, fuel: nat)
    requires i.BranchFalse?
    ensures Eval(m, body, [i] + rest, s, trace, fuel) ==
      if Holds(m, s, i) then Eval(m, body, rest, s, trace, fuel) else Transfer(m, body, i.target, s, trace, fuel)
  {
    assert ([i] + rest)[1..] == rest;
  }

  /** Code that starts with a transfer or an exit does not depend on what follows. */
  lemma EvalExit(m: Machine, body: Body, body': Body, i: Instruction, rest: Body, rest': Body, s: Store, trace: seq<Event>, fuel: nat)
    requires i.Return? || i.TailCall?
    ensures Eval(m, body, [i] + rest, s, trace, fuel) == Eval(m, body', [i] + rest', s, trace, fuel)
    ensures Eval(m, body, [i] + rest, s, trace, fuel).Finished?
  {
  }

  lemma EvalJump(m: Machine, body: Body, target: string, rest: Body, s: Store, trace: seq<Event>, fuel: nat)
    ensures Eval(m, body, [Jump(target)] + rest, s, trace, fuel) == Transfer(m, body, target, s, trace, fuel)
  {
  }

  lemma TransferIs(m: Machine, body: Body, target: string, s: Store, trace: seq<Event>, fuel: nat)
    ensures Transfer(m, body, target, s, trace, fuel) ==
      if fuel == 0 then Exhausted(trace) else Eval(m, body, From(body, target), s, trace, fuel - 1)
  {
  }

  // ----- Metadata -----

  /** How many loop markers the code starts with. */
  function Lead(code: Body): (n: nat)
    ensures n <= |code|
    ensures forall i :: 0 <= i < n ==> code[i].LoopBoundary?
    ensures n < |code| ==> !code[n].LoopBoundary?
  {
    if code != [] && code[0].LoopBoundary? then 1 + Lead(code[1..]) else 0
  }

  /** Loop markers do nothing. */
  lemma {:induction false} MarkersDoNothing(m: Machine, body: Body, marks: Body, rest: Body, s: Store, trace: seq<Event>, fuel: nat)
    requires forall i :: 0 <= i < |marks| ==> marks[i].LoopBoundary?
    ensures Eval(m, body, marks + rest, s, trace, fuel) == Eval(m, body, rest, s, trace, fuel)
  {
    if marks == [] {
      assert marks + rest == rest;
    } else {
      MarkersDoNothing(m, body, marks[1..], rest, s, trace, fuel);
      assert (marks + rest)[1..] == marks[1..] + rest;
    }
  }

  lemma LeadDoesNothing(m: Machine, body: Body, code: Body, s: Store, trace: seq<Event>, fuel: nat)
    ensures Eval(m, body, code, s, trace, fuel) == Eval(m, body, code[Lead(code)..], s, trace, fuel)
  {
    assert code == code[..Lead(code)] + code[Lead(code)..];
    MarkersDoNothing(m, body, code[..Lead(code)], code[Lead(code)..], s, trace, fuel);
  }

  lemma {:induction false} MarkersHaveNoLabels(marks: Body)
    requires forall i :: 0 <= i < |marks| ==> !marks[i].Label?
    ensures Labels(marks) == []
  {
    if marks != [] { MarkersHaveNoLabels(marks[1..]); }
  }

  lemma {:induction false} FromSkips(marks: Body, rest: Body, name: string)
    requires forall i :: 0 <= i < |marks| ==> !marks[i].Label?
    ensures From(marks + rest, name) == From(rest, name)
  {
    if marks == [] {
      assert marks + rest == rest;
    } else {
      FromSkips(marks[1..], rest, name);
      assert (marks + rest)[1..] == marks[1..] + rest;
    }
  }

  // ----- 1. Constant branches -----

  function ConstantTruth(i: Instruction): Option<bool> {
    if i.BranchFalse? && i.left.Literal? && i.right.Literal? then
      if i.operation == "==" then Some(i.left.n == i.right.n)
      else if i.operation == "!=" then Some(i.left.n != i.right.n)
      else None
    else None
  }

  function FoldOne(i: Instruction): Body {
    match ConstantTruth(i)
    case Some(true) => []
    case Some(false) => [Jump(i.target)]
    case None => [i]
  }

  function Folded(code: Body): Body {
    if code == [] then [] else FoldOne(code[0]) + Folded(code[1..])
  }

  lemma FoldedEnds(body: Body)
    ensures [] + Folded(body[0..]) == Folded(body) && Folded([]) == []
  {
    assert body[0..] == body;
  }

  method FoldConstantBranches(body: Body) returns (result: Body)
    ensures result == Folded(body)
  {
    hide *;
    result := [];
    FoldedEnds(body);
    for index := 0 to |body|
      invariant result + Folded(body[index..]) == Folded(body)
    {
      var i, rest := body[index], body[index + 1..];
      assert body[index..] == [i] + rest;
      FoldedCons(i, rest);
      Associative(result, FoldOne(i), Folded(rest));
      result := result + FoldOne(i);
    }
    assert body[|body|..] == [];
  }

  lemma FoldedCons(i: Instruction, rest: Body)
    ensures Folded([i] + rest) == FoldOne(i) + Folded(rest)
  {
    assert ([i] + rest)[1..] == rest;
  }

  lemma {:induction false} FoldedFrom(body: Body, name: string)
    ensures From(Folded(body), name) == Folded(From(body, name))
    ensures Labels(Folded(body)) == Labels(body)
  {
    if body != [] {
      FoldedFrom(body[1..], name);
      var head, tail := FoldOne(body[0]), Folded(body[1..]);
      LabelsSplit(head, tail);
      if body[0] == Label(name) {
        assert Folded(body)[0] == Label(name);
      } else {
        FromSkipsAny(head, tail, name);
      }
    }
  }

  lemma FromSkipsAny(head: Body, tail: Body, name: string)
    requires |head| <= 1 && (head != [] ==> head[0] != Label(name))
    ensures From(head + tail, name) == From(tail, name)
  {
    if head == [] { assert head + tail == tail; } else { assert (head + tail)[1..] == tail; }
  }

  lemma ConstantHolds(m: Machine, s: Store, i: Instruction)
    requires i.BranchFalse? && ConstantTruth(i).Some?
    ensures Holds(m, s, i) == ConstantTruth(i).value
  {
  }

  /** One instruction and its folded form do the same, if what follows does. */
  lemma FoldOneSame(m: Machine, body: Body, body': Body, i: Instruction, rest: Body, rest': Body, s: Store, trace: seq<Event>, fuel: nat)
    requires i.BranchFalse? && ConstantTruth(i).Some?
    requires Eval(m, body', rest', s, trace, fuel) == Eval(m, body, rest, s, trace, fuel)
    requires Transfer(m, body', i.target, s, trace, fuel) == Transfer(m, body, i.target, s, trace, fuel)
    ensures Eval(m, body', FoldOne(i) + rest', s, trace, fuel) == Eval(m, body, [i] + rest, s, trace, fuel)
  {
    ConstantHolds(m, s, i);
    EvalBranch(m, body, i, rest, s, trace, fuel);
    EvalJump(m, body', i.target, rest', s, trace, fuel);
    assert [] + rest' == rest';
    hide Eval, Transfer, ConstantTruth, Holds;
  }

  lemma FoldedNone(m: Machine, body: Body, s: Store, trace: seq<Event>, fuel: nat)
    ensures Eval(m, Folded(body), Folded([]), s, trace, fuel) == Eval(m, body, [], s, trace, fuel)
  {
  }

  lemma FoldOneIs(i: Instruction)
    ensures !i.BranchFalse? || ConstantTruth(i).None? ==> FoldOne(i) == [i]
  {
  }

  lemma {:induction false} FoldedTransfer(m: Machine, body: Body, target: string, s: Store, trace: seq<Event>, fuel: nat)
    ensures Transfer(m, Folded(body), target, s, trace, fuel) == Transfer(m, body, target, s, trace, fuel)
    decreases fuel, 0
  {
    hide Eval, Transfer, Folded, From;
    TransferIs(m, body, target, s, trace, fuel);
    TransferIs(m, Folded(body), target, s, trace, fuel);
    FoldedFrom(body, target);
    if fuel > 0 { FoldedSame(m, body, From(body, target), s, trace, fuel - 1); }
  }

  /** Folding changes nothing, not even the fuel used. */
  lemma {:induction false} FoldedSame(m: Machine, body: Body, rest: Body, s: Store, trace: seq<Event>, fuel: nat)
    ensures Eval(m, Folded(body), Folded(rest), s, trace, fuel) == Eval(m, body, rest, s, trace, fuel)
    decreases fuel, |rest| + 1
  {
    hide Eval, Transfer, Effect, Calls, Folded, Holds, From, FoldOne, ConstantTruth;
    if rest == [] {
      FoldedNone(m, body, s, trace, fuel);
    } else {
      var i, tail := rest[0], rest[1..];
      assert rest == [i] + tail;
      FoldedCons(i, tail);
      FoldOneIs(i);
      var body' := Folded(body);
      if Branches(i) {
        FoldedTransfer(m, body, i.target, s, trace, fuel);
        if i.BranchFalse? {
          FoldedSame(m, body, tail, s, trace, fuel);
          if ConstantTruth(i).Some? {
            FoldOneSame(m, body, body', i, tail, Folded(tail), s, trace, fuel);
          } else {
            EvalBranch(m, body, i, tail, s, trace, fuel);
            EvalBranch(m, body', i, Folded(tail), s, trace, fuel);
          }
        } else {
          EvalJump(m, body, i.target, tail, s, trace, fuel);
          EvalJump(m, body', i.target, Folded(tail), s, trace, fuel);
        }
      } else if IsTerminator(i) {
        EvalExit(m, body, body', i, tail, Folded(tail), s, trace, fuel);
      } else {
        FoldedSame(m, body, tail, Effect(m, i, s, trace), Calls(m, i, s, trace), fuel);
        EvalPlain(m, body, i, tail, s, trace, fuel);
        EvalPlain(m, body', i, Folded(tail), s, trace, fuel);
      }
    }
  }

  // ----- 5. Unreachable code -----

  predicate Unconditional(i: Instruction) { i.Jump? || i.Return? || i.TailCall? }

  /** After an unconditional transfer only loop markers are kept, up to the next label. */
  function Pruned(code: Body, skipping: bool): Body {
    if code == [] then []
    else
      var i := code[0];
      if i.Label? then [i] + Pruned(code[1..], false)
      else if skipping then (if i.LoopBoundary? then [i] else []) + Pruned(code[1..], true)
      else [i] + Pruned(code[1..], Unconditional(i))
  }

  lemma PrunedEnds(body: Body)
    ensures [] + Pruned(body[0..], false) == Pruned(body, false) && forall skipping :: Pruned([], skipping) == []
  {
    assert body[0..] == body;
  }

  lemma UnconditionalIs(i: Instruction)
    ensures Unconditional(i) == (i.Jump? || i.Return? || i.TailCall?)
  {
  }

  method EliminateUnreachableCode(body: Body) returns (result: Body)
    ensures result == Pruned(body, false)
  {
    hide *;
    result := [];
    var skipping := false;
    PrunedEnds(body);
    for index := 0 to |body|
      invariant result + Pruned(body[index..], skipping) == Pruned(body, false)
    {
      var i, rest := body[index], body[index + 1..];
      assert body[index..] == [i] + rest;
      PrunedCons(i, rest, skipping);
      UnconditionalIs(i);
      Associative(result, [i], Pruned(rest, false));
      Associative(result, [i], Pruned(rest, true));
      assert [] + Pruned(rest, true) == Pruned(rest, true);
      if i.Label? {
        skipping := false;
        result := result + [i];
      } else if skipping {
        if i.LoopBoundary? { result := result + [i]; }
      } else {
        result := result + [i];
        if i.Jump? || i.Return? || i.TailCall? { skipping := true; }
      }
    }
    assert body[|body|..] == [];
  }

  lemma PrunedCons(i: Instruction, rest: Body, skipping: bool)
    ensures Pruned([i] + rest, skipping) ==
      if i.Label? then [i] + Pruned(rest, false)
      else if skipping then (if i.LoopBoundary? then [i] else []) + Pruned(rest, true)
      else [i] + Pruned(rest, Unconditional(i))
  {
    assert ([i] + rest)[1..] == rest;
  }

  lemma {:induction false} PrunedFrom(body: Body, skipping: bool, name: string)
    ensures From(Pruned(body, skipping), name) == Pruned(From(body, name), false)
    ensures Labels(Pruned(body, skipping)) == Labels(body)
    decreases |body|
  {
    if body != [] {
      var i, rest := body[0], body[1..];
      assert body == [i] + rest;
      PrunedCons(i, rest, skipping);
      PrunedFrom(rest, false, name);
      PrunedFrom(rest, true, name);
      if i == Label(name) {
        assert From(body, name) == body;
        PrunedCons(i, rest, false);
        assert From([i] + Pruned(rest, false), name) == [i] + Pruned(rest, false);
      } else {
        FromSkipsAny([i], Pruned(rest, false), name);
        FromSkipsAny([i], Pruned(rest, true), name);
        assert [] + Pruned(rest, true) == Pruned(rest, true);
        FromStep(body, name);
      }
      LabelsSplit([i], Pruned(rest, false));
      LabelsSplit([i], Pruned(rest, true));
      hide Pruned, From;
    }
  }

  lemma PrunedNone(m: Machine, body: Body, s: Store, trace: seq<Event>, fuel: nat)
    ensures Eval(m, Pruned(body, false), Pruned([], false), s, trace, fuel) == Eval(m, body, [], s, trace, fuel)
  {
  }

  lemma {:induction false} PrunedTransfer(m: Machine, body: Body, target: string, s: Store, trace: seq<Event>, fuel: nat)
    ensures Transfer(m, Pruned(body, false), target, s, trace, fuel) == Transfer(m, body, target, s, trace, fuel)
    decreases fuel, 0
  {
    hide Eval, Transfer, Pruned, From;
    TransferIs(m, body, target, s, trace, fuel);
    TransferIs(m, Pruned(body, false), target, s, trace, fuel);
    PrunedFrom(body, false, target);
    if fuel > 0 { PrunedSame(m, body, From(body, target), s, trace, fuel - 1); }
  }

  /** Code that cannot be reached plays no part in a run. */
  lemma {:induction false} PrunedSame(m: Machine, body: Body, rest: Body, s: Store, trace: seq<Event>, fuel: nat)
    ensures Eval(m, Pruned(body, false), Pruned(rest, false), s, trace, fuel) == Eval(m, body, rest, s, trace, fuel)
    decreases fuel, |rest| + 1
  {
    hide Eval, Transfer, Effect, Calls, Pruned, Holds, From, Unconditional;
    if rest == [] {
      PrunedNone(m, body, s, trace, fuel);
    } else {
      var i, tail := rest[0], rest[1..];
      assert rest == [i] + tail;
      PrunedCons(i, tail, false);
      UnconditionalIs(i);
      var body' := Pruned(body, false);
      var tail' := Pruned(tail, Unconditional(i));
      if Branches(i) {
        PrunedTransfer(m, body, i.target, s, trace, fuel);
        if i.BranchFalse? {
          PrunedSame(m, body, tail, s, trace, fuel);
          EvalBranch(m, body, i, tail, s, trace, fuel);
          EvalBranch(m, body', i, tail', s, trace, fuel);
        } else {
          EvalJump(m, body, i.target, tail, s, trace, fuel);
          EvalJump(m, body', i.target, tail', s, trace, fuel);
        }
      } else if IsTerminator(i) {
        EvalExit(m, body, body', i, tail, tail', s, trace, fuel);
      } else {
        PrunedSame(m, body, tail, Effect(m, i, s, trace), Calls(m, i, s, trace), fuel);
        EvalPlain(m, body, i, tail, s, trace, fuel);
        EvalPlain(m, body', i, tail', s, trace, fuel);
      }
    }
  }

  // ----- 6. Dead labels -----

  /** The labels that some branch names. */
  function Referenced(body: Body): set<string> {
    set i | 0 <= i < |body| && Branches(body[i]) :: body[i].target
  }

  predicate KeptBy(referenced: set<string>, i: Instruction) { i.Label? ==> i.name in referenced }

  function Unlabelled(code: Body, referenced: set<string>): Body {
    if code == [] then []
    else (if KeptBy(referenced, code[0]) then [code[0]] else []) + Unlabelled(code[1..], referenced)
  }

  lemma UnlabelledEnds(body: Body, referenced: set<string>)
    ensures [] + Unlabelled(body[0..], referenced) == Unlabelled(body, referenced) && Unlabelled([], referenced) == []
  {
    assert body[0..] == body;
  }

  method EliminateDeadLabels(body: Body) returns (result: Body)
    ensures result == Unlabelled(body, Referenced(body))
  {
    hide *;
    var referenced := Referenced(body);
    result := [];
    UnlabelledEnds(body, referenced);
    for index := 0 to |body|
      invariant result + Unlabelled(body[index..], referenced) == Unlabelled(body, referenced)
    {
      var i, rest := body[index], body[index + 1..];
      assert body[index..] == [i] + rest;
      UnlabelledCons(i, rest, referenced);
      Associative(result, [i], Unlabelled(rest, referenced));
      assert [] + Unlabelled(rest, referenced) == Unlabelled(rest, referenced);
      if KeptBy(referenced, i) { result := result + [i]; }
    }
    assert body[|body|..] == [];
  }

  lemma UnlabelledCons(i: Instruction, rest: Body, referenced: set<string>)
    ensures Unlabelled([i] + rest, referenced) == (if KeptBy(referenced, i) then [i] else []) + Unlabelled(rest, referenced)
  {
    assert ([i] + rest)[1..] == rest;
  }

  lemma {:induction false} UnlabelledFrom(body: Body, referenced: set<string>, name: string)
    requires name in referenced
    ensures From(Unlabelled(body, referenced), name) == Unlabelled(From(body, name), referenced)
  {
    if body != [] {
      var i, rest := body[0], body[1..];
      assert body == [i] + rest;
      UnlabelledCons(i, rest, referenced);
      UnlabelledFrom(rest, referenced, name);
      if i != Label(name) {
        FromSkipsAny(if KeptBy(referenced, i) then [i] else [], Unlabelled(rest, referenced), name);
        FromStep(body, name);
      } else {
        assert From([i] + Unlabelled(rest, referenced), name) == [i] + Unlabelled(rest, referenced);
      }
    }
  }

  ghost predicate TargetsIn(code: Body, referenced: set<string>) {
    forall i :: 0 <= i < |code| && Branches(code[i]) ==> code[i].target in referenced
  }

  lemma UnlabelledNone(m: Machine, body: Body, referenced: set<string>, s: Store, trace: seq<Event>, fuel: nat)
    ensures Eval(m, Unlabelled(body, referenced), Unlabelled([], referenced), s, trace, fuel) == Eval(m, body, [], s, trace, fuel)
  {
  }

  lemma TargetsInTail(code: Body, referenced: set<string>)
    requires TargetsIn(code, referenced) && code != []
    ensures TargetsIn(code[1..], referenced) && (Branches(code[0]) ==> code[0].target in referenced)
  {
  }

  lemma KeptByIs(referenced: set<string>, i: Instruction)
    ensures !i.Label? ==> KeptBy(referenced, i)
  {
  }

  lemma LabelEffect(m: Machine, i: Instruction, s: Store, trace: seq<Event>)
    requires i.Label?
    ensures Effect(m, i, s, trace) == s && Calls(m, i, s, trace) == trace
  {
  }

  lemma {:induction false} UnlabelledTransfer(m: Machine, body: Body, referenced: set<string>, target: string, s: Store, trace: seq<Event>, fuel: nat)
    requires TargetsIn(body, referenced) && target in referenced
    ensures Transfer(m, Unlabelled(body, referenced), target, s, trace, fuel) == Transfer(m, body, target, s, trace, fuel)
    decreases fuel, 0
  {
    hide Eval, Transfer, Unlabelled;
    TransferIs(m, body, target, s, trace, fuel);
    TransferIs(m, Unlabelled(body, referenced), target, s, trace, fuel);
    UnlabelledFrom(body, referenced, target);
    assert TargetsIn(From(body, target), referenced);
    if fuel > 0 { UnlabelledSame(m, body, referenced, From(body, target), s, trace, fuel - 1); }
  }

  /** A label that no branch names is only passed through. */
  lemma {:induction false} UnlabelledSame(m: Machine, body: Body, referenced: set<string>, rest: Body, s: Store, trace: seq<Event>, fuel: nat)
    requires TargetsIn(body, referenced) && TargetsIn(rest, referenced)
    ensures Eval(m, Unlabelled(body, referenced), Unlabelled(rest, referenced), s, trace, fuel) == Eval(m, body, rest, s, trace, fuel)
    decreases fuel, |rest| + 1
  {
    hide Eval, Transfer, Effect, Calls, Unlabelled, Holds, From, TargetsIn, KeptBy;
    if rest == [] {
      UnlabelledNone(m, body, referenced, s, trace, fuel);
    } else {
      var i, tail := rest[0], rest[1..];
      assert rest == [i] + tail;
      UnlabelledCons(i, tail, referenced);
      TargetsInTail(rest, referenced);
      KeptByIs(referenced, i);
      var body' := Unlabelled(body, referenced);
      var tail' := Unlabelled(tail, referenced);
      if Branches(i) {
        UnlabelledTransfer(m, body, referenced, i.target, s, trace, fuel);
        if i.BranchFalse? {
          UnlabelledSame(m, body, referenced, tail, s, trace, fuel);
          EvalBranch(m, body, i, tail, s, trace, fuel);
          EvalBranch(m, body', i, tail', s, trace, fuel);
        } else {
          EvalJump(m, body, i.target, tail, s, trace, fuel);
          EvalJump(m, body', i.target, tail', s, trace, fuel);
        }
      } else if IsTerminator(i) {
        EvalExit(m, body, body', i, tail, tail', s, trace, fuel);
      } else {
        UnlabelledSame(m, body, referenced, tail, Effect(m, i, s, trace), Calls(m, i, s, trace), fuel);
        EvalPlain(m, body, i, tail, s, trace, fuel);
        if KeptBy(referenced, i) {
          EvalPlain(m, body', i, tail', s, trace, fuel);
        } else {
          LabelEffect(m, i, s, trace);
          assert [] + tail' == tail';
        }
      }
    }
  }

  // ----- Runs that use different fuel -----

  lemma TransferGrows(m: Machine, body: Body, target: string, s: Store, trace: seq<Event>, fuel: nat)
    ensures trace <= Transfer(m, body, target, s, trace, fuel).trace
  {
    if fuel > 0 { TraceGrows(m, body, From(body, target), s, trace, fuel - 1); }
  }

  /** A transfer in one body is matched by the same transfer in the other. */
  lemma TransferMatches(m: Machine, a: Body, b: Body, target: string, s: Store, trace: seq<Event>, f: nat, g: nat)
    requires f > 0 ==> g > 0 && Extends(Eval(m, a, From(a, target), s, trace, f - 1), Eval(m, b, From(b, target), s, trace, g - 1))
    ensures Extends(Transfer(m, a, target, s, trace, f), Transfer(m, b, target, s, trace, g))
  {
    TransferIs(m, a, target, s, trace, f);
    TransferIs(m, b, target, s, trace, g);
    TransferGrows(m, b, target, s, trace, g);
    hide Eval, From, Transfer;
  }

  /** One instruction shared by both bodies: what follows decides. */
  lemma StepMatches(m: Machine, a: Body, b: Body, i: Instruction, t: Body, u: Body, s: Store, trace: seq<Event>, f: nat, g: nat)
    requires i.Jump? || (i.BranchFalse? && !Holds(m, s, i)) ==>
      Extends(Transfer(m, a, i.target, s, trace, f), Transfer(m, b, i.target, s, trace, g))
    requires !IsTerminator(i) ==>
      Extends(Eval(m, a, t, Effect(m, i, s, trace), Calls(m, i, s, trace), f), Eval(m, b, u, Effect(m, i, s, trace), Calls(m, i, s, trace), g))
    requires i.BranchFalse? && Holds(m, s, i) ==> Extends(Eval(m, a, t, s, trace, f), Eval(m, b, u, s, trace, g))
    ensures Extends(Eval(m, a, [i] + t, s, trace, f), Eval(m, b, [i] + u, s, trace, g))
  {
    if i.Jump? {
      EvalJump(m, a, i.target, t, s, trace, f);
      EvalJump(m, b, i.target, u, s, trace, g);
    } else if i.BranchFalse? {
      EvalBranch(m, a, i, t, s, trace, f);
      EvalBranch(m, b, i, u, s, trace, g);
    } else if IsTerminator(i) {
      EvalExit(m, a, b, i, t, u, s, trace, f);
      EvalExit(m, b, b, i, u, u, s, trace, g);
      ExitAnyFuel(m, b, i, u, s, trace, f, g);
    } else {
      EvalPlain(m, a, i, t, s, trace, f);
      EvalPlain(m, b, i, u, s, trace, g);
    }
    hide Eval, Transfer, Effect, Calls, Holds;
  }

  lemma ExitAnyFuel(m: Machine, body: Body, i: Instruction, rest: Body, s: Store, trace: seq<Event>, f: nat, g: nat)
    requires i.Return? || i.TailCall?
    ensures Eval(m, body, [i] + rest, s, trace, f) == Eval(m, body, [i] + rest, s, trace, g)
  {
  }

  /** One body jumps to a label that the other simply runs into. */
  lemma RunsInto(m: Machine, a: Body, b: Body, name: string, code: Body, s: Store, trace: seq<Event>, fuel: nat)
    requires fuel > 0 ==> Extends(Eval(m, a, From(a, name), s, trace, fuel - 1), Eval(m, b, code, s, trace, fuel - 1))
    ensures Extends(Transfer(m, a, name, s, trace, fuel), Eval(m, b, code, s, trace, fuel))
  {
    TransferIs(m, a, name, s, trace, fuel);
    TraceGrows(m, b, code, s, trace, fuel);
    if fuel > 0 {
      MoreFuel(m, b, code, s, trace, fuel - 1, fuel);
      ExtendsTransitive(Eval(m, a, From(a, name), s, trace, fuel - 1), Eval(m, b, code, s, trace, fuel - 1), Eval(m, b, code, s, trace, fuel));
    }
    hide Eval, From, Transfer;
  }

  // ----- 4. Jumps to the next label -----

  /** The code starts with a jump to the label that comes next. */
  predicate JumpsToNext(code: Body) {
    code != [] && code[0].Jump? &&
    var n := 1 + Lead(code[1..]);
    n < |code| && code[n] == Label(code[0].target)
  }

  function Collapsed(code: Body): Body
    decreases |code|
  {
    if code == [] then []
    else if JumpsToNext(code) then
      var n := 1 + Lead(code[1..]);
      code[1..n] + Collapsed(code[n..])
    else [code[0]] + Collapsed(code[1..])
  }

  lemma CollapsedEnds(body: Body)
    ensures [] + Collapsed(body[0..]) == Collapsed(body) && Collapsed([]) == []
  {
    assert body[0..] == body;
  }

  method CollapseJumpToNextLabel(body: Body) returns (result: Body)
    ensures result == Collapsed(body)
  {
    hide *;
    result := [];
    var index := 0;
    CollapsedEnds(body);
    while index < |body|
      invariant 0 <= index <= |body|
      invariant result + Collapsed(body[index..]) == Collapsed(body)
    {
      var next := index + 1 + Lead(body[index + 1..]);
      CollapsedAt(body, index, next);
      if body[index].Jump? && next < |body| && body[next] == Label(body[index].target) {
        Associative(result, body[index + 1..next], Collapsed(body[next..]));
        result := result + body[index + 1..next];
        index := next;
      } else {
        Associative(result, [body[index]], Collapsed(body[index + 1..]));
        result := result + [body[index]];
        index := index + 1;
      }
    }
    assert body[index..] == [];
  }

  lemma CollapsedAt(body: Body, index: nat, next: nat)
    requires index < |body| && next == index + 1 + Lead(body[index + 1..])
    ensures JumpsToNext(body[index..]) <==> body[index].Jump? && next < |body| && body[next] == Label(body[index].target)
    ensures Collapsed(body[index..]) ==
      if JumpsToNext(body[index..]) then body[index + 1..next] + Collapsed(body[next..])
      else [body[index]] + Collapsed(body[index + 1..])
  {
    var code := body[index..];
    assert code[0] == body[index] && code[1..] == body[index + 1..];
    assert code[1..next - index] == body[index + 1..next] && code[next - index..] == body[next..];
  }

  lemma {:induction false} CollapsedFrom(body: Body, name: string)
    ensures From(Collapsed(body), name) == Collapsed(From(body, name))
    ensures Labels(Collapsed(body)) == Labels(body)
    decreases |body|
  {
    if body == [] {
    } else if JumpsToNext(body) {
      var n := 1 + Lead(body[1..]);
      CollapsedFrom(body[n..], name);
      CollapsedSkip(body, n, name);
    } else {
      CollapsedFrom(body[1..], name);
      var head, tail := [body[0]], Collapsed(body[1..]);
      assert body == head + body[1..];
      LabelsSplit(head, tail);
      LabelsSplit(head, body[1..]);
      if body[0] != Label(name) {
        FromSkipsAny(head, tail, name);
        FromSkipsAny(head, body[1..], name);
      } else {
        assert From(head + tail, name) == head + tail;
      }
      hide Labels, Collapsed;
    }
  }

  lemma CollapsedSkip(body: Body, n: int, name: string)
    requires JumpsToNext(body) && n == 1 + Lead(body[1..])
    ensures From(body, name) == From(body[n..], name)
    ensures From(Collapsed(body), name) == From(Collapsed(body[n..]), name)
    ensures Labels(body) == Labels(body[n..])
    ensures Labels(Collapsed(body)) == Labels(Collapsed(body[n..]))
  {
    var head, kept := body[..n], body[1..n];
    assert body == head + body[n..];
    assert forall i :: 0 <= i < n ==> !head[i].Label? by {
      forall i | 0 <= i < n ensures !head[i].Label? {
        if i > 0 { assert body[1..][i - 1] == body[i]; }
      }
    }
    assert forall i :: 0 <= i < |kept| ==> !kept[i].Label? by {
      forall i | 0 <= i < |kept| ensures !kept[i].Label? { assert kept[i] == head[i + 1]; }
    }
    assert Collapsed(body) == kept + Collapsed(body[n..]);
    hide Collapsed, JumpsToNext, From, Labels;
    FromSkips(head, body[n..], name);
    FromSkips(kept, Collapsed(body[n..]), name);
    MarkersHaveNoLabels(head);
    MarkersHaveNoLabels(kept);
    LabelsSplit(head, body[n..]);
    LabelsSplit(kept, Collapsed(body[n..]));
    assert [] + Labels(body[n..]) == Labels(body[n..]);
    assert [] + Labels(Collapsed(body[n..])) == Labels(Collapsed(body[n..]));
  }

  /** What a collapsed jump leaves behind. */
  lemma CollapsedJumpShape(body: Body, k: nat) returns (q: nat, marks: Body)
    requires DistinctNames(Labels(body)) && k < |body| && JumpsToNext(body[k..])
    ensures k < q < |body| && body[k].Jump? && From(body, body[k].target) == body[q..]
    ensures (forall i :: 0 <= i < |marks| ==> marks[i].LoopBoundary?) && Collapsed(body[k..]) == marks + Collapsed(body[q..])
  {
    var code := body[k..];
    var n := 1 + Lead(code[1..]);
    q := k + n;
    assert code[n] == body[q] && code[n..] == body[q..] && code[0] == body[k];
    FromHere(body, q);
    marks := code[1..n];
    forall i | 0 <= i < |marks| ensures marks[i].LoopBoundary? { assert marks[i] == code[1..][i]; }
  }

  /** What a collapsed jump turns into. */
  lemma CollapsedJump(m: Machine, body: Body, k: nat, s: Store, trace: seq<Event>, fuel: nat) returns (q: nat)
    requires DistinctNames(Labels(body)) && k < |body| && JumpsToNext(body[k..])
    ensures k < q < |body| && body[k].Jump? && From(body, body[k].target) == body[q..]
    ensures Eval(m, Collapsed(body), Collapsed(body[k..]), s, trace, fuel) == Eval(m, Collapsed(body), Collapsed(body[q..]), s, trace, fuel)
  {
    hide *;
    var marks;
    q, marks := CollapsedJumpShape(body, k);
    MarkersDoNothing(m, Collapsed(body), marks, Collapsed(body[q..]), s, trace, fuel);
  }

  lemma CollapsedEnd(m: Machine, a: Body, b: Body, s: Store, trace: seq<Event>, f: nat, g: nat)
    ensures Collapsed([]) == [] && Eval(m, a, [], s, trace, f) == Eval(m, b, [], s, trace, g)
  {
  }

  lemma CollapsedCons(code: Body)
    requires code != [] && !JumpsToNext(code)
    ensures Collapsed(code) == [code[0]] + Collapsed(code[1..])
  {
  }

  /** Dropping the jump never loses anything: the same fuel goes at least as far. */
  lemma {:induction false} CollapsedForward(m: Machine, body: Body, k: nat, s: Store, trace: seq<Event>, fuel: nat)
    requires DistinctNames(Labels(body)) && k <= |body|
    ensures Extends(Eval(m, body, body[k..], s, trace, fuel), Eval(m, Collapsed(body), Collapsed(body[k..]), s, trace, fuel))
    decreases fuel, |body| - k
  {
    hide Eval, Transfer, Collapsed, Holds, Effect, Calls, Labels, DistinctNames, JumpsToNext, LabelIndex;
    if k == |body| { assert body[k..] == []; CollapsedEnd(m, body, Collapsed(body), s, trace, fuel, fuel); return; }
    var body' := Collapsed(body);
    var i, tail := body[k], body[k + 1..];
    assert body[k..] == [i] + tail && body[k..][1..] == tail;
    if JumpsToNext(body[k..]) {
      var q := CollapsedJump(m, body, k, s, trace, fuel);
      if fuel > 0 { CollapsedForward(m, body, q, s, trace, fuel - 1); }
      EvalJump(m, body, i.target, tail, s, trace, fuel);
      RunsInto(m, body, body', i.target, Collapsed(body[q..]), s, trace, fuel);
    } else {
      CollapsedCons(body[k..]);
      if Branches(i) {
        CollapsedFrom(body, i.target);
        if fuel > 0 { CollapsedForward(m, body, LabelIndex(body, i.target), s, trace, fuel - 1); }
        TransferMatches(m, body, body', i.target, s, trace, fuel, fuel);
        CollapsedForward(m, body, k + 1, s, trace, fuel);
      } else if !IsTerminator(i) {
        CollapsedForward(m, body, k + 1, Effect(m, i, s, trace), Calls(m, i, s, trace), fuel);
      }
      StepMatches(m, body, body', i, tail, Collapsed(tail), s, trace, fuel, fuel);
    }
  }

  /** And it adds nothing: with enough fuel the original does the same. */
  lemma {:induction false} CollapsedBackward(m: Machine, body: Body, k: nat, s: Store, trace: seq<Event>, fuel: nat) returns (f: nat)
    requires DistinctNames(Labels(body)) && k <= |body|
    ensures Extends(Eval(m, Collapsed(body), Collapsed(body[k..]), s, trace, fuel), Eval(m, body, body[k..], s, trace, f))
    decreases fuel, |body| - k
  {
    hide Eval, Transfer, Collapsed, Holds, Effect, Calls, Labels, DistinctNames, JumpsToNext, LabelIndex;
    f := 0;
    if k == |body| { assert body[k..] == []; CollapsedEnd(m, Collapsed(body), body, s, trace, fuel, f); return; }
    var body' := Collapsed(body);
    var i, tail := body[k], body[k + 1..];
    assert body[k..] == [i] + tail && body[k..][1..] == tail;
    if JumpsToNext(body[k..]) {
      var q := CollapsedJump(m, body, k, s, trace, fuel);
      f := CollapsedBackward(m, body, q, s, trace, fuel);
      f := f + 1;
      EvalJump(m, body, i.target, tail, s, trace, f);
      TransferIs(m, body, i.target, s, trace, f);
    } else {
      CollapsedCons(body[k..]);
      if i.Jump? || (i.BranchFalse? && !Holds(m, s, i)) {
        CollapsedFrom(body, i.target);
        if fuel > 0 {
          f := CollapsedBackward(m, body, LabelIndex(body, i.target), s, trace, fuel - 1);
          f := f + 1;
        }
        TransferMatches(m, body', body, i.target, s, trace, fuel, f);
      } else if i.BranchFalse? {
        f := CollapsedBackward(m, body, k + 1, s, trace, fuel);
      } else if !IsTerminator(i) {
        f := CollapsedBackward(m, body, k + 1, Effect(m, i, s, trace), Calls(m, i, s, trace), fuel);
      }
      StepMatches(m, body', body, i, Collapsed(tail), tail, s, trace, fuel, f);
    }
  }

  // ----- 3. Branches over jumps -----

  function Inverse(operation: string): Option<string> {
    if operation == "!=" then Some("==")
    else if operation == "<" then Some(">=")
    else if operation == "<=" then Some(">")
    else if operation == "==" then Some("!=")
    else if operation == ">" then Some("<=")
    else if operation == ">=" then Some("<")
    else None
  }

  lemma InverseNegates(m: Machine, operation: string, l: int, r: int)
    requires Inverse(operation).Some?
    ensures Compare(m, Inverse(operation).value, l, r) == !Compare(m, operation, l, r)
  {
  }

  predicate Invertible(i: Instruction) {
    i.BranchFalse? && Inverse(i.operation).Some?
  }

  function InvertBranch(i: Instruction, target: string): Instruction
    requires Invertible(i)
  {
    BranchFalse(i.left, Inverse(i.operation).value, i.right, target)
  }

  /** Where the jump is, if the code starts with a branch around it. */
  function OverJump(code: Body): (r: Option<nat>)
    ensures r.Some? ==> 1 <= r.value < |code| && Invertible(code[0]) && code[r.value].Jump?
  {
    if code == [] || !Invertible(code[0]) then None
    else
      var j := 1 + Lead(code[1..]);
      if j >= |code| || !code[j].Jump? then None
      else
        var k := j + 1 + Lead(code[j + 1..]);
        if k < |code| && code[k] == Label(code[0].target) then Some(j) else None
  }

  function Inverted(code: Body): Body
    decreases |code|
  {
    if code == [] then []
    else match OverJump(code)
      case Some(j) => [InvertBranch(code[0], code[j].target)] + code[1..j] + Inverted(code[j + 1..])
      case None => [code[0]] + Inverted(code[1..])
  }

  lemma OverJumpAt(body: Body, index: nat, j: nat)
    requires index < |body| && j == index + 1 + Lead(body[index + 1..])
    ensures OverJump(body[index..]) ==
      if Invertible(body[index]) && j < |body| && body[j].Jump?
         && j + 1 + Lead(body[j + 1..]) < |body| && body[j + 1 + Lead(body[j + 1..])] == Label(body[index].target)
      then Some(j - index) else None
  {
    hide Invertible;
    var code := body[index..];
    assert code[0] == body[index] && code[1..] == body[index + 1..];
    if j < |body| { assert code[j - index + 1..] == body[j + 1..]; }
  }

  lemma InvertedSome(body: Body, index: nat, j: nat)
    requires index < j < |body| && OverJump(body[index..]) == Some(j - index)
    ensures Invertible(body[index]) && body[j].Jump?
    ensures Inverted(body[index..]) == [InvertBranch(body[index], body[j].target)] + body[index + 1..j] + Inverted(body[j + 1..])
  {
    hide OverJump, InvertBranch, Invertible;
    var code := body[index..];
    assert code[0] == body[index] && code[1..j - index] == body[index + 1..j] && code[j - index + 1..] == body[j + 1..];
  }

  lemma InvertedNone(body: Body, index: nat)
    requires index < |body| && OverJump(body[index..]).None?
    ensures Inverted(body[index..]) == [body[index]] + Inverted(body[index + 1..])
  {
    hide OverJump, InvertBranch, Invertible;
    var code := body[index..];
    assert code[0] == body[index] && code[1..] == body[index + 1..];
  }

  lemma InvertibleBranches(i: Instruction)
    ensures Invertible(i) ==> i.BranchFalse?
  {
  }

  method InvertBranchOverJump(body: Body) returns (result: Body)
    ensures result == Inverted(body)
  {
    hide *;
    result := [];
    var index := 0;
    assert body[0..] == body && [] + Inverted(body) == Inverted(body);
    while index < |body|
      invariant 0 <= index <= |body|
      invariant result + Inverted(body[index..]) == Inverted(body)
    {
      var j := index + 1 + Lead(body[index + 1..]);
      OverJumpAt(body, index, j);
      InvertibleBranches(body[index]);
      if Invertible(body[index]) && j < |body| && body[j].Jump?
        && j + 1 + Lead(body[j + 1..]) < |body| && body[j + 1 + Lead(body[j + 1..])] == Label(body[index].target)
      {
        InvertedSome(body, index, j);
        var head := [InvertBranch(body[index], body[j].target)] + body[index + 1..j];
        Associative(result, head, Inverted(body[j + 1..]));
        result := result + head;
        index := j + 1;
      } else {
        InvertedNone(body, index);
        Associative(result, [body[index]], Inverted(body[index + 1..]));
        result := result + [body[index]];
        index := index + 1;
      }
    }
    assert body[index..] == [];
    InvertedEmpty();
  }

  /** What stands between the branch and its label: markers, the jump, markers. */
  lemma OverJumpShape(code: Body)
    requires OverJump(code).Some?
    ensures var j := OverJump(code).value;
      && (forall i :: 1 <= i < j ==> code[i].LoopBoundary?)
      && (forall i :: 0 <= i <= j ==> !code[i].Label?)
  {
    var j := OverJump(code).value;
    forall i | 1 <= i < j ensures code[i].LoopBoundary? { assert code[1..][i - 1] == code[i]; }
  }

  lemma InvertedEmpty()
    ensures Inverted([]) == []
  {
  }

  /** Where a branch and a jump become one branch. */
  lemma InvertedFromBranch(body: Body, name: string)
    requires body != [] && OverJump(body).Some?
    requires var t := body[OverJump(body).value + 1..]; From(Inverted(t), name) == Inverted(From(t, name)) && Labels(Inverted(t)) == Labels(t)
    ensures From(Inverted(body), name) == Inverted(From(body, name)) && Labels(Inverted(body)) == Labels(body)
  {
    hide *;
    var j := OverJump(body).value;
    OverJumpShape(body);
    assert body[0..] == body;
    InvertedSome(body, 0, j);
    InvertBranchIs(body[0], body[j].target);
    var head := [InvertBranch(body[0], body[j].target)] + body[1..j];
    forall i | 0 <= i < |head| ensures !head[i].Label? { if i > 0 { assert head[i] == body[i]; } }
    assert body[1..j] == body[0 + 1..j];
    HeadsHaveNoLabels(head, Inverted(body[j + 1..]), body[..j + 1], body[j + 1..], name);
    assert body == body[..j + 1] + body[j + 1..];
  }

  lemma {:induction false} InvertedFrom(body: Body, name: string)
    ensures From(Inverted(body), name) == Inverted(From(body, name))
    ensures Labels(Inverted(body)) == Labels(body)
    decreases |body|
  {
    hide *;
    if body == [] {
      FromEmpty(name);
      InvertedEmpty();
    } else {
      assert body[0..] == body;
      if OverJump(body).Some? {
        InvertedFrom(body[OverJump(body).value + 1..], name);
        InvertedFromBranch(body, name);
      } else {
        InvertedFrom(body[1..], name);
        InvertedNone(body, 0);
        assert body == [body[0]] + body[1..];
        SharedHead(body[0], body[1..], Inverted(body[1..]), name);
      }
    }
  }

  lemma FromEmpty(name: string)
    ensures From([], name) == []
  {
  }

  lemma InvertBranchIs(i: Instruction, target: string)
    requires Invertible(i)
    ensures InvertBranch(i, target).BranchFalse? && InvertBranch(i, target).target == target
  {
  }

  lemma HeadsHaveNoLabels(a: Body, t: Body, b: Body, u: Body, name: string)
    requires forall i :: 0 <= i < |a| ==> !a[i].Label?
    requires forall i :: 0 <= i < |b| ==> !b[i].Label?
    ensures From(a + t, name) == From(t, name) && From(b + u, name) == From(u, name)
    ensures Labels(a + t) == Labels(t) && Labels(b + u) == Labels(u)
  {
    hide From, Labels;
    FromSkips(a, t, name);
    FromSkips(b, u, name);
    LabelsSplit(a, t);
    LabelsSplit(b, u);
    MarkersHaveNoLabels(a);
    MarkersHaveNoLabels(b);
    assert [] + Labels(t) == Labels(t) && [] + Labels(u) == Labels(u);
  }

  lemma SharedHead(i: Instruction, rest: Body, rest': Body, name: string)
    ensures i != Label(name) ==> From([i] + rest', name) == From(rest', name) && From([i] + rest, name) == From(rest, name)
    ensures i == Label(name) ==> From([i] + rest', name) == [i] + rest' && From([i] + rest, name) == [i] + rest
    ensures Labels(rest') == Labels(rest) ==> Labels([i] + rest') == Labels([i] + rest)
  {
    LabelsSplit([i], rest);
    LabelsSplit([i], rest');
    if i != Label(name) {
      FromSkipsAny([i], rest, name);
      FromSkipsAny([i], rest', name);
    }
  }

  lemma MarkerStays(code: Body)
    requires code != [] && code[0].LoopBoundary?
    ensures Inverted(code) == [code[0]] + Inverted(code[1..])
  {
    assert code[0..] == code;
    InvertedNone(code, 0);
    hide Inverted;
  }

  lemma TailSlices(code: Body, n: int)
    requires 0 <= n < |code|
    ensures code[1..][n..] == code[n + 1..] && [code[0]] + code[1..][..n] == code[..n + 1]
  {
  }

  lemma LeadStep(code: Body)
    requires code != [] && code[0].LoopBoundary?
    ensures var n := Lead(code[1..]);
      && Lead(code) == n + 1 && code[1..][n..] == code[Lead(code)..]
      && [code[0]] + code[1..][..n] == code[..Lead(code)]
  {
    var tail := code[1..];
    var n := Lead(tail);
    assert Lead(code) == n + 1;
    hide Lead;
    TailSlices(code, n);
  }

  lemma LeadNone(code: Body)
    requires code == [] || !code[0].LoopBoundary?
    ensures Lead(code) == 0 && code[..0] == [] && code[0..] == code && [] + Inverted(code) == Inverted(code)
  {
    hide Inverted;
  }

  lemma {:induction false} InvertedMarkers(code: Body)
    ensures Inverted(code) == code[..Lead(code)] + Inverted(code[Lead(code)..])
    decreases |code|
  {
    hide *;
    if code != [] && code[0].LoopBoundary? {
      var tail := code[1..];
      InvertedMarkers(tail);
      MarkerStays(code);
      LeadStep(code);
      Associative([code[0]], tail[..Lead(tail)], Inverted(tail[Lead(tail)..]));
    } else {
      LeadNone(code);
    }
  }

  lemma InvertedLead(m: Machine, body: Body, code: Body, s: Store, trace: seq<Event>, fuel: nat)
    ensures Eval(m, body, Inverted(code), s, trace, fuel) == Eval(m, body, Inverted(code[Lead(code)..]), s, trace, fuel)
  {
    InvertedMarkers(code);
    hide Eval, Inverted;
    MarkersDoNothing(m, body, code[..Lead(code)], Inverted(code[Lead(code)..]), s, trace, fuel);
  }

  lemma InvertedTruth(m: Machine, s: Store, i: Instruction, target: string)
    requires Invertible(i)
    ensures Holds(m, s, InvertBranch(i, target)) == !Holds(m, s, i)
  {
    InverseNegates(m, i.operation, ValueOf(m, s, i.left), ValueOf(m, s, i.right));
    hide Compare, Inverse;
  }

  /** The original: the branch either falls into the jump or goes to its label. */
  lemma OverJumpBefore(m: Machine, body: Body, k: nat, j: nat, s: Store, trace: seq<Event>, fuel: nat)
    requires k < j < |body| && body[k].BranchFalse? && body[j].Jump?
    requires forall i :: k < i < j ==> body[i].LoopBoundary?
    ensures Eval(m, body, body[k..], s, trace, fuel) ==
      Transfer(m, body, if Holds(m, s, body[k]) then body[j].target else body[k].target, s, trace, fuel)
  {
    hide Eval, Transfer, Holds;
    var marks := body[k + 1..j];
    assert body[k..] == [body[k]] + (marks + ([body[j]] + body[j + 1..]));
    EvalBranch(m, body, body[k], marks + ([body[j]] + body[j + 1..]), s, trace, fuel);
    MarkersDoNothing(m, body, marks, [body[j]] + body[j + 1..], s, trace, fuel);
    EvalJump(m, body, body[j].target, body[j + 1..], s, trace, fuel);
  }

  /** The result: the inverted branch takes the jump or runs into the label. */
  lemma OverJumpAfter(m: Machine, body': Body, i: Instruction, target: string, marks: Body, rest: Body, s: Store, trace: seq<Event>, fuel: nat)
    requires Invertible(i) && forall n :: 0 <= n < |marks| ==> marks[n].LoopBoundary?
    ensures Eval(m, body', [InvertBranch(i, target)] + marks + Inverted(rest), s, trace, fuel) ==
      if Holds(m, s, i) then Transfer(m, body', target, s, trace, fuel) else Eval(m, body', Inverted(rest[Lead(rest)..]), s, trace, fuel)
  {
    InvertedTruth(m, s, i, target);
    InvertBranchIs(i, target);
    hide Eval, Transfer, Holds, Inverted, Invertible, InvertBranch;
    assert [InvertBranch(i, target)] + marks + Inverted(rest) == [InvertBranch(i, target)] + (marks + Inverted(rest));
    EvalBranch(m, body', InvertBranch(i, target), marks + Inverted(rest), s, trace, fuel);
    MarkersDoNothing(m, body', marks, Inverted(rest), s, trace, fuel);
    InvertedLead(m, body', rest, s, trace, fuel);
  }

  /** A branch at `k` around a jump at `j`, whose label is at `q`. */
  ghost predicate Around(body: Body, k: nat, j: nat, q: nat) {
    && k < j < q < |body| && Invertible(body[k]) && body[j].Jump?
    && (forall i :: k < i < j ==> body[i].LoopBoundary?)
    && q == j + 1 + Lead(body[j + 1..]) && body[q] == Label(body[k].target)
    && Inverted(body[k..]) == [InvertBranch(body[k], body[j].target)] + body[k + 1..j] + Inverted(body[j + 1..])
  }

  lemma FindAround(body: Body, k: nat) returns (j: nat, q: nat)
    requires k < |body| && OverJump(body[k..]).Some?
    ensures Around(body, k, j, q)
  {
    hide Inverted, Inverse;
    var code := body[k..];
    j := k + OverJump(code).value;
    OverJumpAt(body, k, k + 1 + Lead(body[k + 1..]));
    q := j + 1 + Lead(body[j + 1..]);
    OverJumpShape(code);
    hide OverJump;
    forall i | k < i < j ensures body[i].LoopBoundary? { assert body[i] == code[i - k]; }
    InvertedSome(body, k, j);
  }

  /** Both sides of an inverted branch. */
  lemma OverJumpRuns(m: Machine, body: Body, k: nat, j: nat, q: nat, s: Store, trace: seq<Event>, f: nat, g: nat)
    requires DistinctNames(Labels(body)) && Around(body, k, j, q)
    ensures From(body, body[k].target) == body[q..]
    ensures Eval(m, body, body[k..], s, trace, f) ==
      Transfer(m, body, if Holds(m, s, body[k]) then body[j].target else body[k].target, s, trace, f)
    ensures Eval(m, Inverted(body), Inverted(body[k..]), s, trace, g) ==
      if Holds(m, s, body[k]) then Transfer(m, Inverted(body), body[j].target, s, trace, g) else Eval(m, Inverted(body), Inverted(body[q..]), s, trace, g)
  {
    hide Eval, Transfer, Inverted, Labels, DistinctNames, InvertBranch, OverJump, Holds, From, Inverse;
    FromHere(body, q);
    OverJumpBefore(m, body, k, j, s, trace, f);
    var marks := body[k + 1..j];
    forall n | 0 <= n < |marks| ensures marks[n].LoopBoundary? { assert marks[n] == body[k + 1 + n]; }
    OverJumpAfter(m, Inverted(body), body[k], body[j].target, marks, body[j + 1..], s, trace, g);
    assert body[j + 1..][Lead(body[j + 1..])..] == body[q..];
  }

  lemma InvertedEnd(m: Machine, a: Body, b: Body, s: Store, trace: seq<Event>, f: nat, g: nat)
    ensures Inverted([]) == [] && Eval(m, a, [], s, trace, f) == Eval(m, b, [], s, trace, g)
  {
  }

  lemma {:induction false} InvertedForward(m: Machine, body: Body, k: nat, s: Store, trace: seq<Event>, fuel: nat)
    requires DistinctNames(Labels(body)) && k <= |body|
    ensures Extends(Eval(m, body, body[k..], s, trace, fuel), Eval(m, Inverted(body), Inverted(body[k..]), s, trace, fuel))
    decreases fuel, |body| - k
  {
    hide Eval, Transfer, Inverted, Holds, Effect, Calls, Labels, DistinctNames, OverJump, LabelIndex;
    if k == |body| { assert body[k..] == []; InvertedEnd(m, body, Inverted(body), s, trace, fuel, fuel); return; }
    var body' := Inverted(body);
    var i, tail := body[k], body[k + 1..];
    assert body[k..] == [i] + tail;
    if OverJump(body[k..]).Some? {
      var j, q := FindAround(body, k);
      OverJumpRuns(m, body, k, j, q, s, trace, fuel, fuel);
      if Holds(m, s, i) {
        var target := body[j].target;
        InvertedFrom(body, target);
        if fuel > 0 { InvertedForward(m, body, LabelIndex(body, target), s, trace, fuel - 1); }
        TransferMatches(m, body, body', target, s, trace, fuel, fuel);
      } else {
        if fuel > 0 { InvertedForward(m, body, q, s, trace, fuel - 1); }
        RunsInto(m, body, body', i.target, Inverted(body[q..]), s, trace, fuel);
      }
    } else {
      InvertedNone(body, k);
      if Branches(i) {
        InvertedFrom(body, i.target);
        if fuel > 0 { InvertedForward(m, body, LabelIndex(body, i.target), s, trace, fuel - 1); }
        TransferMatches(m, body, body', i.target, s, trace, fuel, fuel);
        InvertedForward(m, body, k + 1, s, trace, fuel);
      } else if !IsTerminator(i) {
        InvertedForward(m, body, k + 1, Effect(m, i, s, trace), Calls(m, i, s, trace), fuel);
      }
      StepMatches(m, body, body', i, tail, Inverted(tail), s, trace, fuel, fuel);
    }
  }

  lemma {:induction false} InvertedBackward(m: Machine, body: Body, k: nat, s: Store, trace: seq<Event>, fuel: nat) returns (f: nat)
    requires DistinctNames(Labels(body)) && k <= |body|
    ensures Extends(Eval(m, Inverted(body), Inverted(body[k..]), s, trace, fuel), Eval(m, body, body[k..], s, trace, f))
    decreases fuel, |body| - k
  {
    hide Eval, Transfer, Inverted, Holds, Effect, Calls, Labels, DistinctNames, OverJump, LabelIndex;
    f := 0;
    if k == |body| { assert body[k..] == []; InvertedEnd(m, Inverted(body), body, s, trace, fuel, f); return; }
    var body' := Inverted(body);
    var i, tail := body[k], body[k + 1..];
    assert body[k..] == [i] + tail;
    if OverJump(body[k..]).Some? {
      var j, q := FindAround(body, k);
      OverJumpRuns(m, body, k, j, q, s, trace, f, fuel);
      if Holds(m, s, i) {
        var target := body[j].target;
        InvertedFrom(body, target);
        if fuel > 0 {
          f := InvertedBackward(m, body, LabelIndex(body, target), s, trace, fuel - 1);
          f := f + 1;
        }
        TransferMatches(m, body', body, target, s, trace, fuel, f);
      } else {
        f := InvertedBackward(m, body, q, s, trace, fuel);
        f := f + 1;
        TransferIs(m, body, i.target, s, trace, f);
      }
      OverJumpRuns(m, body, k, j, q, s, trace, f, fuel);
    } else {
      InvertedNone(body, k);
      if i.Jump? || (i.BranchFalse? && !Holds(m, s, i)) {
        InvertedFrom(body, i.target);
        if fuel > 0 {
          f := InvertedBackward(m, body, LabelIndex(body, i.target), s, trace, fuel - 1);
          f := f + 1;
        }
        TransferMatches(m, body', body, i.target, s, trace, fuel, f);
      } else if i.BranchFalse? {
        f := InvertedBackward(m, body, k + 1, s, trace, fuel);
      } else if !IsTerminator(i) {
        f := InvertedBackward(m, body, k + 1, Effect(m, i, s, trace), Calls(m, i, s, trace), fuel);
      }
      StepMatches(m, body', body, i, Inverted(tail), tail, s, trace, fuel, f);
    }
  }

  // ----- 2. Trampolines -----

  type Trampolines = map<string, string>

  /** The label at `index` is followed by nothing but a jump elsewhere. */
  predicate TrampolineAt(body: Body, index: nat)
    requires index < |body|
  {
    body[index].Label? &&
    var next := index + 1 + Lead(body[index + 1..]);
    next < |body| && body[next].Jump? && body[next].target != body[index].name
  }

  function LandsAt(body: Body, index: nat): string
    requires index < |body| && TrampolineAt(body, index)
  {
    body[index + 1 + Lead(body[index + 1..])].target
  }

  ghost predicate Recorded(body: Body, tr: Trampolines, name: string)
    requires name in tr
  {
    exists index: nat :: index < |body| && TrampolineAt(body, index) && body[index].name == name && tr[name] == LandsAt(body, index)
  }

  /** The trampolines among the first `n` instructions; a later one of the same name
      wins. */
  function TrampolinesUpTo(body: Body, n: nat): Trampolines
    requires n <= |body|
  {
    if n == 0 then map[]
    else
      var tr := TrampolinesUpTo(body, n - 1);
      if TrampolineAt(body, n - 1) then tr[body[n - 1].name := LandsAt(body, n - 1)] else tr
  }

  function TrampolinesOf(body: Body): Trampolines { TrampolinesUpTo(body, |body|) }

  lemma {:induction false} UpToRecorded(body: Body, n: nat)
    requires n <= |body|
    ensures forall name :: name in TrampolinesUpTo(body, n) ==> Recorded(body, TrampolinesUpTo(body, n), name)
    ensures forall i: nat :: i < n && TrampolineAt(body, i) ==> body[i].name in TrampolinesUpTo(body, n)
  {
    hide TrampolineAt, LandsAt;
    if n > 0 {
      UpToRecorded(body, n - 1);
      var before, tr := TrampolinesUpTo(body, n - 1), TrampolinesUpTo(body, n);
      forall name | name in tr ensures Recorded(body, tr, name) {
        if name in before && tr[name] == before[name] { assert Recorded(body, before, name); }
      }
    }
  }

  method FindTrampolines(body: Body) returns (tr: Trampolines)
    ensures tr == TrampolinesOf(body)
    ensures forall name :: name in tr ==> Recorded(body, tr, name)
    ensures forall index: nat :: index < |body| && TrampolineAt(body, index) ==> body[index].name in tr
  {
    tr := map[];
    for index := 0 to |body|
      invariant tr == TrampolinesUpTo(body, index)
    {
      hide TrampolineAt, LandsAt;
      if TrampolineAt(body, index) {
        tr := tr[body[index].name := LandsAt(body, index)];
      }
    }
    UpToRecorded(body, |body|);
    hide TrampolineAt, LandsAt, Recorded;
  }

  /** Follows trampolines until a label that is not one, or one already seen. */
  function ResolveFrom(tr: Trampolines, current: string, seen: set<string>): string
    decreases |tr.Keys - seen|
  {
    if current in tr && current !in seen then
      (assert tr.Keys - (seen + {current}) == (tr.Keys - seen) - {current};
       ResolveFrom(tr, tr[current], seen + {current}))
    else current
  }

  function Resolve(tr: Trampolines, name: string): string { ResolveFrom(tr, name, {}) }

  method ResolveLabel(tr: Trampolines, name: string) returns (current: string)
    ensures current == Resolve(tr, name)
  {
    var seen: set<string> := {};
    current := name;
    while current in tr && current !in seen
      invariant ResolveFrom(tr, current, seen) == Resolve(tr, name)
      decreases |tr.Keys - seen|
    {
      assert tr.Keys - (seen + {current}) == (tr.Keys - seen) - {current};
      seen := seen + {current};
      current := tr[current];
    }
  }

  function Retarget(i: Instruction, tr: Trampolines): Instruction {
    if i.Jump? then Jump(Resolve(tr, i.target))
    else if i.BranchFalse? then i.(target := Resolve(tr, i.target))
    else i
  }

  function Retargeted(code: Body, tr: Trampolines): Body {
    if code == [] then [] else [Retarget(code[0], tr)] + Retargeted(code[1..], tr)
  }

  lemma RetargetedCons(i: Instruction, rest: Body, tr: Trampolines)
    ensures Retargeted([i] + rest, tr) == [Retarget(i, tr)] + Retargeted(rest, tr)
  {
    assert ([i] + rest)[1..] == rest;
  }

  method ForwardTrivialLabels(body: Body) returns (result: Body, ghost tr: Trampolines)
    ensures result == Retargeted(body, tr) && tr == TrampolinesOf(body)
    ensures forall name :: name in tr ==> Recorded(body, tr, name)
  {
    hide *;
    var found := FindTrampolines(body);
    tr := found;
    result := [];
    assert body[0..] == body && [] + Retargeted(body, tr) == Retargeted(body, tr);
    for index := 0 to |body|
      invariant result + Retargeted(body[index..], tr) == Retargeted(body, tr)
    {
      var i := body[index];
      var rest := body[index + 1..];
      assert body[index..] == [i] + rest;
      RetargetedCons(i, rest, tr);
      RetargetIs(i, tr);
      Associative(result, [Retarget(i, tr)], Retargeted(rest, tr));
      if i.Jump? && i.target in found {
        var resolved := ResolveLabel(found, i.target);
        result := result + [Jump(resolved)];
      } else if i.BranchFalse? && i.target in found {
        var resolved := ResolveLabel(found, i.target);
        result := result + [i.(target := resolved)];
      } else {
        result := result + [i];
      }
    }
    assert body[|body|..] == [];
    RetargetedEmpty(tr);
  }

  lemma RetargetedEmpty(tr: Trampolines)
    ensures Retargeted([], tr) == []
  {
  }

  lemma RetargetIs(i: Instruction, tr: Trampolines)
    ensures i.Jump? ==> Retarget(i, tr) == Jump(Resolve(tr, i.target))
    ensures i.BranchFalse? ==> Retarget(i, tr) == i.(target := Resolve(tr, i.target))
    ensures (!i.Jump? && !i.BranchFalse?) || i.target !in tr ==> Retarget(i, tr) == i
  {
  }

  lemma {:induction false} RetargetedFrom(body: Body, tr: Trampolines, name: string)
    ensures From(Retargeted(body, tr), name) == Retargeted(From(body, name), tr)
    ensures Labels(Retargeted(body, tr)) == Labels(body)
  {
    if body != [] {
      var i, rest := body[0], body[1..];
      assert body == [i] + rest;
      RetargetedCons(i, rest, tr);
      RetargetedFrom(rest, tr, name);
      var i' := Retarget(i, tr);
      assert i.Label? ==> i' == i;
      assert i'.Label? ==> i' == i;
      hide Retarget, Retargeted;
      LabelsSplit([i'], Retargeted(rest, tr));
      LabelsSplit([i], rest);
      if i != Label(name) {
        FromSkipsAny([i'], Retargeted(rest, tr), name);
        FromStep(body, name);
      } else {
        assert From([i] + Retargeted(rest, tr), name) == [i] + Retargeted(rest, tr);
      }
    }
  }

  /** Running from a trampoline is the jump that it holds. */
  lemma TrampolineRuns(m: Machine, body: Body, tr: Trampolines, name: string, s: Store, trace: seq<Event>, fuel: nat)
    requires DistinctNames(Labels(body)) && name in tr && Recorded(body, tr, name)
    ensures Eval(m, body, From(body, name), s, trace, fuel) == Transfer(m, body, tr[name], s, trace, fuel)
  {
    hide Eval, Transfer, Labels, DistinctNames, From, Effect, Calls;
    var index: nat :| index < |body| && TrampolineAt(body, index) && body[index].name == name && tr[name] == LandsAt(body, index);
    FromHere(body, index);
    LabelThenJump(m, body, index, s, trace, fuel);
  }

  lemma TrampolineIs(body: Body, index: nat)
    requires index < |body| && TrampolineAt(body, index)
    ensures body[index].Label?
    ensures var next := index + 1 + Lead(body[index + 1..]); next < |body| && body[next] == Jump(LandsAt(body, index)) && LandsAt(body, index) != body[index].name
  {
  }

  lemma PlainLabel(i: Instruction)
    requires i.Label?
    ensures !IsTerminator(i)
  {
  }

  lemma EvalLabel(m: Machine, body: Body, i: Instruction, rest: Body, s: Store, trace: seq<Event>, fuel: nat)
    requires i.Label?
    ensures Eval(m, body, [i] + rest, s, trace, fuel) == Eval(m, body, rest, s, trace, fuel)
  {
    EvalPlain(m, body, i, rest, s, trace, fuel);
    hide Eval;
  }

  lemma LabelThenJump(m: Machine, body: Body, index: nat, s: Store, trace: seq<Event>, fuel: nat)
    requires index < |body| && TrampolineAt(body, index)
    ensures Eval(m, body, body[index..], s, trace, fuel) == Transfer(m, body, LandsAt(body, index), s, trace, fuel)
  {
    hide *;
    var rest := body[index + 1..];
    var next := index + 1 + Lead(rest);
    TrampolineIs(body, index);
    assert body[index..] == [body[index]] + rest;
    assert rest[Lead(rest)..] == [body[next]] + body[next + 1..];
    PlainLabel(body[index]);
    EvalLabel(m, body, body[index], rest, s, trace, fuel);
    LeadDoesNothing(m, body, rest, s, trace, fuel);
    EvalJump(m, body, body[next].target, body[next + 1..], s, trace, fuel);
  }

  ghost predicate AllRecorded(body: Body, tr: Trampolines) {
    DistinctNames(Labels(body)) && forall name :: name in tr ==> Recorded(body, tr, name)
  }

  /** How many trampolines a label is forwarded through. */
  function Hops(tr: Trampolines, current: string, seen: set<string>): nat
    decreases |tr.Keys - seen|
  {
    if current in tr && current !in seen then
      (assert tr.Keys - (seen + {current}) == (tr.Keys - seen) - {current};
       1 + Hops(tr, tr[current], seen + {current}))
    else 0
  }

  /** Each hop costs the original one transfer and nothing else. */
  lemma {:induction false} HopsRun(m: Machine, body: Body, tr: Trampolines, current: string, seen: set<string>, s: Store, trace: seq<Event>, fuel: nat)
    requires AllRecorded(body, tr)
    ensures var n := Hops(tr, current, seen);
      Transfer(m, body, current, s, trace, fuel) ==
      if fuel < n then Exhausted(trace) else Transfer(m, body, ResolveFrom(tr, current, seen), s, trace, fuel - n)
    decreases |tr.Keys - seen|
  {
    hide Eval, Transfer, From, Recorded, Labels, DistinctNames;
    if current in tr && current !in seen {
      assert tr.Keys - (seen + {current}) == (tr.Keys - seen) - {current};
      TransferIs(m, body, current, s, trace, fuel);
      if fuel > 0 {
        TrampolineRuns(m, body, tr, current, s, trace, fuel - 1);
        HopsRun(m, body, tr, tr[current], seen + {current}, s, trace, fuel - 1);
      }
    }
  }

  /** One branch and its forwarded form. */
  lemma RetargetMatches(m: Machine, a: Body, b: Body, i: Instruction, k: Instruction, t: Body, u: Body, s: Store, trace: seq<Event>, f: nat, g: nat)
    requires Branches(i) && Branches(k) && i.Jump? == k.Jump?
    requires i.BranchFalse? ==> i.left == k.left && i.right == k.right && i.operation == k.operation
    requires Extends(Transfer(m, a, i.target, s, trace, f), Transfer(m, b, k.target, s, trace, g))
    requires i.BranchFalse? && Holds(m, s, i) ==> Extends(Eval(m, a, t, s, trace, f), Eval(m, b, u, s, trace, g))
    ensures Extends(Eval(m, a, [i] + t, s, trace, f), Eval(m, b, [k] + u, s, trace, g))
  {
    if i.Jump? {
      EvalJump(m, a, i.target, t, s, trace, f);
      EvalJump(m, b, k.target, u, s, trace, g);
    } else {
      assert Holds(m, s, i) == Holds(m, s, k);
      EvalBranch(m, a, i, t, s, trace, f);
      EvalBranch(m, b, k, u, s, trace, g);
    }
    hide Eval, Transfer, Holds;
  }

  lemma ResolveIs(tr: Trampolines, name: string)
    ensures Resolve(tr, name) == ResolveFrom(tr, name, {})
  {
  }

  lemma ExhaustedExtends(trace: seq<Event>, r: Result)
    requires trace <= r.trace
    ensures Extends(Exhausted(trace), r)
  {
  }

  lemma {:induction false} HopForward(m: Machine, body: Body, tr: Trampolines, target: string, s: Store, trace: seq<Event>, fuel: nat)
    requires AllRecorded(body, tr)
    ensures Extends(Transfer(m, body, target, s, trace, fuel), Transfer(m, Retargeted(body, tr), Resolve(tr, target), s, trace, fuel))
    decreases fuel, 0
  {
    hide *;
    var body' := Retargeted(body, tr);
    var last := Resolve(tr, target);
    ResolveIs(tr, target);
    var n := Hops(tr, target, {});
    HopsRun(m, body, tr, target, {}, s, trace, fuel);
    if fuel < n {
      TransferGrows(m, body', last, s, trace, fuel);
      ExhaustedExtends(trace, Transfer(m, body', last, s, trace, fuel));
    } else {
      if fuel - n > 0 {
        RetargetedFrom(body, tr, last);
        RetargetedForward(m, body, tr, From(body, last), s, trace, fuel - n - 1);
        MoreFuel(m, body', From(body', last), s, trace, fuel - n - 1, fuel - 1);
        ExtendsTransitive(Eval(m, body, From(body, last), s, trace, fuel - n - 1),
          Eval(m, body', From(body', last), s, trace, fuel - n - 1), Eval(m, body', From(body', last), s, trace, fuel - 1));
      }
      TransferMatches(m, body, body', last, s, trace, fuel - n, fuel);
    }
  }

  lemma {:induction false} RetargetedForward(m: Machine, body: Body, tr: Trampolines, rest: Body, s: Store, trace: seq<Event>, fuel: nat)
    requires AllRecorded(body, tr)
    ensures Extends(Eval(m, body, rest, s, trace, fuel), Eval(m, Retargeted(body, tr), Retargeted(rest, tr), s, trace, fuel))
    decreases fuel, |rest| + 1
  {
    if rest == [] { return; }
    var body' := Retargeted(body, tr);
    var i, tail := rest[0], rest[1..];
    assert rest == [i] + tail;
    RetargetedCons(i, tail, tr);
    hide Eval, Transfer, Retargeted, Holds, Effect, Calls, AllRecorded, Resolve;
    if Branches(i) {
      HopForward(m, body, tr, i.target, s, trace, fuel);
      RetargetedForward(m, body, tr, tail, s, trace, fuel);
      RetargetMatches(m, body, body', i, Retarget(i, tr), tail, Retargeted(tail, tr), s, trace, fuel, fuel);
    } else {
      if !IsTerminator(i) { RetargetedForward(m, body, tr, tail, Effect(m, i, s, trace), Calls(m, i, s, trace), fuel); }
      StepMatches(m, body, body', i, tail, Retargeted(tail, tr), s, trace, fuel, fuel);
    }
  }

  lemma {:induction false} HopBackward(m: Machine, body: Body, tr: Trampolines, target: string, s: Store, trace: seq<Event>, fuel: nat) returns (f: nat)
    requires AllRecorded(body, tr)
    ensures Extends(Transfer(m, Retargeted(body, tr), Resolve(tr, target), s, trace, fuel), Transfer(m, body, target, s, trace, f))
    decreases fuel, 0
  {
    hide *;
    var body' := Retargeted(body, tr);
    var last := Resolve(tr, target);
    ResolveIs(tr, target);
    var n := Hops(tr, target, {});
    f := 0;
    if fuel > 0 {
      RetargetedFrom(body, tr, last);
      f := RetargetedBackward(m, body, tr, From(body, last), s, trace, fuel - 1);
      f := f + 1;
    }
    TransferMatches(m, body', body, last, s, trace, fuel, f);
    f := f + n;
    HopsRun(m, body, tr, target, {}, s, trace, f);
  }

  lemma {:induction false} RetargetedBackward(m: Machine, body: Body, tr: Trampolines, rest: Body, s: Store, trace: seq<Event>, fuel: nat) returns (f: nat)
    requires AllRecorded(body, tr)
    ensures Extends(Eval(m, Retargeted(body, tr), Retargeted(rest, tr), s, trace, fuel), Eval(m, body, rest, s, trace, f))
    decreases fuel, |rest| + 1
  {
    f := 0;
    if rest == [] { return; }
    var body' := Retargeted(body, tr);
    var i, tail := rest[0], rest[1..];
    assert rest == [i] + tail;
    RetargetedCons(i, tail, tr);
    hide Eval, Transfer, Retargeted, Holds, Effect, Calls, AllRecorded, Resolve;
    if Branches(i) {
      var i' := Retarget(i, tr);
      if i.BranchFalse? && Holds(m, s, i) {
        f := RetargetedBackward(m, body, tr, tail, s, trace, fuel);
        RetargetHolds(m, s, i, tr);
        EvalBranch(m, body', i', Retargeted(tail, tr), s, trace, fuel);
        EvalBranch(m, body, i, tail, s, trace, f);
      } else {
        f := HopBackward(m, body, tr, i.target, s, trace, fuel);
        RetargetHolds(m, s, i, tr);
        RetargetMatches(m, body', body, i', i, Retargeted(tail, tr), tail, s, trace, fuel, f);
      }
    } else {
      if !IsTerminator(i) { f := RetargetedBackward(m, body, tr, tail, Effect(m, i, s, trace), Calls(m, i, s, trace), fuel); }
      StepMatches(m, body', body, i, Retargeted(tail, tr), tail, s, trace, fuel, f);
    }
  }

  lemma RetargetHolds(m: Machine, s: Store, i: Instruction, tr: Trampolines)
    ensures i.BranchFalse? ==> Holds(m, s, Retarget(i, tr)) == Holds(m, s, i)
  {
  }

  // ----- All six -----

  /** Unique labels, as the front end defines them. */
  lemma {:induction false} UniqueIsDistinct(body: Body)
    requires UniqueLabels(body)
    ensures DistinctNames(Labels(body))
  {
    if body != [] {
      var rest := body[1..];
      forall i, j | 0 <= i < j < |rest| && rest[i].Label? && rest[j].Label? ensures rest[i] != rest[j] {
        assert rest[i] == body[i + 1] && rest[j] == body[j + 1];
      }
      UniqueIsDistinct(rest);
      if body[0].Label? {
        LabelListed(rest, body[0].name);
        assert body[0] !in rest;
        ConsDistinct(body[0].name, Labels(rest));
      } else {
        assert Labels(body) == Labels(rest);
      }
    }
  }

  lemma ConsDistinct(head: string, tail: seq<string>)
    requires DistinctNames(tail) && head !in tail
    ensures DistinctNames([head] + tail)
  {
  }

  lemma SameRunsSameMeaning(m: Machine, a: Body, b: Body)
    requires forall s: Store, fuel: nat :: Run(m, b, s, fuel) == Run(m, a, s, fuel)
    ensures SameMeaning(m, a, b)
  {
    hide Run;
    forall s: Store, fuel: nat
      ensures Achieves(m, b, s, Run(m, a, s, fuel)) && Achieves(m, a, s, Run(m, b, s, fuel))
    {
      assert Extends(Run(m, a, s, fuel), Run(m, b, s, fuel));
      assert Extends(Run(m, b, s, fuel), Run(m, a, s, fuel));
    }
  }

  lemma FoldedMeans(m: Machine, body: Body)
    ensures SameMeaning(m, body, Folded(body))
  {
    forall s: Store, fuel: nat ensures Run(m, Folded(body), s, fuel) == Run(m, body, s, fuel) {
      FoldedSame(m, body, body, s, [], fuel);
    }
    SameRunsSameMeaning(m, body, Folded(body));
  }

  lemma PrunedMeans(m: Machine, body: Body)
    ensures SameMeaning(m, body, Pruned(body, false))
  {
    forall s: Store, fuel: nat ensures Run(m, Pruned(body, false), s, fuel) == Run(m, body, s, fuel) {
      PrunedSame(m, body, body, s, [], fuel);
    }
    SameRunsSameMeaning(m, body, Pruned(body, false));
  }

  lemma UnlabelledMeans(m: Machine, body: Body)
    ensures SameMeaning(m, body, Unlabelled(body, Referenced(body)))
  {
    assert TargetsIn(body, Referenced(body));
    forall s: Store, fuel: nat ensures Run(m, Unlabelled(body, Referenced(body)), s, fuel) == Run(m, body, s, fuel) {
      UnlabelledSame(m, body, Referenced(body), body, s, [], fuel);
    }
    SameRunsSameMeaning(m, body, Unlabelled(body, Referenced(body)));
  }

  lemma CollapsedMeans(m: Machine, body: Body)
    requires DistinctNames(Labels(body))
    ensures SameMeaning(m, body, Collapsed(body))
  {
    hide Eval, Collapsed, Labels, DistinctNames, Extends;
    assert body[0..] == body;
    forall s: Store, fuel: nat ensures Achieves(m, Collapsed(body), s, Run(m, body, s, fuel)) {
      CollapsedForward(m, body, 0, s, [], fuel);
      assert Extends(Run(m, body, s, fuel), Run(m, Collapsed(body), s, fuel));
    }
    forall s: Store, fuel: nat ensures Achieves(m, body, s, Run(m, Collapsed(body), s, fuel)) {
      var f := CollapsedBackward(m, body, 0, s, [], fuel);
      assert Extends(Run(m, Collapsed(body), s, fuel), Run(m, body, s, f));
    }
  }

  lemma InvertedMeans(m: Machine, body: Body)
    requires DistinctNames(Labels(body))
    ensures SameMeaning(m, body, Inverted(body))
  {
    hide Eval, Inverted, Labels, DistinctNames, Extends;
    assert body[0..] == body;
    forall s: Store, fuel: nat ensures Achieves(m, Inverted(body), s, Run(m, body, s, fuel)) {
      InvertedForward(m, body, 0, s, [], fuel);
      assert Extends(Run(m, body, s, fuel), Run(m, Inverted(body), s, fuel));
    }
    forall s: Store, fuel: nat ensures Achieves(m, body, s, Run(m, Inverted(body), s, fuel)) {
      var f := InvertedBackward(m, body, 0, s, [], fuel);
      assert Extends(Run(m, Inverted(body), s, fuel), Run(m, body, s, f));
    }
  }

  lemma RetargetedMeans(m: Machine, body: Body, tr: Trampolines)
    requires AllRecorded(body, tr)
    ensures SameMeaning(m, body, Retargeted(body, tr))
  {
    hide Eval, Retargeted, AllRecorded, Extends;
    forall s: Store, fuel: nat ensures Achieves(m, Retargeted(body, tr), s, Run(m, body, s, fuel)) {
      RetargetedForward(m, body, tr, body, s, [], fuel);
      assert Extends(Run(m, body, s, fuel), Run(m, Retargeted(body, tr), s, fuel));
    }
    forall s: Store, fuel: nat ensures Achieves(m, body, s, Run(m, Retargeted(body, tr), s, fuel)) {
      var f := RetargetedBackward(m, body, tr, body, s, [], fuel);
      assert Extends(Run(m, Retargeted(body, tr), s, fuel), Run(m, body, s, f));
    }
  }

  /** Two bodies mean the same on every machine. */
  ghost predicate SameOnEveryMachine(a: Body, b: Body) {
    forall m: Machine :: SameMeaning(m, a, b)
  }

  lemma SameOnEveryMachineTransitive(a: Body, b: Body, c: Body)
    requires SameOnEveryMachine(a, b) && SameOnEveryMachine(b, c)
    ensures SameOnEveryMachine(a, c)
  {
    hide SameMeaning;
    forall m: Machine ensures SameMeaning(m, a, c) { SameMeaningTransitive(m, a, b, c); }
  }

  /** The six passes, in the order in which the compiler applies them. */
  function Simplified(body: Body): Body {
    var one := Folded(body);
    var five := Pruned(Collapsed(Inverted(Retargeted(one, TrampolinesOf(one)))), false);
    Unlabelled(five, Referenced(five))
  }

  lemma SimplifiedIs(body: Body)
    ensures var one := Folded(body); var five := Pruned(Collapsed(Inverted(Retargeted(one, TrampolinesOf(one)))), false);
      Simplified(body) == Unlabelled(five, Referenced(five))
  {
  }

  /** Both end in the same way, or neither ends, from every store on every machine. */
  ghost predicate EndAlike(a: Body, b: Body) {
    forall m: Machine, s: Store, r: Result :: r.Finished? ==> (EndsIn(m, a, s, r) <==> EndsIn(m, b, s, r))
  }

  ghost predicate EndsIn(m: Machine, body: Body, s: Store, r: Result) {
    exists f: nat :: Run(m, body, s, f) == r
  }

  lemma MeaningEndsAlike(a: Body, b: Body)
    requires SameOnEveryMachine(a, b)
    ensures EndAlike(a, b)
  {
    hide Run, SameMeaning;
    forall m: Machine, s: Store, r: Result | r.Finished? ensures EndsIn(m, a, s, r) <==> EndsIn(m, b, s, r) {
      SameMeaningEndsAlike(m, a, b, s, r);
    }
  }

  method SimplifyControlFlow(body: Body) returns (result: Body)
    requires UniqueLabels(body)
    ensures result == Simplified(body) && SameOnEveryMachine(body, result) && EndAlike(body, result)
  {
    hide *;
    UniqueIsDistinct(body);
    var one := FoldConstantBranches(body);
    FoldedFrom(body, "");
    assert SameOnEveryMachine(body, one) by { forall m: Machine ensures SameMeaning(m, body, one) { FoldedMeans(m, body); } EveryMachine(body, one); }
    var two, tr := ForwardTrivialLabels(one);
    AllRecordedFrom(one, tr);
    RetargetedFrom(one, tr, "");
    assert SameOnEveryMachine(one, two) by { forall m: Machine ensures SameMeaning(m, one, two) { RetargetedMeans(m, one, tr); } EveryMachine(one, two); }
    SameOnEveryMachineTransitive(body, one, two);
    var three := InvertBranchOverJump(two);
    InvertedFrom(two, "");
    assert SameOnEveryMachine(two, three) by { forall m: Machine ensures SameMeaning(m, two, three) { InvertedMeans(m, two); } EveryMachine(two, three); }
    SameOnEveryMachineTransitive(body, two, three);
    var four := CollapseJumpToNextLabel(three);
    assert SameOnEveryMachine(three, four) by { forall m: Machine ensures SameMeaning(m, three, four) { CollapsedMeans(m, three); } EveryMachine(three, four); }
    SameOnEveryMachineTransitive(body, three, four);
    var five := EliminateUnreachableCode(four);
    assert SameOnEveryMachine(four, five) by { forall m: Machine ensures SameMeaning(m, four, five) { PrunedMeans(m, four); } EveryMachine(four, five); }
    SameOnEveryMachineTransitive(body, four, five);
    result := EliminateDeadLabels(five);
    assert SameOnEveryMachine(five, result) by { forall m: Machine ensures SameMeaning(m, five, result) { UnlabelledMeans(m, five); } EveryMachine(five, result); }
    SameOnEveryMachineTransitive(body, five, result);
    SimplifiedIs(body);
    MeaningEndsAlike(body, result);
  }

  lemma EveryMachine(a: Body, b: Body)
    requires forall m: Machine :: SameMeaning(m, a, b)
    ensures SameOnEveryMachine(a, b)
  {
  }

  lemma AllRecordedFrom(body: Body, tr: Trampolines)
    requires DistinctNames(Labels(body)) && forall name :: name in tr ==> Recorded(body, tr, name)
    ensures AllRecorded(body, tr)
  {
  }
}
