/** The scalar pipeline to its end (cc/ir_optimize.py:98-126, 160-192, 597-614):
    propagation, control-flow simplification and dead-code elimination, repeated
    until nothing changes, keep every call, every result and every name other than
    the compiler's own temporaries. */
module ScalarRounds {
  import opened Common
  import opened IR
  import opened ControlFlow
  import opened ScalarPipeline
  import opened Cfg
  import opened WellFormedCode
  import opened FirstReads
  import opened ScalarMeaning
  import opened NormalForm

  // ----- No pass adds a definition -----

  /** `b` defines no name more often than `a` and holds only copies and tail calls
      of `a`. */
  ghost predicate Fewer(a: Body, b: Body) {
    && (forall x :: CountDefs(b, x) <= CountDefs(a, x))
    && (forall i :: i in b && (i.Copy? || i.TailCall?) ==> i in a)
  }

  lemma FewerSelf(a: Body)
    ensures Fewer(a, a)
  {
  }

  lemma {:induction false} CountSplit(a: Body, b: Body, x: string)
    ensures CountDefs(a + b, x) == CountDefs(a, x) + CountDefs(b, x)
    decreases |a|
  {
    if a == [] {
      assert a + b == b;
    } else {
      CountSplit(a[1..], b, x);
      assert (a + b)[1..] == a[1..] + b;
    }
  }

  /** Piece by piece. */
  lemma FewerBoth(a: Body, a': Body, b: Body, b': Body)
    requires Fewer(a, a') && Fewer(b, b')
    ensures Fewer(a + b, a' + b')
  {
    forall x ensures CountDefs(a' + b', x) <= CountDefs(a + b, x) {
      CountSplit(a, b, x);
      CountSplit(a', b', x);
    }
    hide CountDefs;
  }

  lemma FewerTransitive(a: Body, b: Body, c: Body)
    requires Fewer(a, b) && Fewer(b, c)
    ensures Fewer(a, c)
  {
    hide CountDefs;
  }

  lemma CountOfOne(i: Instruction, x: string)
    ensures CountDefs([i], x) == (if DestinationOf(i) == Some(x) then 1 else 0) && CountDefs([], x) == 0
  {
    assert [i][1..] == [];
  }

  /** Dropping an instruction, or replacing it by one that defines no more and is
      neither a copy nor a tail call. */
  lemma FewerOne(i: Instruction, j: Instruction)
    ensures Fewer([i], [])
    ensures !j.Copy? && !j.TailCall? && (DestinationOf(j) == DestinationOf(i) || DestinationOf(j).None?) ==> Fewer([i], [j])
  {
    forall x ensures CountDefs([i], x) == (if DestinationOf(i) == Some(x) then 1 else 0) && CountDefs([j], x) == (if DestinationOf(j) == Some(x) then 1 else 0) && CountDefs([], x) == 0 {
      CountOfOne(i, x);
      CountOfOne(j, x);
    }
    hide CountDefs, DestinationOf;
  }

  lemma FewerFolded(i: Instruction)
    ensures Fewer([i], FoldOne(i))
  {
    FewerSelf([i]);
    FoldOneForms(i);
    if i.BranchFalse? { FewerOne(i, Jump(i.target)); }
    hide Fewer, FoldOne;
  }

  lemma {:induction false} FoldedFewer(body: Body)
    ensures Fewer(body, Folded(body))
    decreases |body|
  {
    if body == [] {
      FewerSelf([]);
    } else {
      hide Fewer, FoldOne;
      FoldedFewer(body[1..]);
      FewerFolded(body[0]);
      FewerBoth([body[0]], FoldOne(body[0]), body[1..], Folded(body[1..]));
      assert body == [body[0]] + body[1..];
    }
  }

  lemma RetargetFewer(i: Instruction, tr: Trampolines)
    ensures Fewer([i], [Retarget(i, tr)])
  {
    FewerSelf([i]);
    FewerOne(i, Retarget(i, tr));
    hide Fewer, Resolve;
  }

  lemma {:induction false} RetargetedFewer(body: Body, tr: Trampolines)
    ensures Fewer(body, Retargeted(body, tr))
    decreases |body|
  {
    if body == [] {
      FewerSelf([]);
    } else {
      hide Fewer, Retarget;
      RetargetedFewer(body[1..], tr);
      RetargetFewer(body[0], tr);
      FewerBoth([body[0]], [Retarget(body[0], tr)], body[1..], Retargeted(body[1..], tr));
      assert body == [body[0]] + body[1..];
    }
  }

  lemma {:induction false} PrunedFewer(body: Body, skipping: bool)
    ensures Fewer(body, Pruned(body, skipping))
    decreases |body|
  {
    hide Fewer, Unconditional;
    if body == [] {
      FewerSelf([]);
    } else {
      var i, rest := body[0], body[1..];
      assert body == [i] + rest;
      PrunedCons(i, rest, skipping);
      PrunedFewer(rest, false);
      PrunedFewer(rest, true);
      FewerSelf([i]);
      FewerOne(i, i);
      hide Pruned;
      FewerBoth([i], [i], rest, Pruned(rest, false));
      FewerBoth([i], [i], rest, Pruned(rest, true));
      FewerBoth([i], [], rest, Pruned(rest, true));
    }
  }

  lemma {:induction false} UnlabelledFewer(body: Body, referenced: set<string>)
    ensures Fewer(body, Unlabelled(body, referenced))
    decreases |body|
  {
    hide Fewer, KeptBy;
    if body == [] {
      FewerSelf([]);
    } else {
      var i, rest := body[0], body[1..];
      assert body == [i] + rest;
      UnlabelledCons(i, rest, referenced);
      UnlabelledFewer(rest, referenced);
      FewerSelf([i]);
      FewerOne(i, i);
      hide Unlabelled;
      FewerBoth([i], if KeptBy(referenced, i) then [i] else [], rest, Unlabelled(rest, referenced));
    }
  }

  lemma {:induction false} CollapsedFewer(body: Body)
    ensures Fewer(body, Collapsed(body))
    decreases |body|
  {
    hide Fewer;
    if body == [] {
      FewerSelf([]);
    } else if JumpsToNext(body) {
      var n := 1 + Lead(body[1..]);
      CollapsedFewer(body[n..]);
      FewerOne(body[0], body[0]);
      FewerSelf(body[1..n]);
      FewerBoth([body[0]], [], body[1..n], body[1..n]);
      FewerBoth([body[0]] + body[1..n], [] + body[1..n], body[n..], Collapsed(body[n..]));
      assert body == [body[0]] + body[1..n] + body[n..];
      assert [] + body[1..n] == body[1..n];
    } else {
      CollapsedFewer(body[1..]);
      FewerSelf([body[0]]);
      FewerBoth([body[0]], [body[0]], body[1..], Collapsed(body[1..]));
      assert body == [body[0]] + body[1..];
    }
  }

  lemma InvertFewer(i: Instruction, target: string)
    requires Invertible(i)
    ensures Fewer([i], [InvertBranch(i, target)])
  {
    FewerOne(i, InvertBranch(i, target));
    hide Fewer, Inverse;
  }

  lemma {:induction false} InvertedFewer(body: Body)
    ensures Fewer(body, Inverted(body))
    decreases |body|
  {
    hide *;
    assert body[0..] == body;
    if body == [] {
      InvertedEmpty();
      FewerSelf([]);
    } else if OverJump(body).Some? {
      var j := OverJump(body).value;
      InvertedSome(body, 0, j);
      InvertedFewer(body[j + 1..]);
      var head := [InvertBranch(body[0], body[j].target)] + body[1..j];
      InvertFewer(body[0], body[j].target);
      FewerSelf(body[1..j]);
      FewerOne(body[j], body[j]);
      FewerBoth([body[0]], [InvertBranch(body[0], body[j].target)], body[1..j], body[1..j]);
      FewerBoth([body[0]] + body[1..j], head, [body[j]], []);
      FewerBoth([body[0]] + body[1..j] + [body[j]], head + [], body[j + 1..], Inverted(body[j + 1..]));
      assert body == [body[0]] + body[1..j] + [body[j]] + body[j + 1..] && body[0 + 1..j] == body[1..j] && head + [] == head;
    } else {
      InvertedNone(body, 0);
      InvertedFewer(body[1..]);
      FewerSelf([body[0]]);
      FewerBoth([body[0]], [body[0]], body[1..], Inverted(body[1..]));
      assert body == [body[0]] + body[1..];
    }
  }

  lemma SimplifiedFewer(body: Body)
    ensures Fewer(body, Simplified(body))
  {
    hide *;
    SimplifiedIs(body);
    var one := Folded(body);
    var two := Retargeted(one, TrampolinesOf(one));
    var three := Inverted(two);
    var four := Collapsed(three);
    var five := Pruned(four, false);
    FoldedFewer(body);
    RetargetedFewer(one, TrampolinesOf(one));
    FewerTransitive(body, one, two);
    InvertedFewer(two);
    FewerTransitive(body, two, three);
    CollapsedFewer(three);
    FewerTransitive(body, three, four);
    PrunedFewer(four, false);
    FewerTransitive(body, four, five);
    UnlabelledFewer(five, Referenced(five));
    FewerTransitive(body, five, Unlabelled(five, Referenced(five)));
  }

  // ----- No pass comes between a copy and the read behind it -----

  /** What is not a copy into `t` may be anything. */
  lemma AnyBefore(p: Option<Instruction>, q: Option<Instruction>, code: Body, t: string)
    requires AtOnce(p, code, t) && !(p.Some? && p.value.Copy? && p.value.destination == t)
    ensures AtOnce(q, code, t)
  {
    hide Uses, IsTemp;
  }

  lemma AtOnceCons(p: Option<Instruction>, i: Instruction, rest: Body, t: string)
    ensures AtOnce(p, [i] + rest, t) <==> (t in Uses(i) ==> ReadsBehind(p, i, t)) && AtOnce(Some(i), rest, t)
    ensures AtOnce(p, [], t)
  {
    assert ([i] + rest)[1..] == rest;
    hide Uses, ReadsBehind;
  }

  /** An instruction that is no copy may be left out, or replaced by one that reads
      nothing new and is no copy either. */
  lemma AtOnceWithout(p: Option<Instruction>, i: Instruction, j: Instruction, rest: Body, t: string)
    requires AtOnce(p, [i] + rest, t) && !i.Copy?
    ensures AtOnce(p, rest, t)
    ensures !j.Copy? && (Branches(i) || t !in Uses(j)) && Uses(j) <= Uses(i) ==> AtOnce(p, [j], t) && AtOnce(Some(j), rest, t)
  {
    AtOnceCons(p, i, rest, t);
    AtOnceCons(p, j, [], t);
    assert [j] + [] == [j];
    AnyBefore(Some(i), p, rest, t);
    AnyBefore(Some(i), Some(j), rest, t);
    hide AtOnce, Uses, IsTemp;
  }

  lemma {:induction false} AtOnceJoin(p: Option<Instruction>, a: Body, b: Body, t: string)
    ensures AtOnce(p, a + b, t) <==> AtOnce(p, a, t) && AtOnce(if a == [] then p else Some(a[|a| - 1]), b, t)
    decreases |a|
  {
    hide Uses, ReadsBehind;
    if a == [] {
      assert a + b == b;
    } else {
      var rest := a[1..];
      assert a + b == [a[0]] + (rest + b) && a == [a[0]] + rest;
      AtOnceCons(p, a[0], rest + b, t);
      AtOnceCons(p, a[0], rest, t);
      AtOnceJoin(Some(a[0]), rest, b, t);
      if rest != [] { assert rest[|rest| - 1] == a[|a| - 1]; }
    }
  }

  lemma FoldOneReads(i: Instruction, t: string)
    ensures FoldOne(i) == [i] || (i.BranchFalse? && !i.Copy? && (FoldOne(i) == [] || FoldOne(i) == [Jump(i.target)]))
    ensures Uses(Jump(t)) == {}
  {
  }

  lemma {:induction false} FoldedAtOnce(p: Option<Instruction>, body: Body, t: string)
    requires AtOnce(p, body, t)
    ensures AtOnce(p, Folded(body), t)
    decreases |body|
  {
    if body != [] {
      hide AtOnce, FoldOne, Uses;
      var i, rest := body[0], body[1..];
      assert body == [i] + rest;
      AtOnceCons(p, i, rest, t);
      FoldOneReads(i, if i.BranchFalse? then i.target else "");
      if FoldOne(i) == [i] {
        FoldedAtOnce(Some(i), rest, t);
        AtOnceCons(p, i, Folded(rest), t);
      } else {
        AtOnceWithout(p, i, Jump(i.target), rest, t);
        FoldedAtOnce(p, rest, t);
        FoldedAtOnce(Some(Jump(i.target)), rest, t);
        AtOnceJoin(p, [Jump(i.target)], Folded(rest), t);
        assert [] + Folded(rest) == Folded(rest);
      }
    }
  }

  lemma RetargetKinds(i: Instruction, tr: Trampolines)
    ensures Retarget(i, tr) == i || (Branches(i) && !i.Copy? && !Retarget(i, tr).Copy? && Uses(Retarget(i, tr)) == Uses(i))
    ensures Branches(i) ==> i.Jump? || i.BranchFalse?
  {
    hide Resolve;
  }

  lemma BranchNotRead(p: Option<Instruction>, i: Instruction, t: string)
    ensures Branches(i) ==> !ReadsBehind(p, i, t)
  {
  }

  lemma {:induction false} RetargetedAtOnce(p: Option<Instruction>, body: Body, tr: Trampolines, t: string)
    requires AtOnce(p, body, t)
    ensures AtOnce(p, Retargeted(body, tr), t)
    decreases |body|
  {
    if body != [] {
      hide AtOnce, Retarget, Uses, ReadsBehind;
      var i, rest := body[0], body[1..];
      var j := Retarget(i, tr);
      assert body == [i] + rest;
      AtOnceCons(p, i, rest, t);
      RetargetKinds(i, tr);
      BranchNotRead(p, i, t);
      if j != i { AnyBefore(Some(i), Some(j), rest, t); }
      RetargetedAtOnce(Some(j), rest, tr, t);
      AtOnceCons(p, j, Retargeted(rest, tr), t);
    }
  }

  lemma {:induction false} UnlabelledAtOnce(p: Option<Instruction>, body: Body, referenced: set<string>, t: string)
    requires AtOnce(p, body, t)
    ensures AtOnce(p, Unlabelled(body, referenced), t)
    decreases |body|
  {
    if body != [] {
      hide AtOnce, KeptBy, Uses, Unlabelled;
      var i, rest := body[0], body[1..];
      assert body == [i] + rest;
      UnlabelledCons(i, rest, referenced);
      AtOnceCons(p, i, rest, t);
      KeptByIs(referenced, i);
      if KeptBy(referenced, i) {
        UnlabelledAtOnce(Some(i), rest, referenced, t);
        AtOnceCons(p, i, Unlabelled(rest, referenced), t);
      } else {
        AtOnceWithout(p, i, i, rest, t);
        UnlabelledAtOnce(p, rest, referenced, t);
        assert [] + Unlabelled(rest, referenced) == Unlabelled(rest, referenced);
      }
    } else {
      UnlabelledEnds([], referenced);
      AtOnceCons(p, Jump(""), [], t);
    }
  }

  lemma LabelNotCopied(i: Instruction)
    ensures i.Label? || i.LoopBoundary? ==> !i.Copy? && Uses(i) == {}
    ensures Unconditional(i) ==> !i.Copy?
  {
  }

  /** When code is skipped, what comes next need not be behind what was in front of it. */
  lemma {:induction false} PrunedAtOnce(p: Option<Instruction>, q: Option<Instruction>, body: Body, skipping: bool, t: string)
    requires AtOnce(p, body, t) && (skipping || q == p)
    ensures AtOnce(q, Pruned(body, skipping), t)
    decreases |body|
  {
    hide AtOnce, Uses, Unconditional, ReadsBehind;
    if body == [] {
      AtOnceCons(q, Jump(""), [], t);
    } else {
      var i, rest := body[0], body[1..];
      assert body == [i] + rest;
      PrunedCons(i, rest, skipping);
      AtOnceCons(p, i, rest, t);
      LabelNotCopied(i);
      hide Pruned;
      if i.Label? || !skipping {
        PrunedAtOnce(Some(i), Some(i), rest, false, t);
        PrunedAtOnce(Some(i), Some(i), rest, true, t);
        AtOnceCons(q, i, Pruned(rest, false), t);
        AtOnceCons(q, i, Pruned(rest, true), t);
      } else if i.LoopBoundary? {
        PrunedAtOnce(Some(i), Some(i), rest, true, t);
        AtOnceCons(q, i, Pruned(rest, true), t);
      } else {
        PrunedAtOnce(Some(i), q, rest, true, t);
        assert [] + Pruned(rest, true) == Pruned(rest, true);
      }
    }
  }

  lemma {:induction false} CollapsedAtOnce(p: Option<Instruction>, body: Body, t: string)
    requires AtOnce(p, body, t)
    ensures AtOnce(p, Collapsed(body), t)
    decreases |body|
  {
    hide AtOnce, Uses;
    if body == [] {
    } else if JumpsToNext(body) {
      var n := 1 + Lead(body[1..]);
      assert body == [body[0]] + body[1..] && body[1..] == body[1..n] + body[n..];
      AtOnceWithout(p, body[0], body[0], body[1..], t);
      AtOnceJoin(p, body[1..n], body[n..], t);
      CollapsedAtOnce(if body[1..n] == [] then p else Some(body[1..n][n - 2]), body[n..], t);
      AtOnceJoin(p, body[1..n], Collapsed(body[n..]), t);
    } else {
      assert body == [body[0]] + body[1..];
      AtOnceCons(p, body[0], body[1..], t);
      CollapsedAtOnce(Some(body[0]), body[1..], t);
      AtOnceCons(p, body[0], Collapsed(body[1..]), t);
    }
  }

  lemma InvertKinds(i: Instruction, target: string)
    requires Invertible(i)
    ensures var b := InvertBranch(i, target); Branches(i) && !i.Copy? && !b.Copy? && Uses(b) == Uses(i)
  {
  }

  lemma {:induction false} InvertedAtOnce(p: Option<Instruction>, body: Body, t: string)
    requires AtOnce(p, body, t)
    ensures AtOnce(p, Inverted(body), t)
    decreases |body|
  {
    hide *;
    assert body[0..] == body;
    if body == [] {
      InvertedEmpty();
    } else if OverJump(body).Some? {
      var j := OverJump(body).value;
      InvertedSome(body, 0, j);
      var b, marks, rest := InvertBranch(body[0], body[j].target), body[1..j], body[j + 1..];
      assert body == [body[0]] + (marks + ([body[j]] + rest));
      InvertKinds(body[0], body[j].target);
      JumpIsNoCopy(body[j]);
      AtOnceWithout(p, body[0], b, marks + ([body[j]] + rest), t);
      AtOnceJoin(Some(b), marks, [body[j]] + rest, t);
      var last := if marks == [] then Some(b) else Some(marks[|marks| - 1]);
      AtOnceWithout(last, body[j], body[j], rest, t);
      InvertedAtOnce(last, rest, t);
      AtOnceJoin(Some(b), marks, Inverted(rest), t);
      AtOnceJoin(p, [b], marks + Inverted(rest), t);
      assert [b] + (marks + Inverted(rest)) == [b] + marks + Inverted(rest) && body[0 + 1..j] == marks;
    } else {
      InvertedNone(body, 0);
      assert body == [body[0]] + body[1..];
      AtOnceCons(p, body[0], body[1..], t);
      InvertedAtOnce(Some(body[0]), body[1..], t);
      AtOnceCons(p, body[0], Inverted(body[1..]), t);
    }
  }

  lemma JumpIsNoCopy(i: Instruction)
    ensures i.Jump? ==> !i.Copy?
  {
  }

  lemma UsedAtOnceIs(body: Body, t: string)
    ensures UsedAtOnce(body, t) <==> AtOnce(None, body, t)
  {
  }

  lemma SimplifiedAtOnce(body: Body, t: string)
    requires UsedAtOnce(body, t)
    ensures UsedAtOnce(Simplified(body), t)
  {
    hide *;
    SimplifiedIs(body);
    var one := Folded(body);
    var two := Retargeted(one, TrampolinesOf(one));
    var three := Inverted(two);
    var four := Collapsed(three);
    var five := Pruned(four, false);
    UsedAtOnceIs(body, t);
    FoldedAtOnce(None, body, t);
    RetargetedAtOnce(None, one, TrampolinesOf(one), t);
    InvertedAtOnce(None, two, t);
    CollapsedAtOnce(None, three, t);
    PrunedAtOnce(None, None, four, false, t);
    UnlabelledAtOnce(None, five, Referenced(five), t);
    UsedAtOnceIs(Simplified(body), t);
  }

  /** Code with fewer definitions and first reads, and with as much used at once, stays
      orderly. */
  lemma FewerOrderly(a: Body, b: Body)
    requires Orderly(a) && Fewer(a, b) && ReadsNoMore(a, b) && forall t :: UsedAtOnce(a, t) ==> UsedAtOnce(b, t)
    ensures Orderly(b)
  {
    hide ReadFirst, CountDefs, IsTemp, Steady, UsedAtOnce;
    forall i | i in b ensures CopySteady(b, i) && !i.TailCall? {
      if i.Copy? && IsTemp(i.destination) && i.source.Name? && Steady(a, i.source.id) { SteadyStays(a, b, i.source.id); }
    }
  }

  lemma SimplifiedOrderly(body: Body)
    requires Orderly(body) && UniqueLabels(body)
    ensures Orderly(Simplified(body))
  {
    hide *;
    SimplifiedFewer(body);
    SimplifiedReadsNoMore(body);
    forall t | UsedAtOnce(body, t) ensures UsedAtOnce(Simplified(body), t) { SimplifiedAtOnce(body, t); }
    FewerOrderly(body, Simplified(body));
  }

  // ----- Dead code -----

  /** All names that `code` reads are in `used`, and it has no tail call. */
  ghost predicate ReadsIn(code: Body, used: set<string>) {
    forall i :: i in code ==> Uses(i) <= used && !i.TailCall?
  }

  lemma ReadsInTail(code: Body, used: set<string>)
    requires ReadsIn(code, used) && code != []
    ensures ReadsIn(code[1..], used) && Uses(code[0]) <= used && !code[0].TailCall?
  {
  }

  lemma ReadsInFrom(code: Body, used: set<string>, name: string)
    requires ReadsIn(code, used)
    ensures ReadsIn(From(code, name), used)
  {
  }

  lemma OrderlyReadsIn(body: Body)
    requires Orderly(body)
    ensures ReadsIn(body, UsedNames(body))
  {
    hide Uses, ReadFirst, CopySteady;
    forall i | i in body ensures Uses(i) <= UsedNames(body) && !i.TailCall? {
      var k :| 0 <= k < |body| && body[k] == i;
      forall x | x in Uses(i) ensures x in UsedNames(body) { assert x in Reads(body[k]); }
    }
  }

  lemma AliveForms(i: Instruction, used: set<string>)
    ensures Alive(i, used) == [i] || (i.Call? && i.result.Some? && Alive(i, used) == [i.(result := None)])
      || (!Branches(i) && !IsTerminator(i) && !i.Call? && !i.Label? && Alive(i, used) == [])
    ensures Alive(i, used) != [i] ==> DestinationOf(i).Some? && IsTemp(DestinationOf(i).value) && DestinationOf(i).value !in used
  {
    hide IsTemp;
  }

  lemma AliveFewerOne(i: Instruction, used: set<string>)
    ensures Fewer([i], Alive(i, used))
  {
    FewerSelf([i]);
    AliveForms(i, used);
    FewerOne(i, if i.Call? then i.(result := None) else i);
    hide Fewer, Alive;
  }

  lemma {:induction false} AliveFewer(body: Body, used: set<string>)
    ensures Fewer(body, AliveOf(body, used))
    decreases |body|
  {
    if body == [] {
      FewerSelf([]);
    } else {
      hide Fewer, Alive;
      AliveFewer(body[1..], used);
      AliveFewerOne(body[0], used);
      FewerBoth([body[0]], Alive(body[0], used), body[1..], AliveOf(body[1..], used));
      assert body == [body[0]] + body[1..];
    }
  }

  lemma {:induction false} AliveFrom(body: Body, used: set<string>, name: string)
    ensures From(AliveOf(body, used), name) == AliveOf(From(body, name), used)
    decreases |body|
  {
    if body != [] {
      var i, rest := body[0], body[1..];
      assert body == [i] + rest;
      AliveCons(i, rest, used);
      AliveFrom(rest, used, name);
      AliveForms(i, used);
      hide Alive, AliveOf;
      if i != Label(name) {
        FromSkipsAny(Alive(i, used), AliveOf(rest, used), name);
        FromStep(body, name);
      } else {
        assert From([i] + AliveOf(rest, used), name) == [i] + AliveOf(rest, used);
      }
    }
  }

  /** A name that is not read at all is not read first. */
  lemma {:induction false} UnreadNever(body: Body, rest: Body, used: set<string>, x: string, fuel: nat)
    requires ReadsIn(body, used) && ReadsIn(rest, used) && x !in used
    ensures !MayRead(body, rest, x, fuel)
    decreases fuel, |rest|
  {
    if rest != [] {
      hide ReadsIn, Uses, Defs, From;
      var i, tail := rest[0], rest[1..];
      ReadsInTail(rest, used);
      if Branches(i) && fuel > 0 {
        ReadsInFrom(body, used, i.target);
        UnreadNever(body, From(body, i.target), used, x, fuel - 1);
      }
      UnreadNever(body, tail, used, x, fuel);
    }
  }

  lemma AliveReadsOne(i: Instruction, used: set<string>)
    ensures |Alive(i, used)| <= 1
    ensures Alive(i, used) != [] ==> var j := Alive(i, used)[0];
      Uses(j) == Uses(i) && Branches(j) == Branches(i) && Unconditional(j) == Unconditional(i) && (Branches(i) ==> i == j) && j.TailCall? == i.TailCall?
      && forall x :: x in Defs(i) && x !in Defs(j) ==> x !in used
    ensures Alive(i, used) == [] ==> !Branches(i) && !Unconditional(i) && forall x :: x in Defs(i) ==> x !in used
  {
    hide IsTemp;
  }

  lemma {:induction false} AliveReads(body: Body, used: set<string>, rest: Body, x: string, fuel: nat)
    requires x in used
    ensures MayRead(AliveOf(body, used), AliveOf(rest, used), x, fuel) ==> ReadFirst(body, rest, x)
    decreases fuel, |rest|
  {
    hide MayRead, ReadFirst, AliveOf, Alive, From, Uses, Defs;
    var body' := AliveOf(body, used);
    if rest == [] {
      AliveEnds([], used);
      MayReadNone(body', x, fuel);
    } else {
      var i, tail := rest[0], rest[1..];
      assert rest == [i] + tail;
      AliveCons(i, tail, used);
      AliveReadsOne(i, used);
      if Branches(i) {
        AliveFrom(body, used, i.target);
        if fuel > 0 { AliveReads(body, used, From(body, i.target), x, fuel - 1); }
      }
      AliveReads(body, used, tail, x, fuel);
      ReadFirstCons(body, i, tail, x);
      if Alive(i, used) == [] {
        assert [] + AliveOf(tail, used) == AliveOf(tail, used);
      } else {
        var j := Alive(i, used)[0];
        assert Alive(i, used) == [j];
        MayReadCons(body', j, AliveOf(tail, used), x, fuel);
      }
    }
  }

  lemma {:induction false} AliveReadsIn(code: Body, used: set<string>)
    requires ReadsIn(code, used)
    ensures ReadsIn(AliveOf(code, used), used)
    decreases |code|
  {
    if code != [] {
      ReadsInTail(code, used);
      AliveReadsIn(code[1..], used);
      AliveReadsOne(code[0], used);
      hide Alive, Uses, Defs;
    }
  }

  lemma AliveReadsNoMore(body: Body, used: set<string>)
    requires ReadsIn(body, used)
    ensures ReadsNoMore(body, AliveOf(body, used))
  {
    hide MayRead, AliveOf, ReadsIn;
    var q := AliveOf(body, used);
    AliveReadsIn(body, used);
    forall x, fuel: nat | MayRead(q, q, x, fuel) ensures ReadFirst(body, body, x) {
      if x in used { AliveReads(body, used, body, x, fuel); } else { UnreadNever(q, q, used, x, fuel); }
      hide ReadFirst;
    }
    hide ReadFirst;
    ReadsNoMoreFrom(body, q);
  }

  lemma AliveKinds(i: Instruction, used: set<string>, t: string)
    requires t in used
    ensures Alive(i, used) == [i] || (i.Call? && i.result.Some? && Alive(i, used) == [i.(result := None)] && Uses(i.(result := None)) == Uses(i))
      || (Alive(i, used) == [] && !(i.Copy? && i.destination == t))
  {
    hide IsTemp;
  }

  lemma CallReads(p: Option<Instruction>, i: Instruction, t: string)
    requires i.Call?
    ensures ReadsBehind(p, i, t) <==> ReadsBehind(p, i.(result := None), t)
  {
    hide IsTemp;
  }

  lemma {:induction false} AliveAtOnce(p: Option<Instruction>, body: Body, used: set<string>, t: string)
    requires AtOnce(p, body, t) && t in used
    ensures AtOnce(p, AliveOf(body, used), t)
    decreases |body|
  {
    if body == [] {
      AliveEnds([], used);
    } else {
      hide AtOnce, Alive, Uses, ReadsBehind, AliveOf;
      var i, rest := body[0], body[1..];
      assert body == [i] + rest;
      AliveCons(i, rest, used);
      AtOnceCons(p, i, rest, t);
      AliveKinds(i, used, t);
      if Alive(i, used) == [] {
        AliveSkips(p, i, rest, t);
        AliveAtOnce(p, rest, used, t);
        assert [] + AliveOf(rest, used) == AliveOf(rest, used);
      } else {
        var j := Alive(i, used)[0];
        if i.Call? { CallReads(p, i, t); }
        if j != i { AnyBefore(Some(i), Some(j), rest, t); }
        AliveAtOnce(Some(j), rest, used, t);
        AtOnceCons(p, j, AliveOf(rest, used), t);
      }
    }
  }

  lemma AliveSkips(p: Option<Instruction>, i: Instruction, rest: Body, t: string)
    requires AtOnce(Some(i), rest, t) && !(i.Copy? && i.destination == t)
    ensures AtOnce(p, rest, t)
  {
    AnyBefore(Some(i), p, rest, t);
    hide AtOnce;
  }

  /** What is not read at all is used at once. */
  lemma {:induction false} UnreadAtOnce(p: Option<Instruction>, code: Body, used: set<string>, t: string)
    requires ReadsIn(code, used) && t !in used
    ensures AtOnce(p, code, t)
    decreases |code|
  {
    hide Uses, ReadsBehind;
    if code != [] {
      ReadsInTail(code, used);
      UnreadAtOnce(Some(code[0]), code[1..], used, t);
    }
  }

  lemma AliveUsedAtOnce(body: Body, used: set<string>, t: string)
    requires ReadsIn(body, used) && UsedAtOnce(body, t)
    ensures UsedAtOnce(AliveOf(body, used), t)
  {
    hide *;
    UsedAtOnceIs(body, t);
    UsedAtOnceIs(AliveOf(body, used), t);
    AliveReadsIn(body, used);
    if t in used { AliveAtOnce(None, body, used, t); } else { UnreadAtOnce(None, AliveOf(body, used), used, t); }
  }

  lemma WithoutDeadOrderly(body: Body)
    requires Orderly(body)
    ensures Orderly(WithoutDead(body))
  {
    hide *;
    var used := UsedNames(body);
    WithoutDeadIs(body);
    OrderlyReadsIn(body);
    AliveFewer(body, used);
    AliveReadsNoMore(body, used);
    forall t | UsedAtOnce(body, t) ensures UsedAtOnce(AliveOf(body, used), t) { AliveUsedAtOnce(body, used, t); }
    FewerOrderly(body, AliveOf(body, used));
  }

  // ----- What dead code does -----

  /** Names that someone may still look at. */
  predicate Matters(used: set<string>, x: string) { !IsTemp(x) || x in used }

  ghost predicate Alike(m: Machine, used: set<string>, s: Store, u: Store) {
    forall x :: Matters(used, x) ==> Read(m, s, x) == Read(m, u, x)
  }

  /** The same end, the same calls, and the same names. */
  ghost predicate EndAlike(m: Machine, used: set<string>, a: Result, b: Result) {
    a.Finished? == b.Finished? && a.trace == b.trace && (a.Finished? ==> a.outcome == b.outcome && Alike(m, used, a.store, b.store))
  }

  lemma AlikeValue(m: Machine, used: set<string>, s: Store, u: Store, v: Value)
    requires Alike(m, used, s, u) && NamesOf(v) <= used
    ensures ValueOf(m, s, v) == ValueOf(m, u, v)
  {
    hide Read, IsTemp;
  }

  lemma AlikeValues(m: Machine, used: set<string>, s: Store, u: Store, vs: seq<Value>)
    requires Alike(m, used, s, u) && NamesOfAll(vs) <= used
    ensures ValuesOf(m, s, vs) == ValuesOf(m, u, vs)
  {
    forall k | 0 <= k < |vs| ensures ValueOf(m, s, vs[k]) == ValueOf(m, u, vs[k]) { AlikeValue(m, used, s, u, vs[k]); }
    hide ValueOf, Alike;
  }

  lemma AlikeWrite(m: Machine, used: set<string>, s: Store, u: Store, d: string, n: int)
    requires Alike(m, used, s, u) && m.homes == map[]
    ensures Alike(m, used, Write(m, s, d, n), Write(m, u, d, n))
    ensures IsTemp(d) && d !in used ==> Alike(m, used, Write(m, s, d, n), u)
  {
    hide IsTemp;
  }

  lemma AlikeCalls(m: Machine, used: set<string>, i: Instruction, s: Store, u: Store, trace: seq<Event>)
    requires Alike(m, used, s, u) && Uses(i) <= used
    ensures Calls(m, i, s, trace) == Calls(m, i, u, trace)
    ensures i.BranchFalse? ==> Holds(m, s, i) == Holds(m, u, i)
    ensures i.Return? && i.value.Some? ==> ValueOf(m, s, i.value.value) == ValueOf(m, u, i.value.value)
  {
    hide Alike, ValueOf, ValuesOf, Compare, NamesOfAll, NamesOf;
    match i
    case BranchFalse(l, _, r, _) => AlikeValue(m, used, s, u, l); AlikeValue(m, used, s, u, r);
    case Call(_, args, _) => AlikeValues(m, used, s, u, args);
    case TailCall(_, args) => AlikeValues(m, used, s, u, args);
    case Return(w) => if w.Some? { AlikeValue(m, used, s, u, w.value); }
    case _ =>
  }

  /** The same instruction keeps the stores alike, and so does a dead one that is
      left out on one side. */
  lemma AlikeEffect(m: Machine, used: set<string>, i: Instruction, s: Store, u: Store, trace: seq<Event>)
    requires Alike(m, used, s, u) && Uses(i) <= used && m.homes == map[]
    ensures Alike(m, used, Effect(m, i, s, trace), Effect(m, i, u, trace))
    ensures Dead(i, used) ==> Alike(m, used, Effect(m, i, s, trace), u)
  {
    AlikeCalls(m, used, i, s, u, trace);
    hide Alike, ValueOf, ValuesOf, Compare, NamesOfAll, NamesOf, Write, Holds, Calls, IsTemp;
    match i
    case Copy(d, v) =>
      AlikeValue(m, used, s, u, v);
      AlikeWrite(m, used, s, u, d, ValueOf(m, s, v));
    case BinaryOperation(d, l, op, r) =>
      AlikeValue(m, used, s, u, l);
      AlikeValue(m, used, s, u, r);
      AlikeWrite(m, used, s, u, d, m.arithmetic(op, ValueOf(m, s, l), ValueOf(m, s, r)));
    case Call(_, _, result) =>
      if result.Some? { AlikeWrite(m, used, s, u, result.value, m.answer(Calls(m, i, s, trace))); }
    case _ =>
  }

  /** The instruction that is left of a dead one, if any. */
  lemma AliveDead(m: Machine, i: Instruction, used: set<string>, u: Store, trace: seq<Event>)
    ensures !Dead(i, used) ==> Alive(i, used) == [i]
    ensures Dead(i, used) ==> !IsTerminator(i)
    ensures Dead(i, used) && !i.Call? ==> Alive(i, used) == [] && Calls(m, i, u, trace) == trace
    ensures Dead(i, used) && i.Call? ==> var j := i.(result := None);
      Alive(i, used) == [j] && !IsTerminator(j) && Effect(m, j, u, trace) == u && Calls(m, j, u, trace) == Calls(m, i, u, trace)
  {
    hide IsTemp, ValuesOf;
  }

  lemma {:induction false} AliveTransfer(m: Machine, body: Body, used: set<string>, target: string, s: Store, u: Store, trace: seq<Event>, fuel: nat)
    requires ReadsIn(body, used) && Alike(m, used, s, u) && m.homes == map[]
    ensures EndAlike(m, used, Transfer(m, body, target, s, trace, fuel), Transfer(m, AliveOf(body, used), target, u, trace, fuel))
    decreases fuel, 0
  {
    TransferIs(m, body, target, s, trace, fuel);
    TransferIs(m, AliveOf(body, used), target, u, trace, fuel);
    hide Eval, Transfer, From, AliveOf, Alike;
    AliveFrom(body, used, target);
    ReadsInFrom(body, used, target);
    if fuel > 0 { AliveRuns(m, body, used, From(body, target), s, u, trace, fuel - 1); }
  }

  lemma NothingLeft(m: Machine, a: Body, b: Body, s: Store, u: Store, trace: seq<Event>, fuel: nat)
    ensures Eval(m, a, [], s, trace, fuel) == Finished(None, s, trace) && Eval(m, b, [], u, trace, fuel) == Finished(None, u, trace)
  {
  }

  /** Dead code changes nothing but the names it writes. */
  lemma {:induction false} AliveRuns(m: Machine, body: Body, used: set<string>, rest: Body, s: Store, u: Store, trace: seq<Event>, fuel: nat)
    requires ReadsIn(body, used) && ReadsIn(rest, used) && Alike(m, used, s, u) && m.homes == map[]
    ensures EndAlike(m, used, Eval(m, body, rest, s, trace, fuel), Eval(m, AliveOf(body, used), AliveOf(rest, used), u, trace, fuel))
    decreases fuel, |rest| + 1
  {
    hide Eval, Transfer, Effect, Calls, Holds, AliveOf, Alive, ReadsIn, Alike, Dead, Uses, From, ValueOf;
    var body' := AliveOf(body, used);
    if rest == [] {
      AliveEnds([], used);
      NothingLeft(m, body, body', s, u, trace, fuel);
    } else {
      var i, tail := rest[0], rest[1..];
      var tail' := AliveOf(tail, used);
      assert rest == [i] + tail;
      AliveCons(i, tail, used);
      ReadsInTail(rest, used);
      AliveDead(m, i, used, u, trace);
      AlikeCalls(m, used, i, s, u, trace);
      if Branches(i) {
        AliveTransfer(m, body, used, i.target, s, u, trace, fuel);
        if i.BranchFalse? {
          AliveRuns(m, body, used, tail, s, u, trace, fuel);
          EvalBranch(m, body, i, tail, s, trace, fuel);
          EvalBranch(m, body', i, tail', u, trace, fuel);
        } else {
          EvalJump(m, body, i.target, tail, s, trace, fuel);
          EvalJump(m, body', i.target, tail', u, trace, fuel);
        }
      } else if IsTerminator(i) {
        EvalReturn(m, body, i, tail, s, trace, fuel);
        EvalReturn(m, body', i, tail', u, trace, fuel);
      } else {
        AlikeEffect(m, used, i, s, u, trace);
        EvalPlain(m, body, i, tail, s, trace, fuel);
        var c := Calls(m, i, s, trace);
        if !Dead(i, used) {
          AliveRuns(m, body, used, tail, Effect(m, i, s, trace), Effect(m, i, u, trace), c, fuel);
          EvalPlain(m, body', i, tail', u, trace, fuel);
        } else {
          AliveRuns(m, body, used, tail, Effect(m, i, s, trace), u, c, fuel);
          if i.Call? { EvalPlain(m, body', i.(result := None), tail', u, trace, fuel); } else { assert [] + tail' == tail'; }
        }
      }
    }
  }

  // ----- The same conduct -----

  /** What one run does, another that may go on longer does too: the same result,
      the same calls, and the same values of the names that are not temporaries. */
  ghost predicate Covers(m: Machine, a: Result, b: Result) {
    match a
    case Finished(o, s, t) => b.Finished? && b.outcome == o && b.trace == t && forall x :: !IsTemp(x) ==> Read(m, s, x) == Read(m, b.store, x)
    case Exhausted(t) => t <= b.trace
  }

  ghost predicate Covered(m: Machine, b: Body, s: Store, r: Result) {
    exists f: nat :: Covers(m, r, Run(m, b, s, f))
  }

  ghost predicate Follows(m: Machine, a: Body, b: Body) {
    forall s: Store, fuel: nat :: Covered(m, b, s, Run(m, a, s, fuel))
  }

  ghost predicate SameConduct(m: Machine, a: Body, b: Body) {
    Follows(m, a, b) && Follows(m, b, a)
  }

  lemma CoversTransitive(m: Machine, a: Result, b: Result, c: Result)
    requires Covers(m, a, b) && Covers(m, b, c)
    ensures Covers(m, a, c)
  {
    hide Read, IsTemp;
  }

  lemma FollowsTransitive(m: Machine, a: Body, b: Body, c: Body)
    requires Follows(m, a, b) && Follows(m, b, c)
    ensures Follows(m, a, c)
  {
    hide Run, Covers;
    forall s: Store, fuel: nat ensures Covered(m, c, s, Run(m, a, s, fuel)) {
      assert Covered(m, b, s, Run(m, a, s, fuel));
      var g: nat :| Covers(m, Run(m, a, s, fuel), Run(m, b, s, g));
      assert Covered(m, c, s, Run(m, b, s, g));
      var h: nat :| Covers(m, Run(m, b, s, g), Run(m, c, s, h));
      CoversTransitive(m, Run(m, a, s, fuel), Run(m, b, s, g), Run(m, c, s, h));
    }
  }

  lemma SameConductTransitive(m: Machine, a: Body, b: Body, c: Body)
    requires SameConduct(m, a, b) && SameConduct(m, b, c)
    ensures SameConduct(m, a, c)
  {
    hide Follows;
    FollowsTransitive(m, a, b, c);
    FollowsTransitive(m, c, b, a);
  }

  lemma ExtendsCovers(m: Machine, a: Result, b: Result)
    requires Extends(a, b)
    ensures Covers(m, a, b)
  {
  }

  lemma SimulatesFollows(m: Machine, a: Body, b: Body)
    requires Simulates(m, a, b)
    ensures Follows(m, a, b)
  {
    hide Run, Covers, Extends;
    forall s: Store, fuel: nat ensures Covered(m, b, s, Run(m, a, s, fuel)) {
      assert Achieves(m, b, s, Run(m, a, s, fuel));
      var f: nat :| Extends(Run(m, a, s, fuel), Run(m, b, s, f));
      ExtendsCovers(m, Run(m, a, s, fuel), Run(m, b, s, f));
    }
  }

  lemma MeaningIsConduct(m: Machine, a: Body, b: Body)
    requires SameMeaning(m, a, b)
    ensures SameConduct(m, a, b)
  {
    hide Simulates, Follows;
    SimulatesFollows(m, a, b);
    SimulatesFollows(m, b, a);
  }

  lemma RunsAlikeIsConduct(m: Machine, a: Body, b: Body)
    requires RunsAlike(m, a, b)
    ensures SameConduct(m, a, b)
  {
    hide Run, SameMeaning;
    SameRunsSameMeaning(m, a, b);
    MeaningIsConduct(m, a, b);
  }

  lemma EndAlikeCovers(m: Machine, used: set<string>, a: Result, b: Result)
    requires EndAlike(m, used, a, b)
    ensures Covers(m, a, b) && Covers(m, b, a)
  {
    hide Read, IsTemp;
    if a.Finished? {
      forall x | !IsTemp(x) ensures Read(m, a.store, x) == Read(m, b.store, x) { assert Matters(used, x); }
    }
  }

  /** Dead-code elimination keeps the conduct of code without tail calls. */
  lemma WithoutDeadKeeps(m: Machine, body: Body)
    requires m.homes == map[] && forall i :: i in body ==> !i.TailCall?
    ensures SameConduct(m, body, WithoutDead(body))
  {
    var used := UsedNames(body);
    WithoutDeadIs(body);
    var q := AliveOf(body, used);
    assert ReadsIn(body, used) by { NoTailReadsIn(body); }
    hide ReadsIn, AliveOf, Eval, Covers, EndAlike, WithoutDead, UsedNames;
    forall s: Store, fuel: nat ensures Covered(m, q, s, Run(m, body, s, fuel)) && Covered(m, body, s, Run(m, q, s, fuel)) {
      AlikeSelf(m, used, s);
      AliveRuns(m, body, used, body, s, s, [], fuel);
      EndAlikeCovers(m, used, Run(m, body, s, fuel), Run(m, q, s, fuel));
    }
  }

  lemma AlikeSelf(m: Machine, used: set<string>, s: Store)
    ensures Alike(m, used, s, s)
  {
  }

  lemma NoTailReadsIn(body: Body)
    requires forall i :: i in body ==> !i.TailCall?
    ensures ReadsIn(body, UsedNames(body))
  {
    hide Uses;
    forall i | i in body ensures Uses(i) <= UsedNames(body) {
      var k :| 0 <= k < |body| && body[k] == i;
      forall x | x in Uses(i) ensures x in UsedNames(body) { assert x in Reads(body[k]); }
    }
  }

  // ----- Rounds -----

  lemma OrderlyNoTail(body: Body)
    requires Orderly(body)
    ensures forall i :: i in body ==> !i.TailCall?
  {
    hide ReadFirst, CopySteady, IsTemp;
  }

  /** One round keeps the conduct of orderly code and leaves it orderly. */
  lemma RoundKeeps(m: Machine, x: Body, bits: (string, int, int) -> int)
    requires UniqueLabels(x) && Orderly(x) && m.homes == map[] && FoldsAs(m, bits)
    requires SameMeaning(m, Propagated(x, bits), Simplified(Propagated(x, bits)))
    ensures SameConduct(m, x, OneRound(x, bits)) && Orderly(OneRound(x, bits))
  {
    hide *;
    var p := Propagated(x, bits);
    var z := Simplified(p);
    PropagationKeeps(m, x, bits);
    UniqueForwarded(x, bits);
    RunsAlikeIsConduct(m, x, p);
    MeaningIsConduct(m, p, z);
    SameConductTransitive(m, x, p, z);
    SimplifiedOrderly(p);
    OrderlyNoTail(z);
    WithoutDeadKeeps(m, z);
    WithoutDeadOrderly(z);
    OneRoundIs(x, bits);
    SameConductTransitive(m, x, z, OneRound(x, bits));
  }

  lemma ConductSelf(m: Machine, x: Body)
    ensures SameConduct(m, x, x)
  {
    RunsAlikeSelf(m, x);
    hide RunsAlike, SameConduct;
    RunsAlikeIsConduct(m, x, x);
  }

  /** What the rounds so far have kept. */
  ghost predicate Kept(body: Body, bits: (string, int, int) -> int, current: Body) {
    Orderly(body) ==> Orderly(current) && forall m: Machine :: m.homes == map[] && FoldsAs(m, bits) ==> SameConduct(m, body, current)
  }

  lemma KeptSelf(body: Body, bits: (string, int, int) -> int)
    ensures Kept(body, bits, body)
  {
    forall m: Machine { ConductSelf(m, body); }
    hide SameConduct, Orderly, FoldsAs;
  }

  lemma KeptRound(body: Body, bits: (string, int, int) -> int, current: Body)
    requires Kept(body, bits, current) && UniqueLabels(current) && SameOnEveryMachine(Propagated(current, bits), Simplified(Propagated(current, bits)))
    ensures Kept(body, bits, OneRound(current, bits))
  {
    hide Orderly, SameConduct, FoldsAs, UniqueLabels, SameMeaning, Propagated, Simplified, OneRound;
    if Orderly(body) {
      forall m: Machine | m.homes == map[] && FoldsAs(m, bits) ensures SameConduct(m, body, OneRound(current, bits)) && Orderly(OneRound(current, bits)) {
        RoundKeeps(m, current, bits);
        SameConductTransitive(m, body, current, OneRound(current, bits));
      }
      var m := Machine(map[], InIntegers(bits), (l, r) => false, (op, l, r) => false, t => 0);
      IntegersFold(m, bits);
    }
  }

  ghost function InIntegers(bits: (string, int, int) -> int): (string, int, int) -> int {
    (op, a, b) => if op == "+" then a + b else if op == "-" then a - b else if op == "*" then a * b else bits(op, a, b)
  }

  lemma IntegersFold(m: Machine, bits: (string, int, int) -> int)
    requires m.arithmetic == InIntegers(bits)
    ensures FoldsAs(m, bits)
  {
  }

  /** Repeats the three passes until a round changes nothing.  On orderly code the
      result behaves as the input does on every machine that computes in
      integers. */
  method ScalarFixedPoint(body: Body, bits: (string, int, int) -> int) returns (current: Body)
    requires UniqueLabels(body)
    ensures OneRound(current, bits) == current && UniqueLabels(current) && (WellFormed(body) ==> WellFormed(current))
    ensures Normal(current)
    ensures |current| <= |body| && Weight(current) <= Weight(body)
    ensures Orderly(body) ==> Orderly(current)
    ensures Orderly(body) ==> forall m: Machine :: m.homes == map[] && FoldsAs(m, bits) ==> SameConduct(m, body, current)
  {
    hide *;
    current := body;
    var previous: Option<Body> := None;
    KeptSelf(body, bits);
    while previous != Some(current)
      invariant UniqueLabels(current) && |current| <= |body| && Weight(current) <= Weight(body) && Kept(body, bits, current)
      invariant previous.Some? ==> current == OneRound(previous.value, bits)
      invariant WellFormed(body) ==> WellFormed(current)
      decreases |current|, Weight(current), if OneRound(current, bits) == current then 0 else 1, if previous == Some(current) then 0 else 1
    {
      RoundShrinksOrSettles(current, bits);
      RoundKeepsUnique(current, bits);
      OneRoundIs(current, bits);
      previous := Some(current);
      var propagated := Propagate(current, bits);
      UniqueForwarded(current, bits);
      var simplified := SimplifyControlFlow(propagated);
      KeptRound(body, bits, current);
      if WellFormed(body) { RoundWellFormed(current, bits); }
      current := EliminateDeadCode(simplified);
    }
    KeptIs(body, bits, current);
    SettledIsNormal(current, bits);
  }

  lemma KeptIs(body: Body, bits: (string, int, int) -> int, current: Body)
    ensures Kept(body, bits, current) ==
      (Orderly(body) ==> Orderly(current) && forall m: Machine :: m.homes == map[] && FoldsAs(m, bits) ==> SameConduct(m, body, current))
  {
  }
}
