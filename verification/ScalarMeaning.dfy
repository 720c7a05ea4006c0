/** What propagation keeps (cc/ir_optimize.py:556-595): on orderly code no run
    changes.  It does not ask whether the source of a copy is written again, so on
    other code it can go wrong; ForwardingLimits says when. */
module ScalarMeaning {
  import opened Common
  import opened IR
  import opened ControlFlow
  import opened ScalarPipeline
  import opened FirstReads

  // ----- Orderly code -----

  /** Never written, or written by one instruction that comes before every read. */
  ghost predicate Steady(body: Body, x: string) {
    CountDefs(body, x) == 0 || (CountDefs(body, x) == 1 && !ReadFirst(body, body, x))
  }

  /** An instruction that may read `t` behind `before`: a copy into `t` has just run, and
      the instruction neither branches nor copies into a temporary. */
  predicate ReadsBehind(before: Option<Instruction>, i: Instruction, t: string) {
    && before.Some? && before.value.Copy? && before.value.destination == t
    && !Branches(i) && !IsTerminator(i) && !(i.Copy? && IsTemp(i.destination))
  }

  /** Every read of `t` in `code`, which stands behind `before`, is such a one. */
  ghost predicate AtOnce(before: Option<Instruction>, code: Body, t: string)
    decreases |code|
  {
    code == [] || ((t in Uses(code[0]) ==> ReadsBehind(before, code[0], t)) && AtOnce(Some(code[0]), code[1..], t))
  }

  /** `t` is read only by the instruction right behind a copy into it. */
  ghost predicate UsedAtOnce(body: Body, t: string) { AtOnce(None, body, t) }

  /** A temporary is copied from a steady name, or used at once. */
  ghost predicate CopySteady(body: Body, i: Instruction) {
    i.Copy? && IsTemp(i.destination) && i.source.Name? ==> Steady(body, i.source.id) || UsedAtOnce(body, i.destination)
  }

  /** Every temporary is written before it is read, and copies what stays as it is or is
      used at once; there are no tail calls yet. */
  ghost predicate Orderly(body: Body) {
    && (forall x :: IsTemp(x) ==> !ReadFirst(body, body, x))
    && (forall i :: i in body ==> CopySteady(body, i) && !i.TailCall?)
  }

  lemma OrderlyFacts(body: Body, i: Instruction, x: string)
    requires Orderly(body)
    ensures IsTemp(x) ==> !ReadFirst(body, body, x)
    ensures i in body ==> CopySteady(body, i) && !i.TailCall?
  {
    hide CopySteady, IsTemp, ReadFirst;
  }

  /** The machine computes in integers, and with bits as `bits` does. */
  ghost predicate FoldsAs(m: Machine, bits: (string, int, int) -> int) {
    && (forall a, b :: m.arithmetic("+", a, b) == a + b)
    && (forall a, b :: m.arithmetic("-", a, b) == a - b)
    && (forall a, b :: m.arithmetic("*", a, b) == a * b)
    && (forall a, b :: m.arithmetic("&", a, b) == bits("&", a, b))
    && (forall a, b :: m.arithmetic("|", a, b) == bits("|", a, b))
    && (forall a, b :: m.arithmetic("^", a, b) == bits("^", a, b))
  }

  /** The folder computes what such a machine computes. */
  lemma FoldedValue(m: Machine, bits: (string, int, int) -> int, op: string, l: int, r: int)
    requires FoldsAs(m, bits) && Foldable(op)
    ensures FoldValue(op, l, r, bits) == m.arithmetic(op, l, r)
  {
  }

  // ----- Where a name is written -----

  lemma {:induction false} CountNone(body: Body, x: string)
    requires CountDefs(body, x) == 0
    ensures forall k :: 0 <= k < |body| ==> DestinationOf(body[k]) != Some(x)
    decreases |body|
  {
    hide DestinationOf;
    if body != [] {
      CountNone(body[1..], x);
      forall k | 0 <= k < |body| ensures DestinationOf(body[k]) != Some(x) { if k > 0 { assert body[k] == body[1..][k - 1]; } }
    }
  }

  lemma {:induction false} CountOne(body: Body, x: string) returns (d: int)
    requires CountDefs(body, x) == 1
    ensures 0 <= d < |body| && DestinationOf(body[d]) == Some(x)
    ensures forall k :: 0 <= k < |body| && DestinationOf(body[k]) == Some(x) ==> k == d
    decreases |body|
  {
    hide DestinationOf;
    var rest := body[1..];
    if DestinationOf(body[0]) == Some(x) {
      d := 0;
      CountNone(rest, x);
    } else {
      d := CountOne(rest, x);
      d := d + 1;
    }
    forall k | 0 <= k < |body| && DestinationOf(body[k]) == Some(x) ensures k == d { if k > 0 { assert body[k] == rest[k - 1]; } }
  }

  // ----- Positions -----

  ghost predicate At(r: Body, k: int, x: string) {
    0 <= k <= |r| && ReadFirst(r, r[k..], x)
  }

  /** Where control may go from `k`. */
  ghost predicate Goes(r: Body, k: int, next: int) {
    0 <= k < |r| && ((Branches(r[k]) && next == LabelIndex(r, r[k].target)) || (!Unconditional(r[k]) && next == k + 1))
  }

  lemma AtUse(r: Body, k: int, x: string)
    requires 0 <= k < |r| && x in Uses(r[k])
    ensures At(r, k, x)
  {
    assert r[k..] == [r[k]] + r[k + 1..];
    ReadFirstCons(r, r[k], r[k + 1..], x);
    hide ReadFirst, Uses, Defs;
  }

  lemma AtBack(r: Body, k: int, next: int, x: string)
    requires Goes(r, k, next) && At(r, next, x) && x !in Defs(r[k])
    ensures At(r, k, x)
  {
    assert r[k..] == [r[k]] + r[k + 1..];
    ReadFirstCons(r, r[k], r[k + 1..], x);
    hide ReadFirst, Uses, Defs;
  }

  // ----- Names used at once -----

  lemma {:induction false} AtOnceAt(before: Option<Instruction>, code: Body, t: string, k: int)
    requires AtOnce(before, code, t) && 0 <= k < |code| && t in Uses(code[k])
    ensures ReadsBehind(if k == 0 then before else Some(code[k - 1]), code[k], t)
    decreases |code|
  {
    hide Uses, ReadsBehind;
    if k > 0 { AtOnceAt(Some(code[0]), code[1..], t, k - 1); }
  }

  lemma {:induction false} AtOnceFrom(before: Option<Instruction>, code: Body, t: string)
    requires forall k :: 0 <= k < |code| && t in Uses(code[k]) ==> ReadsBehind(Behind(before, code, k), code[k], t)
    ensures AtOnce(before, code, t)
    decreases |code|
  {
    hide Uses, ReadsBehind;
    if code != [] {
      var rest := code[1..];
      forall k | 0 <= k < |rest| && t in Uses(rest[k]) ensures ReadsBehind(Behind(Some(code[0]), rest, k), rest[k], t) {
        var next := k + 1;
        assert rest[k] == code[next] && Behind(Some(code[0]), rest, k) == Behind(before, code, next);
      }
      AtOnceFrom(Some(code[0]), rest, t);
      assert Behind(before, code, 0) == before;
    }
  }

  /** What stands in front of position `k`. */
  function Behind(before: Option<Instruction>, code: Body, k: int): Option<Instruction>
    requires 0 <= k < |code|
  {
    if k == 0 then before else Some(code[k - 1])
  }

  // ----- One forwarded copy -----

  /** Why forwarding may be right: `d` is the only place that may write the source, or
      -1 if none does; or the copy is used at once. */
  datatype Why = Steadily(d: int) | Immediately

  /** The copy at `n` into `t`, written nowhere else. */
  ghost predicate Site(r: Body, n: int, t: string, v: Value, w: Why) {
    && 0 <= n < |r| && r[n] == Copy(t, v) && v != Name(t)
    && (forall k :: 0 <= k < |r| && t in Defs(r[k]) ==> k == n)
    && !ReadFirst(r, r, t)
    && match w
       case Immediately => UsedAtOnce(r, t)
       case Steadily(d) =>
         && -1 <= d < |r|
         && (v.Name? ==> forall k :: 0 <= k < |r| && v.id in Defs(r[k]) ==> k == d)
         && (d >= 0 ==> v.Name? && !ReadFirst(r, r, v.id))
  }

  /** Either neither name matters yet, or where the temporary matters it equals its
      source. */
  ghost predicate Known(m: Machine, r: Body, t: string, v: Value, w: Why, k: int, s: Store) {
    match w
    case Immediately => 0 <= k < |r| && t in Uses(r[k]) ==> Read(m, s, t) == ValueOf(m, s, v)
    case Steadily(d) =>
      || (d >= 0 && v.Name? && !At(r, k, t) && !At(r, k, v.id))
      || ((d >= 0 ==> !At(r, d, t)) && (At(r, k, t) ==> Read(m, s, t) == ValueOf(m, s, v)))
  }

  lemma KnownStart(m: Machine, r: Body, n: int, t: string, v: Value, w: Why, s: Store)
    requires Site(r, n, t, v, w)
    ensures Known(m, r, t, v, w, 0, s)
  {
    assert r[0..] == r;
    hide ReadFirst, Uses, ReadsBehind;
    if w.Immediately? && t in Uses(r[0]) { AtOnceAt(None, r, t, 0); }
  }

  lemma EffectFrame(m: Machine, i: Instruction, s: Store, trace: seq<Event>, x: string)
    requires m.homes == map[] && x !in Defs(i)
    ensures Read(m, Effect(m, i, s, trace), x) == Read(m, s, x)
  {
  }

  lemma EffectValue(m: Machine, i: Instruction, s: Store, trace: seq<Event>, v: Value)
    requires m.homes == map[] && (v.Name? ==> v.id !in Defs(i))
    ensures ValueOf(m, Effect(m, i, s, trace), v) == ValueOf(m, s, v)
  {
    if v.Name? { EffectFrame(m, i, s, trace, v.id); }
    hide Effect, Read;
  }

  lemma CopyHolds(m: Machine, t: string, v: Value, s: Store, trace: seq<Event>)
    requires m.homes == map[] && v != Name(t)
    ensures Read(m, Effect(m, Copy(t, v), s, trace), t) == ValueOf(m, Effect(m, Copy(t, v), s, trace), v)
  {
  }

  lemma SiteCopy(r: Body, n: int, t: string, v: Value, w: Why)
    requires Site(r, n, t, v, w)
    ensures v.Name? ==> v.id in Uses(r[n])
  {
    hide ReadFirst;
  }

  lemma LabelReadsNothing(r: Body, name: string)
    ensures var k := LabelIndex(r, name); 0 <= k <= |r| && (k < |r| ==> r[k].Label? && Uses(r[k]) == {})
  {
  }

  /** Only the step from the copy leads to a read of a name used at once. */
  lemma ImmediateStep(m: Machine, r: Body, n: int, t: string, v: Value, k: int, next: int, s: Store, trace: seq<Event>)
    requires Site(r, n, t, v, Immediately) && Goes(r, k, next) && m.homes == map[]
    ensures Known(m, r, t, v, Immediately, next, Effect(m, r[k], s, trace))
  {
    hide ReadFirst, Effect, Read, Uses, Defs, LabelIndex, AtOnce;
    if Branches(r[k]) { LabelReadsNothing(r, r[k].target); }
    if 0 <= next < |r| && t in Uses(r[next]) {
      AtOnceAt(None, r, t, next);
      CopyWrites(r[k], t);
      CopyHolds(m, t, v, s, trace);
    }
  }

  lemma CopyWrites(i: Instruction, t: string)
    ensures i.Copy? && i.destination == t ==> t in Defs(i)
  {
  }

  /** Known stays known wherever control goes. */
  lemma KnownStep(m: Machine, r: Body, n: int, t: string, v: Value, w: Why, k: int, next: int, s: Store, trace: seq<Event>)
    requires Site(r, n, t, v, w) && Known(m, r, t, v, w, k, s) && Goes(r, k, next) && m.homes == map[]
    ensures Known(m, r, t, v, w, next, Effect(m, r[k], s, trace))
  {
    hide At, ReadFirst, Effect, Read, Uses, Defs, LabelIndex, UsedAtOnce;
    if w.Immediately? { ImmediateStep(m, r, n, t, v, k, next, s, trace); return; }
    var i := r[k];
    var u := Effect(m, i, s, trace);
    if At(r, next, t) && t !in Defs(i) { AtBack(r, k, next, t); }
    if v.Name? && At(r, next, v.id) && v.id !in Defs(i) { AtBack(r, k, next, v.id); }
    if v.Name? && v.id in Uses(i) { AtUse(r, k, v.id); }
    SiteCopy(r, n, t, v, w);
    if k == n {
      CopyHolds(m, t, v, s, trace);
    } else {
      EffectFrame(m, i, s, trace, t);
      if !(v.Name? && v.id in Defs(i)) { EffectValue(m, i, s, trace, v); }
    }
  }

  lemma KnownValue(m: Machine, r: Body, t: string, v: Value, w: Why, k: int, s: Store)
    requires Known(m, r, t, v, w, k, s) && 0 <= k < |r| && t in Uses(r[k])
    ensures Read(m, s, t) == ValueOf(m, s, v)
  {
    AtUse(r, k, t);
    hide ReadFirst, Uses, Read;
  }

  // ----- Instructions that do the same -----

  ghost predicate Matching(m: Machine, i: Instruction, j: Instruction, s: Store, trace: seq<Event>) {
    && i.Jump? == j.Jump? && i.BranchFalse? == j.BranchFalse? && i.Return? == j.Return? && i.TailCall? == j.TailCall?
    && (Branches(i) ==> i.target == j.target)
    && (i.BranchFalse? ==> Holds(m, s, i) == Holds(m, s, j))
    && (i.Return? ==> i.value.Some? == j.value.Some? && (i.value.Some? ==> ValueOf(m, s, i.value.value) == ValueOf(m, s, j.value.value)))
    && Calls(m, i, s, trace) == Calls(m, j, s, trace)
    && Effect(m, i, s, trace) == Effect(m, j, s, trace)
  }

  lemma EvalReturn(m: Machine, body: Body, i: Instruction, rest: Body, s: Store, trace: seq<Event>, fuel: nat)
    ensures i.Return? ==> Eval(m, body, [i] + rest, s, trace, fuel) == Finished(if i.value.Some? then Some(ValueOf(m, s, i.value.value)) else None, s, trace)
    ensures i.TailCall? ==> Eval(m, body, [i] + rest, s, trace, fuel) == Finished(Some(m.answer(Calls(m, i, s, trace))), s, Calls(m, i, s, trace))
  {
  }

  lemma StepSame(m: Machine, a: Body, b: Body, i: Instruction, j: Instruction, t: Body, u: Body, s: Store, trace: seq<Event>, fuel: nat)
    requires Matching(m, i, j, s, trace)
    requires i.Jump? || (i.BranchFalse? && !Holds(m, s, i)) ==> Transfer(m, a, i.target, s, trace, fuel) == Transfer(m, b, i.target, s, trace, fuel)
    requires !IsTerminator(i) ==>
      Eval(m, a, t, Effect(m, i, s, trace), Calls(m, i, s, trace), fuel) == Eval(m, b, u, Effect(m, i, s, trace), Calls(m, i, s, trace), fuel)
    requires i.BranchFalse? && Holds(m, s, i) ==> Eval(m, a, t, s, trace, fuel) == Eval(m, b, u, s, trace, fuel)
    ensures Eval(m, a, [i] + t, s, trace, fuel) == Eval(m, b, [j] + u, s, trace, fuel)
  {
    hide Eval, Transfer, Effect, Calls, Holds;
    if i.Jump? {
      EvalJump(m, a, i.target, t, s, trace, fuel);
      EvalJump(m, b, i.target, u, s, trace, fuel);
    } else if i.BranchFalse? {
      EvalBranch(m, a, i, t, s, trace, fuel);
      EvalBranch(m, b, j, u, s, trace, fuel);
    } else if IsTerminator(i) {
      EvalReturn(m, a, i, t, s, trace, fuel);
      EvalReturn(m, b, j, u, s, trace, fuel);
    } else {
      EvalPlain(m, a, i, t, s, trace, fuel);
      EvalPlain(m, b, j, u, s, trace, fuel);
    }
  }

  lemma ValueSubst(m: Machine, s: Store, w: Value, t: string, v: Value)
    requires t in NamesOf(w) ==> Read(m, s, t) == ValueOf(m, s, v)
    ensures ValueOf(m, s, SubstValue(w, t, v)) == ValueOf(m, s, w)
  {
  }

  lemma ValuesSubst(m: Machine, s: Store, ws: seq<Value>, t: string, v: Value)
    requires t in NamesOfAll(ws) ==> Read(m, s, t) == ValueOf(m, s, v)
    ensures ValuesOf(m, s, SubstValues(ws, t, v)) == ValuesOf(m, s, ws)
  {
    forall k | 0 <= k < |ws| ensures ValueOf(m, s, SubstValue(ws[k], t, v)) == ValueOf(m, s, ws[k]) { ValueSubst(m, s, ws[k], t, v); }
    hide ValueOf, SubstValue;
  }

  /** Substituting an equal value changes nothing that an instruction does. */
  lemma SubstMatches(m: Machine, i: Instruction, t: string, v: Value, s: Store, trace: seq<Event>)
    requires t in Uses(i) ==> Read(m, s, t) == ValueOf(m, s, v)
    ensures Matching(m, i, Subst(i, t, v), s, trace)
  {
    hide Read, Write, ValueOf, SubstValue, SubstValues, Compare, ValuesOf, NamesOfAll, NamesOf;
    match i
    case Copy(_, w) => ValueSubst(m, s, w, t, v);
    case BinaryOperation(_, l, _, r) => ValueSubst(m, s, l, t, v); ValueSubst(m, s, r, t, v);
    case BranchFalse(l, _, r, _) => ValueSubst(m, s, l, t, v); ValueSubst(m, s, r, t, v);
    case Call(_, args, _) => ValuesSubst(m, s, args, t, v);
    case Return(w) => if w.Some? { ValueSubst(m, s, w.value, t, v); }
    case _ =>
  }

  /** The body with the copy at `n` forwarded. */
  ghost predicate ForwardedAt(r: Body, n: int, t: string, v: Value, q: Body) {
    |q| == |r| && forall k :: 0 <= k < |r| ==> q[k] == if k > n then Subst(r[k], t, v) else r[k]
  }

  lemma {:induction false} SameLabelIndex(a: Body, b: Body, name: string)
    requires |a| == |b| && forall k :: 0 <= k < |a| ==> a[k].Label? == b[k].Label? && (a[k].Label? ==> a[k] == b[k])
    ensures LabelIndex(a, name) == LabelIndex(b, name)
    decreases |a|
  {
    if a != [] {
      var a', b' := a[1..], b[1..];
      forall k | 0 <= k < |a'| ensures a'[k].Label? == b'[k].Label? && (a'[k].Label? ==> a'[k] == b'[k]) { assert a'[k] == a[k + 1] && b'[k] == b[k + 1]; }
      SameLabelIndex(a', b', name);
    }
  }

  lemma ForwardedShape(r: Body, n: int, t: string, v: Value, q: Body)
    requires ForwardedAt(r, n, t, v, q)
    ensures |q| == |r| && forall k :: 0 <= k < |r| ==> SameShape(r[k], q[k]) && q[k].TailCall? == r[k].TailCall?
  {
    hide Subst;
    forall k | 0 <= k < |r| ensures SameShape(r[k], q[k]) && q[k].TailCall? == r[k].TailCall? {
      SubstSameShape(r[k], t, v);
      SubstTailCall(r[k], t, v);
    }
  }

  lemma SubstTailCall(i: Instruction, t: string, v: Value)
    ensures Subst(i, t, v).TailCall? == i.TailCall?
  {
  }

  lemma ForwardedLabels(r: Body, n: int, t: string, v: Value, q: Body, name: string)
    requires ForwardedAt(r, n, t, v, q)
    ensures LabelIndex(q, name) == LabelIndex(r, name)
  {
    ForwardedShape(r, n, t, v, q);
    hide ForwardedAt, Weighs, DestinationOf;
    SameLabelIndex(r, q, name);
  }

  lemma PositionMatches(m: Machine, r: Body, n: int, t: string, v: Value, w: Why, q: Body, k: int, s: Store, trace: seq<Event>)
    requires ForwardedAt(r, n, t, v, q) && Known(m, r, t, v, w, k, s) && 0 <= k < |r|
    ensures Matching(m, r[k], q[k], s, trace)
  {
    hide Known, Uses, Subst, Matching, ValueOf, Read;
    if t in Uses(r[k]) { KnownValue(m, r, t, v, w, k, s); }
    SubstMatches(m, r[k], t, v, s, trace);
    MatchingSelf(m, r[k], s, trace);
  }

  lemma MatchingSelf(m: Machine, i: Instruction, s: Store, trace: seq<Event>)
    ensures Matching(m, i, i, s, trace)
  {
  }

  lemma {:induction false} ForwardedTransfer(m: Machine, r: Body, n: int, t: string, v: Value, w: Why, q: Body, k: int, s: Store, trace: seq<Event>, fuel: nat)
    requires Site(r, n, t, v, w) && ForwardedAt(r, n, t, v, q) && m.homes == map[] && 0 <= k < |r| && Branches(r[k]) && Known(m, r, t, v, w, k, s)
    ensures Transfer(m, q, r[k].target, s, trace, fuel) == Transfer(m, r, r[k].target, s, trace, fuel)
    decreases fuel, 0
  {
    var target := r[k].target;
    var next := LabelIndex(r, target);
    ForwardedLabels(r, n, t, v, q, target);
    assert Goes(r, k, next);
    KnownStep(m, r, n, t, v, w, k, next, s, trace);
    assert Effect(m, r[k], s, trace) == s;
    hide Site, Known, ForwardedAt, Eval, Effect;
    if fuel > 0 { ForwardedRuns(m, r, n, t, v, w, q, next, s, trace, fuel - 1); }
  }

  lemma AtTheEnd(m: Machine, r: Body, s: Store, trace: seq<Event>, fuel: nat)
    ensures Eval(m, r, [], s, trace, fuel) == Finished(None, s, trace)
  {
  }

  /** Forwarding one copy changes no run, not even the fuel it uses. */
  lemma {:induction false} ForwardedRuns(m: Machine, r: Body, n: int, t: string, v: Value, w: Why, q: Body, k: int, s: Store, trace: seq<Event>, fuel: nat)
    requires Site(r, n, t, v, w) && ForwardedAt(r, n, t, v, q) && m.homes == map[] && 0 <= k <= |r| == |q| && Known(m, r, t, v, w, k, s)
    ensures Eval(m, q, q[k..], s, trace, fuel) == Eval(m, r, r[k..], s, trace, fuel)
    decreases fuel, |r| - k + 1
  {
    hide Site, Known, ForwardedAt, Eval, Transfer, Effect, Calls, Holds, LabelIndex;
    if k == |r| {
      AtTheEnd(m, r, s, trace, fuel);
      AtTheEnd(m, q, s, trace, fuel);
      assert r[k..] == [] && q[k..] == [];
      return;
    }
    var i, j := r[k], q[k];
    assert r[k..] == [i] + r[k + 1..] && q[k..] == [j] + q[k + 1..];
    PositionMatches(m, r, n, t, v, w, q, k, s, trace);
    if Branches(i) { ForwardedTransfer(m, r, n, t, v, w, q, k, s, trace, fuel); }
    if !Unconditional(i) {
      KnownStep(m, r, n, t, v, w, k, k + 1, s, trace);
      BranchEffect(m, i, s, trace);
      if i.BranchFalse? { ForwardedRuns(m, r, n, t, v, w, q, k + 1, s, trace, fuel); }
      else { ForwardedRuns(m, r, n, t, v, w, q, k + 1, Effect(m, i, s, trace), Calls(m, i, s, trace), fuel); }
    }
    StepSame(m, r, q, i, j, r[k + 1..], q[k + 1..], s, trace, fuel);
  }

  lemma BranchEffect(m: Machine, i: Instruction, s: Store, trace: seq<Event>)
    ensures Branches(i) ==> Effect(m, i, s, trace) == s
  {
  }

  // ----- Forwarding keeps code orderly -----

  lemma ForwardedUses(i: Instruction, t: string, v: Value, x: string)
    requires x in Uses(Subst(i, t, v))
    ensures x in Uses(i) || (v == Name(x) && t in Uses(i))
  {
    if i.Call? { SubstArgsUses(i.args, t, v, x); }
  }

  lemma SubstArgsUses(vs: seq<Value>, t: string, v: Value, x: string)
    requires x in NamesOfAll(SubstValues(vs, t, v))
    ensures x in NamesOfAll(vs) || (v == Name(x) && t in NamesOfAll(vs))
  {
    var ws := SubstValues(vs, t, v);
    var k :| 0 <= k < |ws| && ws[k] == Name(x);
    assert ws[k] == SubstValue(vs[k], t, v);
  }

  lemma {:induction false} ForwardedReads(r: Body, n: int, t: string, v: Value, q: Body, k: int, x: string, fuel: nat)
    requires 0 <= n < |r| && r[n] == Copy(t, v) && (forall k :: 0 <= k < |r| && t in Defs(r[k]) ==> k == n)
    requires ForwardedAt(r, n, t, v, q) && 0 <= k <= |r| == |q| && MayRead(q, q[k..], x, fuel)
    ensures At(r, k, x) || (v == Name(x) && At(r, k, t))
    decreases fuel, |r| - k
  {
    hide MayRead, At, Uses, Defs, LabelIndex, Subst, SubstValue, ForwardedAt;
    MayReadNone(q, x, fuel);
    assert k < |r|;
    var i, j := r[k], q[k];
    assert q[k..] == [j] + q[k + 1..];
    MayReadCons(q, j, q[k + 1..], x, fuel);
    PlaceShape(r, n, t, v, q, k);
    if x in Uses(j) {
      PlaceUses(r, n, t, v, q, k, x);
      if x in Uses(i) { AtUse(r, k, x); }
      if t in Uses(i) { AtUse(r, k, t); }
    } else {
      var next := if Branches(j) && fuel > 0 && MayRead(q, From(q, j.target), x, fuel - 1) then LabelIndex(r, j.target) else k + 1;
      if Branches(j) { ForwardedLabels(r, n, t, v, q, j.target); }
      assert Goes(r, k, next);
      if next == k + 1 && MayRead(q, q[k + 1..], x, fuel) { ForwardedReads(r, n, t, v, q, k + 1, x, fuel); }
      else { ForwardedReads(r, n, t, v, q, next, x, fuel - 1); }
      if At(r, next, x) { AtBack(r, k, next, x); }
      else if t in Defs(i) { CopyUses(t, v); AtUse(r, k, x); }
      else { AtBack(r, k, next, t); }
    }
  }

  lemma CopyUses(t: string, v: Value)
    ensures v.Name? ==> v.id in Uses(Copy(t, v))
  {
  }

  lemma PlaceShape(r: Body, n: int, t: string, v: Value, q: Body, k: int)
    requires ForwardedAt(r, n, t, v, q) && 0 <= k < |r| == |q|
    ensures Defs(q[k]) == Defs(r[k]) && Branches(q[k]) == Branches(r[k]) && Unconditional(q[k]) == Unconditional(r[k])
    ensures Branches(r[k]) ==> q[k].target == r[k].target
  {
    hide SubstValue, SubstValues;
  }

  lemma PlaceUses(r: Body, n: int, t: string, v: Value, q: Body, k: int, x: string)
    requires ForwardedAt(r, n, t, v, q) && 0 <= k < |r| == |q| && x in Uses(q[k])
    ensures x in Uses(r[k]) || (v == Name(x) && t in Uses(r[k]))
  {
    hide Uses, Subst;
    if k > n { ForwardedUses(r[k], t, v, x); }
  }

  lemma ForwardedReadsNoMore(r: Body, n: int, t: string, v: Value, w: Why, q: Body)
    requires Site(r, n, t, v, w) && ForwardedAt(r, n, t, v, q)
    ensures ReadsNoMore(r, q)
  {
    hide MayRead, Uses, Defs;
    assert q[0..] == q && r[0..] == r;
    forall x, fuel: nat | MayRead(q, q, x, fuel) ensures ReadFirst(r, r, x) {
      ForwardedReads(r, n, t, v, q, 0, x, fuel);
      hide ReadFirst;
    }
    hide ReadFirst, Site, ForwardedAt;
    ReadsNoMoreFrom(r, q);
  }

  lemma SteadyStays(a: Body, b: Body, x: string)
    requires Steady(a, x) && CountDefs(b, x) <= CountDefs(a, x) && ReadsNoMore(a, b)
    ensures Steady(b, x)
  {
    hide ReadFirst;
  }

  lemma CopySubst(i: Instruction, t: string, v: Value)
    ensures var j := Subst(i, t, v); j.Copy? == i.Copy? && (j.Copy? ==> j.destination == i.destination && j.source == if i.source == Name(t) then v else i.source)
  {
  }

  /** A name used at once is not copied into a temporary. */
  lemma NotIntoTemp(r: Body, t: string, k: int)
    requires 0 <= k < |r| && r[k].Copy? && r[k].source == Name(t) && IsTemp(r[k].destination)
    ensures !UsedAtOnce(r, t)
  {
    if UsedAtOnce(r, t) { AtOnceAt(None, r, t, k); }
    hide AtOnce, IsTemp;
  }

  lemma BehindForwarded(r: Body, n: int, t: string, v: Value, q: Body, k: int, x: string)
    requires ForwardedAt(r, n, t, v, q) && 0 <= k < |r| && ReadsBehind(Behind(None, r, k), r[k], x)
    ensures k < |q| && ReadsBehind(Behind(None, q, k), q[k], x)
  {
    hide SubstValue, SubstValues, IsTemp;
  }

  /** Forwarding another copy leaves a name used at once. */
  lemma ForwardedAtOnce(r: Body, n: int, t: string, v: Value, q: Body, x: string)
    requires 0 <= n < |r| && r[n] == Copy(t, v) && IsTemp(t) && ForwardedAt(r, n, t, v, q) && UsedAtOnce(r, x)
    ensures UsedAtOnce(q, x)
  {
    hide Uses, ReadsBehind, AtOnce, IsTemp, ForwardedAt;
    if v == Name(x) { NotIntoTemp(r, x, n); }
    SameLength(r, n, t, v, q);
    forall k | 0 <= k < |q| && x in Uses(q[k]) ensures ReadsBehind(Behind(None, q, k), q[k], x) {
      PlaceUses(r, n, t, v, q, k, x);
      AtOnceAt(None, r, x, k);
      BehindForwarded(r, n, t, v, q, k, x);
    }
    AtOnceFrom(None, q, x);
  }

  /** Orderly code stays orderly. */
  lemma ForwardedOrderly(r: Body, n: int, t: string, v: Value, w: Why, q: Body)
    requires Orderly(r) && IsTemp(t) && Site(r, n, t, v, w) && ForwardedAt(r, n, t, v, q)
    ensures Orderly(q) && forall x :: CountDefs(q, x) == CountDefs(r, x)
  {
    ForwardedShape(r, n, t, v, q);
    forall x ensures CountDefs(q, x) == CountDefs(r, x) { hide Weighs; CountSame(r, q, x); }
    ForwardedReadsNoMore(r, n, t, v, w, q);
    assert r[n] in r && r[n] == Copy(t, v);
    hide ReadFirst, CountDefs, SameShape, Steady, IsTemp, Site, Subst, UsedAtOnce;
    OrderlyFacts(r, r[n], t);
    forall i | i in q ensures CopySteady(q, i) && !i.TailCall? {
      var k :| 0 <= k < |q| && q[k] == i;
      OrderlyFacts(r, r[k], t);
      CopySubst(r[k], t, v);
      if i.Copy? && IsTemp(i.destination) && i.source.Name? {
        if Steady(r, i.source.id) {
          SteadyStays(r, q, i.source.id);
        } else {
          if i.source != r[k].source { NotIntoTemp(r, t, k); }
          ForwardedAtOnce(r, n, t, v, q, i.destination);
        }
      }
    }
  }

  // ----- Propagation -----

  /** Everything forwarded is written once. */
  ghost predicate Counted(r: Body, single: set<string>) {
    forall x :: x in single ==> CountDefs(r, x) == 1
  }

  lemma SiteFound(r: Body, n: int, single: set<string>) returns (w: Why)
    requires Orderly(r) && Counted(r, single) && 0 <= n < |r| && Forwards(r[n], single) && r[n].source != Name(r[n].destination)
    ensures Site(r, n, r[n].destination, r[n].source, w)
  {
    var t, v := r[n].destination, r[n].source;
    hide ReadFirst, DestinationOf, Defs, AtOnce;
    OrderlyFacts(r, r[n], t);
    CopyDestination(t, v);
    var only := CountOne(r, t);
    forall k | 0 <= k < |r| ensures Defs(r[k]) == if DestinationOf(r[k]).Some? then {DestinationOf(r[k]).value} else {} { DestinationDefs(r[k]); }
    w := Steadily(-1);
    if v.Name? {
      if !Steady(r, v.id) {
        w := Immediately;
      } else if CountDefs(r, v.id) == 0 {
        CountNone(r, v.id);
      } else {
        var d := CountOne(r, v.id);
        w := Steadily(d);
      }
    }
  }

  lemma CopyDestination(t: string, v: Value)
    ensures DestinationOf(Copy(t, v)) == Some(t)
  {
  }

  lemma SelfForward(r: Body, n: int, single: set<string>)
    requires 0 <= n < |r|
    ensures !Forwards(r[n], single) || r[n].source == Name(r[n].destination) ==> ForwardAt(r, n, single) == r
    ensures Forwards(r[n], single) ==> ForwardedAt(r, n, r[n].destination, r[n].source, ForwardAt(r, n, single)) && IsTemp(r[n].destination)
  {
    if Forwards(r[n], single) && r[n].source == Name(r[n].destination) {
      forall k | 0 <= k < |r| ensures Subst(r[k], r[n].destination, r[n].source) == r[k] { SubstReads(r[k], r[n].destination, r[n].source); }
    }
    hide Subst, IsTemp;
  }

  ghost predicate RunsAlike(m: Machine, a: Body, b: Body) {
    forall s: Store, fuel: nat :: Run(m, b, s, fuel) == Run(m, a, s, fuel)
  }

  /** One forwarding step. */
  lemma ForwardAtKeeps(m: Machine, r: Body, n: int, single: set<string>)
    requires Orderly(r) && Counted(r, single) && 0 <= n < |r| && m.homes == map[]
    ensures var q := ForwardAt(r, n, single); Orderly(q) && Counted(q, single) && RunsAlike(m, r, q)
  {
    hide *;
    var q := ForwardAt(r, n, single);
    SelfForward(r, n, single);
    if Forwards(r[n], single) { ForwardsCopy(r[n], single); }
    if Forwards(r[n], single) && r[n].source != Name(r[n].destination) {
      var t, v := r[n].destination, r[n].source;
      var w := SiteFound(r, n, single);
      ForwardedOrderly(r, n, t, v, w, q);
      CountedSame(r, q, single);
      forall s: Store, fuel: nat ensures Run(m, q, s, fuel) == Run(m, r, s, fuel) {
        KnownStart(m, r, n, t, v, w, s);
        SameLength(r, n, t, v, q);
        ForwardedRuns(m, r, n, t, v, w, q, 0, s, [], fuel);
        RunIs(m, r, s, fuel);
        RunIs(m, q, s, fuel);
      }
      RunsAlikeFrom(m, r, q);
    } else {
      RunsAlikeFrom(m, r, q);
    }
  }

  lemma SameLength(r: Body, n: int, t: string, v: Value, q: Body)
    requires ForwardedAt(r, n, t, v, q)
    ensures |q| == |r|
  {
  }

  lemma RunIs(m: Machine, r: Body, s: Store, fuel: nat)
    ensures Run(m, r, s, fuel) == Eval(m, r, r[0..], s, [], fuel)
  {
    assert r[0..] == r;
  }

  lemma RunsAlikeFrom(m: Machine, a: Body, b: Body)
    requires forall s: Store, fuel: nat :: Run(m, b, s, fuel) == Run(m, a, s, fuel)
    ensures RunsAlike(m, a, b)
  {
  }

  lemma CountedSame(r: Body, q: Body, single: set<string>)
    requires Counted(r, single) && forall x :: CountDefs(q, x) == CountDefs(r, x)
    ensures Counted(q, single)
  {
  }

  lemma RunsAlikeTransitive(m: Machine, a: Body, b: Body, c: Body)
    requires RunsAlike(m, a, b) && RunsAlike(m, b, c)
    ensures RunsAlike(m, a, c)
  {
    hide Run;
  }

  lemma {:induction false} ForwardFromKeeps(m: Machine, r: Body, n: nat, single: set<string>)
    requires Orderly(r) && Counted(r, single) && n <= |r| && m.homes == map[]
    ensures var q := ForwardFrom(r, n, single); Orderly(q) && RunsAlike(m, r, q)
    decreases |r| - n
  {
    hide Orderly, Counted, RunsAlike, ForwardAt;
    if n < |r| {
      ForwardAtKeeps(m, r, n, single);
      ForwardFromKeeps(m, ForwardAt(r, n, single), n + 1, single);
      RunsAlikeTransitive(m, r, ForwardAt(r, n, single), ForwardFrom(r, n, single));
    } else {
      RunsAlikeSelf(m, r);
    }
  }

  lemma RunsAlikeSelf(m: Machine, r: Body)
    ensures RunsAlike(m, r, r)
  {
  }

  lemma FoldMatches(m: Machine, i: Instruction, bits: (string, int, int) -> int, s: Store, trace: seq<Event>)
    requires FoldsAs(m, bits)
    ensures Matching(m, i, FoldOperation(i, bits), s, trace)
  {
    if i.BinaryOperation? && i.left.Literal? && i.right.Literal? && Foldable(i.operation) {
      FoldedValue(m, bits, i.operation, i.left.n, i.right.n);
    }
    hide Compare, FoldValue, Read, Write, ValuesOf, Foldable, FoldsAs;
  }

  lemma FoldShape(i: Instruction, bits: (string, int, int) -> int)
    ensures var j := FoldOperation(i, bits);
      && DestinationOf(j) == DestinationOf(i) && Defs(j) == Defs(i) && Uses(j) <= Uses(i) && j.Label? == i.Label? && (i.Label? ==> j == i)
      && Branches(j) == Branches(i) && Unconditional(j) == Unconditional(i) && (Branches(i) ==> j.target == i.target)
      && j.TailCall? == i.TailCall? && (j.Copy? && j.source.Name? ==> i == j)
  {
    hide FoldValue, Foldable;
  }

  lemma FoldAt(r: Body, bits: (string, int, int) -> int)
    ensures |FoldOperations(r, bits)| == |r| && forall k :: 0 <= k < |r| ==> FoldOperations(r, bits)[k] == FoldOperation(r[k], bits)
  {
    hide FoldOperation;
  }

  lemma FoldLabels(r: Body, bits: (string, int, int) -> int, name: string)
    ensures LabelIndex(FoldOperations(r, bits), name) == LabelIndex(r, name)
  {
    FoldAt(r, bits);
    hide FoldOperations, FoldOperation;
    forall k | 0 <= k < |r| { FoldShape(r[k], bits); }
    SameLabelIndex(r, FoldOperations(r, bits), name);
  }

  lemma {:induction false} FoldTransfer(m: Machine, r: Body, bits: (string, int, int) -> int, target: string, s: Store, trace: seq<Event>, fuel: nat)
    requires FoldsAs(m, bits)
    ensures Transfer(m, FoldOperations(r, bits), target, s, trace, fuel) == Transfer(m, r, target, s, trace, fuel)
    decreases fuel, 0
  {
    FoldLabels(r, bits, target);
    hide FoldsAs, Eval, FoldOperations;
    if fuel > 0 { FoldRuns(m, r, bits, LabelIndex(r, target), s, trace, fuel - 1); }
  }

  lemma {:induction false} FoldRuns(m: Machine, r: Body, bits: (string, int, int) -> int, k: int, s: Store, trace: seq<Event>, fuel: nat)
    requires FoldsAs(m, bits) && 0 <= k <= |r|
    ensures |FoldOperations(r, bits)| == |r| && Eval(m, FoldOperations(r, bits), FoldOperations(r, bits)[k..], s, trace, fuel) == Eval(m, r, r[k..], s, trace, fuel)
    decreases fuel, |r| - k + 1
  {
    FoldAt(r, bits);
    if k == |r| { return; }
    hide FoldsAs, Eval, Transfer, Effect, Calls, Holds, FoldOperations, FoldOperation, Matching;
    var q := FoldOperations(r, bits);
    var i, j := r[k], q[k];
    assert r[k..] == [i] + r[k + 1..] && q[k..] == [j] + q[k + 1..];
    FoldMatches(m, i, bits, s, trace);
    if Branches(i) { FoldTransfer(m, r, bits, i.target, s, trace, fuel); }
    if i.BranchFalse? { FoldRuns(m, r, bits, k + 1, s, trace, fuel); }
    else if !Unconditional(i) { FoldRuns(m, r, bits, k + 1, Effect(m, i, s, trace), Calls(m, i, s, trace), fuel); }
    StepSame(m, r, q, i, j, r[k + 1..], q[k + 1..], s, trace, fuel);
  }

  lemma {:induction false} FoldReads(r: Body, bits: (string, int, int) -> int, k: int, x: string, fuel: nat)
    requires 0 <= k <= |r| && |FoldOperations(r, bits)| == |r| && MayRead(FoldOperations(r, bits), FoldOperations(r, bits)[k..], x, fuel)
    ensures At(r, k, x)
    decreases fuel, |r| - k
  {
    hide MayRead, At, Uses, Defs, LabelIndex, FoldOperations, FoldOperation;
    var q := FoldOperations(r, bits);
    MayReadNone(q, x, fuel);
    assert k < |r|;
    FoldAt(r, bits);
    var i, j := r[k], q[k];
    assert q[k..] == [j] + q[k + 1..];
    MayReadCons(q, j, q[k + 1..], x, fuel);
    FoldShape(i, bits);
    if x in Uses(i) {
      AtUse(r, k, x);
    } else if Branches(j) && fuel > 0 && MayRead(q, From(q, j.target), x, fuel - 1) {
      var next := LabelIndex(r, j.target);
      FoldLabels(r, bits, j.target);
      FoldReads(r, bits, next, x, fuel - 1);
      AtBack(r, k, next, x);
    } else {
      FoldReads(r, bits, k + 1, x, fuel);
      AtBack(r, k, k + 1, x);
    }
  }

  lemma FoldOrderly(r: Body, bits: (string, int, int) -> int)
    requires Orderly(r)
    ensures Orderly(FoldOperations(r, bits))
  {
    var q := FoldOperations(r, bits);
    FoldAt(r, bits);
    hide FoldOperations, FoldOperation, MayRead;
    assert q[0..] == q && r[0..] == r;
    forall x, fuel: nat | MayRead(q, q, x, fuel) ensures ReadFirst(r, r, x) { FoldReads(r, bits, 0, x, fuel); }
    hide ReadFirst, Steady, IsTemp, UsedAtOnce;
    ReadsNoMoreFrom(r, q);
    forall k | 0 <= k < |r| ensures DestinationOf(r[k]) == DestinationOf(q[k]) && q[k].TailCall? == r[k].TailCall? && (q[k].Copy? && q[k].source.Name? ==> r[k] == q[k]) {
      FoldShape(r[k], bits);
    }
    hide DestinationOf;
    forall x ensures CountDefs(q, x) == CountDefs(r, x) { CountSame(r, q, x); }
    hide CountDefs;
    forall i | i in q ensures CopySteady(q, i) && !i.TailCall? {
      var k :| 0 <= k < |q| && q[k] == i;
      assert r[k] in r;
      if i.Copy? && IsTemp(i.destination) && i.source.Name? {
        if Steady(r, i.source.id) { SteadyStays(r, q, i.source.id); } else { FoldAtOnce(r, bits, i.destination); }
      }
    }
  }

  lemma FoldBehind(before: Option<Instruction>, i: Instruction, bits: (string, int, int) -> int, t: string)
    ensures var j := FoldOperation(i, bits);
      t in Uses(j) ==> i == j
    ensures i.Copy? ==> FoldOperation(i, bits) == i
  {
    hide FoldValue, Foldable;
  }

  lemma FoldAtOnce(r: Body, bits: (string, int, int) -> int, t: string)
    requires UsedAtOnce(r, t)
    ensures UsedAtOnce(FoldOperations(r, bits), t)
  {
    hide Uses, AtOnce, IsTemp, FoldOperation, FoldOperations, Branches, IsTerminator;
    var q := FoldOperations(r, bits);
    FoldAt(r, bits);
    forall k | 0 <= k < |q| && t in Uses(q[k]) ensures ReadsBehind(Behind(None, q, k), q[k], t) {
      FoldBehind(None, r[k], bits, t);
      AtOnceAt(None, r, t, k);
      if k > 0 { FoldBehind(None, r[k - 1], bits, t); }
    }
    AtOnceFrom(None, q, t);
  }

  lemma SinglesCounted(body: Body)
    ensures Counted(body, Singles(body))
  {
    hide DestinationOf, CountDefs;
  }

  /** Propagation changes no run of orderly code, and leaves it orderly. */
  lemma PropagationKeeps(m: Machine, body: Body, bits: (string, int, int) -> int)
    requires Orderly(body) && m.homes == map[] && FoldsAs(m, bits)
    ensures RunsAlike(m, body, Propagated(body, bits)) && Orderly(Propagated(body, bits))
  {
    var z := ForwardFrom(body, 0, Singles(body));
    var q := FoldOperations(z, bits);
    assert q == Propagated(body, bits);
    SinglesCounted(body);
    hide Orderly, RunsAlike, FoldsAs, Counted, Singles, ForwardFrom, FoldOperations, Propagated;
    ForwardFromKeeps(m, body, 0, Singles(body));
    FoldOrderly(z, bits);
    forall s: Store, fuel: nat ensures Run(m, q, s, fuel) == Run(m, z, s, fuel) {
      FoldRuns(m, z, bits, 0, s, [], fuel);
      RunIs(m, z, s, fuel);
      RunIs(m, q, s, fuel);
      hide Run;
    }
    RunsAlikeFrom(m, z, q);
    RunsAlikeTransitive(m, body, z, q);
  }
}
