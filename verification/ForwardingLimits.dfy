/** When forwarding a copy goes wrong (cc/ir_optimize.py:556-588): propagation does
    not ask whether the source is written between the copy and the use. */
module ForwardingLimits {
  import opened Common
  import opened IR
  import opened ControlFlow
  import opened ScalarPipeline
  import opened FirstReads
  import opened ScalarMeaning

  /** `t = x`, some straight-line code, and `return t`. */
  function CopyThenReturn(t: string, x: string, mid: Body): Body {
    [Copy(t, Name(x))] + mid + [Return(Some(Name(t)))]
  }

  ghost predicate StraightLine(code: Body) {
    forall k :: 0 <= k < |code| ==> !IsTerminator(code[k])
  }

  /** Straight-line code that leaves `t` alone. */
  ghost predicate Between(t: string, mid: Body) {
    StraightLine(mid) && forall k :: 0 <= k < |mid| ==> t !in Defs(mid[k])
  }

  /** Both bodies return the same, whatever the machine and the store. */
  ghost predicate SameAnswers(a: Body, b: Body) {
    forall m: Machine, s: Store, fuel: nat | m.homes == map[] :: SameAnswer(Run(m, a, s, fuel), Run(m, b, s, fuel))
  }

  ghost predicate SameAnswer(a: Result, b: Result) {
    a.Finished? == b.Finished? && (a.Finished? ==> a.outcome == b.outcome)
  }

  // ----- Straight-line code -----

  function Last(code: Body): Instruction
    requires code != []
  {
    code[|code| - 1]
  }

  function Front(code: Body): Body
    requires code != []
  {
    code[..|code| - 1]
  }

  /** The variable whose value at the start of `code` is in `x` at its end, found by
      following copies back; none if a constant, an operation or a call comes in. */
  function Origin(code: Body, x: string): Option<string>
    decreases |code|
  {
    if code == [] then Some(x)
    else if x !in Defs(Last(code)) then Origin(Front(code), x)
    else if Last(code).Copy? && Last(code).source.Name? then Origin(Front(code), Last(code).source.id)
    else None
  }

  /** The store and the calls behind `code`. */
  function After(m: Machine, code: Body, s: Store, trace: seq<Event>): (Store, seq<Event>)
    decreases |code|
  {
    if code == [] then (s, trace)
    else var r := After(m, Front(code), s, trace); (Effect(m, Last(code), r.0, r.1), Calls(m, Last(code), r.0, r.1))
  }

  lemma FrontStraight(code: Body)
    requires StraightLine(code) && code != []
    ensures StraightLine(Front(code)) && !IsTerminator(Last(code)) && code == Front(code) + [Last(code)]
  {
  }

  lemma {:induction false} EvalAfter(m: Machine, body: Body, code: Body, rest: Body, s: Store, trace: seq<Event>, fuel: nat)
    requires StraightLine(code)
    ensures var r := After(m, code, s, trace); Eval(m, body, code + rest, s, trace, fuel) == Eval(m, body, rest, r.0, r.1, fuel)
    decreases |code|
  {
    hide Eval, Effect, Calls, IsTerminator;
    if code == [] {
      assert code + rest == rest;
    } else {
      FrontStraight(code);
      var i, front := Last(code), Front(code);
      assert code + rest == front + ([i] + rest);
      EvalAfter(m, body, front, [i] + rest, s, trace, fuel);
      var r := After(m, front, s, trace);
      EvalPlain(m, body, i, rest, r.0, r.1, fuel);
    }
  }

  lemma CopyReads(m: Machine, i: Instruction, s: Store, trace: seq<Event>, x: string)
    requires m.homes == map[] && i.Copy? && i.source.Name? && x in Defs(i)
    ensures Read(m, Effect(m, i, s, trace), x) == Read(m, s, i.source.id)
  {
  }

  lemma {:induction false} OriginHolds(m: Machine, code: Body, s: Store, trace: seq<Event>, x: string)
    requires m.homes == map[] && Origin(code, x).Some?
    ensures Read(m, After(m, code, s, trace).0, x) == Read(m, s, Origin(code, x).value)
    decreases |code|
  {
    hide Effect, Calls, Defs, Read;
    if code != [] {
      var i, r := Last(code), After(m, Front(code), s, trace);
      if x !in Defs(i) {
        OriginHolds(m, Front(code), s, trace, x);
        EffectFrame(m, i, r.0, r.1, x);
      } else {
        OriginHolds(m, Front(code), s, trace, i.source.id);
        CopyReads(m, i, r.0, r.1, x);
      }
    }
  }

  // ----- A machine on which every operation and every call gives zero -----

  function Zero(): Machine { Machine(map[], (op, l, r) => 0, (l, r) => false, (op, l, r) => false, t => 0) }

  /** The value of `x` behind `code` on that machine, if it does not come from the
      start. */
  function Constant(code: Body, x: string): int
    decreases |code|
  {
    if code == [] then 0
    else if x !in Defs(Last(code)) then Constant(Front(code), x)
    else if !Last(code).Copy? then 0
    else if Last(code).source.Name? then Constant(Front(code), Last(code).source.id)
    else Last(code).source.n
  }

  lemma ZeroWrites(i: Instruction, s: Store, trace: seq<Event>, x: string)
    requires !IsTerminator(i) && x in Defs(i) && !(i.Copy? && i.source.Name?)
    ensures Read(Zero(), Effect(Zero(), i, s, trace), x) == if i.Copy? then i.source.n else 0
  {
  }

  lemma {:induction false} ConstantHolds(code: Body, s: Store, trace: seq<Event>, x: string)
    requires StraightLine(code) && Origin(code, x).None?
    ensures Read(Zero(), After(Zero(), code, s, trace).0, x) == Constant(code, x)
    decreases |code|
  {
    hide Effect, Calls, Defs, Read, IsTerminator;
    FrontStraight(code);
    var i, r := Last(code), After(Zero(), Front(code), s, trace);
    if x !in Defs(i) {
      ConstantHolds(Front(code), s, trace, x);
      EffectFrame(Zero(), i, r.0, r.1, x);
    } else if i.Copy? && i.source.Name? {
      ConstantHolds(Front(code), s, trace, i.source.id);
      CopyReads(Zero(), i, r.0, r.1, x);
    } else {
      ZeroWrites(i, r.0, r.1, x);
    }
  }

  // ----- The forwarded body -----

  function Substituted(mid: Body, t: string, v: Value): (r: Body)
    ensures |r| == |mid|
  {
    seq(|mid|, k requires 0 <= k < |mid| => Subst(mid[k], t, v))
  }

  /** The forwarded code in front of the return. */
  function ForwardedFront(t: string, x: string, mid: Body): Body {
    [Copy(t, Name(x))] + Substituted(mid, t, Name(x))
  }

  lemma ForwardedForm(t: string, x: string, mid: Body)
    requires IsTemp(t)
    ensures ForwardAt(CopyThenReturn(t, x, mid), 0, {t}) == ForwardedFront(t, x, mid) + [Return(Some(Name(x)))]
  {
    var r := CopyThenReturn(t, x, mid);
    var q := ForwardedFront(t, x, mid) + [Return(Some(Name(x)))];
    assert Subst(Return(Some(Name(t))), t, Name(x)) == Return(Some(Name(x)));
    forall k | 0 <= k < |r| ensures q[k] == if k > 0 then Subst(r[k], t, Name(x)) else r[k] {
      if 0 < k < |r| - 1 { assert r[k] == mid[k - 1] && q[k] == Substituted(mid, t, Name(x))[k - 1]; }
      hide Subst;
    }
    hide Subst, IsTemp;
    assert ForwardAt(r, 0, {t}) == q;
  }

  lemma SubstKinds(i: Instruction, t: string, v: Value)
    ensures IsTerminator(Subst(i, t, v)) == IsTerminator(i)
  {
  }

  lemma FrontsStraight(t: string, x: string, mid: Body)
    requires StraightLine(mid)
    ensures StraightLine([Copy(t, Name(x))] + mid) && StraightLine(ForwardedFront(t, x, mid))
  {
    hide Subst;
    forall k | 0 <= k < |mid| ensures !IsTerminator(Substituted(mid, t, Name(x))[k]) { SubstKinds(mid[k], t, Name(x)); }
  }

  // ----- Exactly when it is right -----

  /** `t` holds what `x` held at the start. */
  lemma {:induction false} OriginOfCopy(t: string, x: string, mid: Body)
    requires Between(t, mid)
    ensures Origin([Copy(t, Name(x))] + mid, t) == Some(x)
    decreases |mid|
  {
    var code := [Copy(t, Name(x))] + mid;
    if mid == [] {
      assert code == [Copy(t, Name(x))] && Front(code) == [];
    } else {
      hide Defs, Origin, IsTerminator;
      assert Last(code) == Last(mid) && Front(code) == [Copy(t, Name(x))] + Front(mid);
      OriginOfCopy(t, x, Front(mid));
      OriginBack(code, t);
    }
  }

  lemma OriginBack(code: Body, x: string)
    requires code != [] && x !in Defs(Last(code))
    ensures Origin(code, x) == Origin(Front(code), x)
  {
  }

  lemma ReturnAnswers(m: Machine, body: Body, code: Body, x: string, s: Store, fuel: nat)
    requires StraightLine(code) && body == code + [Return(Some(Name(x)))]
    ensures var r := Run(m, body, s, fuel); r.Finished? && r.outcome == Some(Read(m, After(m, code, s, []).0, x))
  {
    EvalAfter(m, body, code, [Return(Some(Name(x)))], s, [], fuel);
    var r := After(m, code, s, []);
    EvalReturn(m, body, Return(Some(Name(x))), [], r.0, r.1, fuel);
    assert [Return(Some(Name(x)))] + [] == [Return(Some(Name(x)))];
    hide Eval, After, Read;
  }

  /** What the body returns before and after forwarding. */
  lemma BothAnswers(m: Machine, t: string, x: string, mid: Body, s: Store, fuel: nat)
    requires IsTemp(t) && Between(t, mid) && m.homes == map[]
    ensures var a, b := Run(m, CopyThenReturn(t, x, mid), s, fuel), Run(m, ForwardAt(CopyThenReturn(t, x, mid), 0, {t}), s, fuel);
      && a.Finished? && b.Finished? && a.outcome == Some(Read(m, s, x))
      && b.outcome == Some(Read(m, After(m, ForwardedFront(t, x, mid), s, []).0, x))
  {
    hide Run, After, Read, ForwardAt, ForwardedFront, IsTemp, Origin, StraightLine;
    FrontsStraight(t, x, mid);
    ForwardedForm(t, x, mid);
    OriginOfCopy(t, x, mid);
    ReturnAnswers(m, CopyThenReturn(t, x, mid), [Copy(t, Name(x))] + mid, t, s, fuel);
    OriginHolds(m, [Copy(t, Name(x))] + mid, s, [], t);
    ReturnAnswers(m, ForwardAt(CopyThenReturn(t, x, mid), 0, {t}), ForwardedFront(t, x, mid), x, s, fuel);
  }

  /** With another value in the source, a store shows the difference. */
  lemma OriginLost(t: string, x: string, mid: Body)
    requires IsTemp(t) && Between(t, mid) && Origin(ForwardedFront(t, x, mid), x) != Some(x)
    ensures !SameAnswers(CopyThenReturn(t, x, mid), ForwardAt(CopyThenReturn(t, x, mid), 0, {t}))
  {
    hide Run, After, ForwardAt, ForwardedFront, IsTemp, Origin, StraightLine, Constant;
    var front, origin := ForwardedFront(t, x, mid), Origin(ForwardedFront(t, x, mid), x);
    var s: Store := if origin.None? then map[Slot(x) := Constant(front, x) + 1] else map[Slot(x) := 1, Slot(origin.value) := 0];
    BothAnswers(Zero(), t, x, mid, s, 0);
    FrontsStraight(t, x, mid);
    if origin.None? { ConstantHolds(front, s, [], x); } else { OriginHolds(Zero(), front, s, [], x); }
    assert !SameAnswer(Run(Zero(), CopyThenReturn(t, x, mid), s, 0), Run(Zero(), ForwardAt(CopyThenReturn(t, x, mid), 0, {t}), s, 0));
  }

  lemma OriginKept(t: string, x: string, mid: Body)
    requires IsTemp(t) && Between(t, mid) && Origin(ForwardedFront(t, x, mid), x) == Some(x)
    ensures SameAnswers(CopyThenReturn(t, x, mid), ForwardAt(CopyThenReturn(t, x, mid), 0, {t}))
  {
    hide Run, After, Read, ForwardAt, ForwardedFront, IsTemp, Origin, StraightLine;
    var r, q := CopyThenReturn(t, x, mid), ForwardAt(CopyThenReturn(t, x, mid), 0, {t});
    forall m: Machine, s: Store, fuel: nat | m.homes == map[] ensures SameAnswer(Run(m, r, s, fuel), Run(m, q, s, fuel)) {
      BothAnswers(m, t, x, mid, s, fuel);
      OriginHolds(m, ForwardedFront(t, x, mid), s, [], x);
    }
  }

  /** Forwarding the copy is right on every machine and store if and only if copies lead
      from the source at the use back to the source at the copy. */
  lemma RightIffSourceKept(t: string, x: string, mid: Body)
    requires IsTemp(t) && Between(t, mid)
    ensures SameAnswers(CopyThenReturn(t, x, mid), ForwardAt(CopyThenReturn(t, x, mid), 0, {t})) <==> Origin(ForwardedFront(t, x, mid), x) == Some(x)
  {
    hide *;
    if Origin(ForwardedFront(t, x, mid), x) == Some(x) { OriginKept(t, x, mid); } else { OriginLost(t, x, mid); }
  }

  lemma CountCons(i: Instruction, rest: Body, x: string)
    ensures CountDefs([i] + rest, x) == (if DestinationOf(i) == Some(x) then 1 else 0) + CountDefs(rest, x)
  {
    assert ([i] + rest)[1..] == rest;
  }

  lemma WrittenOnce(a: Instruction, b: Instruction, c: Instruction, x: string)
    requires DestinationOf(a) == Some(x) && DestinationOf(b) != Some(x) && DestinationOf(c) != Some(x)
    ensures x in Singles([a, b, c])
  {
    hide DestinationOf;
    var body := [a, b, c];
    assert body == [a] + ([b] + ([c] + []));
    CountCons(a, [b] + ([c] + []), x);
    CountCons(b, [c] + [], x);
    CountCons(c, [], x);
    assert DestinationOf(body[0]) == Some(x);
  }

  /** `_ir_1 = x; x = 2; return _ir_1` becomes `_ir_1 = x; x = 2; return x`, which
      returns 2 whatever `x` was. */
  lemma OverwrittenSource()
    ensures var body := [Copy("_ir_1", Name("x")), Copy("x", Literal(2)), Return(Some(Name("_ir_1")))];
      && Forwarded(body) == body[2 := Return(Some(Name("x")))]
      && !SameAnswers(body, Forwarded(body))
  {
    var mid := [Copy("x", Literal(2))];
    var body := CopyThenReturn("_ir_1", "x", mid);
    assert body == [Copy("_ir_1", Name("x")), Copy("x", Literal(2)), Return(Some(Name("_ir_1")))];
    assert IsTemp("_ir_1");
    assert Last(ForwardedFront("_ir_1", "x", mid)) == Copy("x", Literal(2));
    OriginLost("_ir_1", "x", mid);
    var single := Singles(body);
    WrittenOnce(body[0], mid[0], Return(Some(Name("_ir_1"))), "_ir_1");
    assert body == [body[0], mid[0], Return(Some(Name("_ir_1")))];
    var q := ForwardAt(body, 0, single);
    assert q == ForwardAt(body, 0, {"_ir_1"}) && q == body[2 := Return(Some(Name("x")))];
    assert !IsTemp("x");
    assert ForwardFrom(q, 3, single) == q && ForwardAt(q, 1, single) == q && ForwardAt(q, 2, single) == q;
    assert ForwardFrom(q, 1, single) == ForwardFrom(q, 2, single) == ForwardFrom(q, 3, single);
    assert ForwardFrom(body, 0, single) == ForwardFrom(q, 1, single);
  }
}
