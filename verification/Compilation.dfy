/** From source statements to optimized code (cc/ir.py:584-610,
    cc/ir_optimize.py:597-614): lowering and the scalar pipeline, one after the other,
    keep what the source says. */
module Compilation {
  import opened Common
  import opened IR
  import opened Cfg
  import opened Lowering
  import opened LoweringMeaning
  import opened LoweringOrderly
  import opened LoweringQuiet
  import S = ScalarPipeline
  import O = ScalarMeaning
  import R = ScalarRounds
  import N = NormalForm
  import B = LoweringBuilder
  import L = LoweringStatements

  ghost predicate FollowsSource(m: Machine, ss: seq<Statement>, code: Body, s: Store, fuel: nat) {
    exists k: nat :: R.Covers(m, Outcome(ExecAll(m, ss, s, [], fuel), s), Run(m, code, s, k))
  }

  /** The result that the source gives; while it runs, the calls made so far. */
  function Outcome(d: Done, s: Store): Result {
    match d
    case Normal(u, tr, _) => Finished(None, u, tr)
    case Returned(v, u, tr) => Finished(v, u, tr)
    case Spent(tr) => Exhausted(tr)
    case Broken(u, tr, _) => Exhausted(tr)
    case Continued(u, tr, _) => Exhausted(tr)
  }

  lemma AgreesCovers(m: Machine, d: Done, s: Store, r: Result)
    requires B.Agrees(m, d, r)
    ensures R.Covers(m, Outcome(d, s), r)
  {
    hide Read;
    forall x | !S.IsTemp(x) ensures !TempFrom(x, 0) { TempsArePrefixed(x); }
  }

  lemma TempsArePrefixed(x: string)
    ensures TempFrom(x, 0) ==> S.IsTemp(x)
  {
  }

  /** Whatever the source does, the optimized code does: the same calls in the same
      order, the same result and the same variables. */
  lemma OptimizedFollows(m: Machine, ss: seq<Statement>, n: nat, code: Body, s: Store, fuel: nat)
    requires SaneMachine(m) && L.CleanAll(ss, false)
    requires R.SameConduct(m, LowerAll(ss, None, None, n).code, code)
    ensures FollowsSource(m, ss, code, s, fuel)
  {
    hide LowerAll, ExecAll, Run, B.Agrees, R.Covers, SaneMachine, L.CleanAll;
    var lowered := LowerAll(ss, None, None, n).code;
    var k := B.LoweringPreserves(m, ss, n, s, fuel);
    var d := ExecAll(m, ss, s, [], fuel);
    AgreesCovers(m, d, s, Run(m, lowered, s, k));
    assert R.Covered(m, code, s, Run(m, lowered, s, k));
    var h: nat :| R.Covers(m, Run(m, lowered, s, k), Run(m, code, s, h));
    R.CoversTransitive(m, Outcome(d, s), Run(m, lowered, s, k), Run(m, code, s, h));
  }

  /** And the optimized code ends only if the source does, alike. */
  lemma OptimizedReflects(m: Machine, ss: seq<Statement>, n: nat, code: Body, s: Store, k: nat) returns (fuel: nat)
    requires SaneMachine(m) && L.CleanAll(ss, false) && Run(m, code, s, k).Finished?
    requires R.SameConduct(m, LowerAll(ss, None, None, n).code, code)
    ensures R.Covers(m, Run(m, code, s, k), Outcome(ExecAll(m, ss, s, [], fuel), s))
  {
    hide LowerAll, ExecAll, Run, B.Agrees, SaneMachine, L.CleanAll;
    var lowered := LowerAll(ss, None, None, n).code;
    assert R.Covered(m, lowered, s, Run(m, code, s, k));
    var j: nat :| R.Covers(m, Run(m, code, s, k), Run(m, lowered, s, j));
    B.LoweringReflects(m, ss, n, s, j);
    fuel := j + 1;
    var d := ExecAll(m, ss, s, [], fuel);
    AgreesBack(m, d, s, Run(m, lowered, s, j));
    R.CoversTransitive(m, Run(m, code, s, k), Run(m, lowered, s, j), Outcome(d, s));
  }

  lemma AgreesBack(m: Machine, d: Done, s: Store, r: Result)
    requires B.Agrees(m, d, r) && r.Finished?
    ensures R.Covers(m, r, Outcome(d, s))
  {
    hide Read;
    forall x | !S.IsTemp(x) ensures !TempFrom(x, 0) { TempsArePrefixed(x); }
  }

  /** A sane machine that computes in integers. */
  ghost predicate Compatible(m: Machine, bits: (string, int, int) -> int) { SaneMachine(m) && O.FoldsAs(m, bits) }

  /** On every compatible machine the code does what the statements do, and ends only
      if they do. */
  ghost predicate Compiled(ss: seq<Statement>, code: Body, bits: (string, int, int) -> int) {
    forall m: Machine :: Compatible(m, bits) ==>
      (forall s: Store, fuel: nat :: FollowsSource(m, ss, code, s, fuel)) && forall s: Store, k: nat :: Run(m, code, s, k).Finished? ==> EndsWithSource(m, ss, code, s, k)
  }

  ghost predicate EndsWithSource(m: Machine, ss: seq<Statement>, code: Body, s: Store, k: nat) {
    exists fuel: nat :: R.Covers(m, Run(m, code, s, k), Outcome(ExecAll(m, ss, s, [], fuel), s))
  }

  lemma CompatibleParts(m: Machine, bits: (string, int, int) -> int)
    requires Compatible(m, bits)
    ensures SaneMachine(m) && O.FoldsAs(m, bits) && m.homes == map[]
  {
    hide O.FoldsAs;
  }

  lemma OptimizedIsCompiled(ss: seq<Statement>, n: nat, code: Body, bits: (string, int, int) -> int)
    requires L.CleanAll(ss, false)
    requires forall m: Machine :: m.homes == map[] && O.FoldsAs(m, bits) ==> R.SameConduct(m, LowerAll(ss, None, None, n).code, code)
    ensures Compiled(ss, code, bits)
  {
    hide LowerAll, ExecAll, Run, R.SameConduct, R.Covers, SaneMachine, L.CleanAll, O.FoldsAs, Compatible, Outcome;
    forall m: Machine | Compatible(m, bits)
      ensures forall s: Store, fuel: nat :: FollowsSource(m, ss, code, s, fuel)
      ensures forall s: Store, k: nat :: Run(m, code, s, k).Finished? ==> EndsWithSource(m, ss, code, s, k)
    {
      CompatibleParts(m, bits);
      forall s: Store, fuel: nat ensures FollowsSource(m, ss, code, s, fuel) { OptimizedFollows(m, ss, n, code, s, fuel); }
      forall s: Store, k: nat | Run(m, code, s, k).Finished? ensures EndsWithSource(m, ss, code, s, k) {
        var fuel := OptimizedReflects(m, ss, n, code, s, k);
      }
    }
  }

  /** Lowering and the scalar pipeline, one after the other: well-formed code that
      does what the source says. */
  method LowerAndOptimize(ss: seq<Statement>, start: nat, bits: (string, int, int) -> int) returns (code: Body)
    ensures WellFormed(code) && N.Normal(code)
    ensures OrdinaryAll(ss) && L.CleanAll(ss, false) ==> Compiled(ss, code, bits)
  {
    hide *;
    var builder := new B.Builder(start);
    builder.BuildFunction(ss);
    UniqueOf(builder.out);
    code := R.ScalarFixedPoint(builder.out, bits);
    if OrdinaryAll(ss) && L.CleanAll(ss, false) {
      LoweredOrderly(ss, start);
      OptimizedIsCompiled(ss, start, code, bits);
    }
  }

  lemma UniqueOf(code: Body)
    requires WellFormed(code)
    ensures UniqueLabels(code)
  {
  }
}
