/** Phi placement by iterated dominance frontiers (cc/ssa.py:493-522). */
module PhiPlacement {
  import opened Cfg
  import opened Dominance
  import opened Dominators
  import opened Frontiers

  function FrontierSet(df: FrontierMap, b: int): set<int> {
    if b in df then df[b] else {}
  }

  /** A chain of frontier steps that starts at a definition. */
  ghost predicate FrontierChain(df: FrontierMap, defs: set<int>, q: seq<int>) {
    && |q| >= 2 && q[0] in defs
    && forall i :: 1 <= i < |q| ==> q[i] in FrontierSet(df, q[i - 1])
  }

  /** The iterated dominance frontier of the definitions. */
  ghost predicate Iterated(df: FrontierMap, defs: set<int>, f: int) {
    exists q :: FrontierChain(df, defs, q) && q[|q| - 1] == f
  }

  lemma IteratedStep(df: FrontierMap, defs: set<int>, b: int, f: int)
    requires (b in defs || Iterated(df, defs, b)) && f in FrontierSet(df, b)
    ensures Iterated(df, defs, f)
  {
    if b in defs {
      assert FrontierChain(df, defs, [b, f]);
    } else {
      var q :| FrontierChain(df, defs, q) && q[|q| - 1] == b;
      var r := q + [f];
      forall i | 1 <= i < |r| ensures r[i] in FrontierSet(df, r[i - 1]) {
        if i < |q| { assert q[i] in FrontierSet(df, q[i - 1]); }
      }
      assert FrontierChain(df, defs, r);
    }
  }

  /** Everything placed, or defining, has its frontier placed. */
  ghost predicate ClosedUnder(df: FrontierMap, defs: set<int>, placed: set<int>) {
    forall b :: b in defs || b in placed ==> FrontierSet(df, b) <= placed
  }

  lemma {:induction false} ClosedContains(df: FrontierMap, defs: set<int>, placed: set<int>, q: seq<int>, i: int)
    requires ClosedUnder(df, defs, placed) && FrontierChain(df, defs, q) && 1 <= i < |q|
    ensures q[i] in placed
    decreases i
  {
    assert q[i] in FrontierSet(df, q[i - 1]);
    if i > 1 { ClosedContains(df, defs, placed, q, i - 1); }
  }

  function Universe(df: FrontierMap): set<int> {
    set b, f | b in df && f in df[b] :: f
  }

  /** Blocks whose frontier may still have to be placed are on the worklist. */
  ghost predicate Pending(df: FrontierMap, defs: set<int>, placed: set<int>, worklist: seq<int>) {
    forall b :: (b in defs || b in placed) && b !in worklist ==> FrontierSet(df, b) <= placed
  }

  lemma GapDrops(df: FrontierMap, placed: set<int>, b: int, f: int)
    requires f in FrontierSet(df, b) && f !in placed
    ensures |Universe(df) - (placed + {f})| < |Universe(df) - placed|
  {
    assert f in Universe(df) by { assert b in df && f in df[b]; }
    assert Universe(df) - placed == (Universe(df) - (placed + {f})) + {f};
  }

  /** Visits one block's frontier. */
  method PlaceFrontier(df: FrontierMap, defs: set<int>, placed0: set<int>, worklist0: seq<int>, b: int) returns (placed: set<int>, worklist: seq<int>)
    requires Pending(df, defs, placed0, worklist0 + [b]) && (b in defs || b in placed0)
    requires forall f :: f in placed0 ==> Iterated(df, defs, f)
    requires forall w :: w in worklist0 ==> w in defs || w in placed0
    ensures Pending(df, defs, placed, worklist)
    ensures forall f :: f in placed ==> Iterated(df, defs, f)
    ensures forall w :: w in worklist ==> w in defs || w in placed
    ensures |Universe(df) - placed| < |Universe(df) - placed0| || (placed == placed0 && worklist == worklist0)
  {
    placed, worklist := placed0, worklist0;
    var left := FrontierSet(df, b);
    while left != {}
      invariant placed0 <= placed && left <= FrontierSet(df, b) && FrontierSet(df, b) - left <= placed
      invariant forall f :: f in placed ==> Iterated(df, defs, f)
      invariant forall w :: w in worklist ==> w in defs || w in placed
      invariant forall x :: (x in defs || x in placed) && x !in worklist && x != b ==> FrontierSet(df, x) <= placed
      invariant |Universe(df) - placed| < |Universe(df) - placed0| || (placed == placed0 && worklist == worklist0)
    {
      HasMember(left);
      var f :| f in left;
      left := left - {f};
      if f !in placed {
        GapDrops(df, placed, b, f);
        IteratedStep(df, defs, b, f);
        placed := placed + {f};
        if f !in defs { worklist := worklist + [f]; }
      }
      hide Iterated, Universe, FrontierSet;
    }
  }

  /** The blocks that need a phi for a variable defined in `defs`: exactly the
      iterated dominance frontier. */
  method PlacePhis(df: FrontierMap, defs: set<int>) returns (placed: set<int>)
    ensures forall f :: f in placed <==> Iterated(df, defs, f)
    ensures ClosedUnder(df, defs, placed)
  {
    placed := {};
    var worklist := Listed(defs);
    while worklist != []
      invariant Pending(df, defs, placed, worklist)
      invariant forall f :: f in placed ==> Iterated(df, defs, f)
      invariant forall w :: w in worklist ==> w in defs || w in placed
      decreases |Universe(df) - placed|, |worklist|
    {
      var last := |worklist| - 1;
      var b := worklist[last];
      assert worklist == worklist[..last] + [b];
      placed, worklist := PlaceFrontier(df, defs, placed, worklist[..last], b);
    }
    forall f | Iterated(df, defs, f) ensures f in placed {
      var q :| FrontierChain(df, defs, q) && q[|q| - 1] == f;
      ClosedContains(df, defs, placed, q, |q| - 1);
    }
  }

  lemma HasMember(s: set<int>)
    requires s != {}
    ensures exists x :: x in s
  {
    assert (forall x :: x !in s) ==> s == {};
  }

  /** The elements of a set, in some order. */
  method Listed(s: set<int>) returns (r: seq<int>)
    ensures forall x :: x in r <==> x in s
  {
    r := [];
    var left := s;
    while left != {}
      invariant left <= s
      invariant forall x :: x in r <==> x in s - left
    {
      HasMember(left);
      var x :| x in left;
      r := r + [x];
      left := left - {x};
    }
  }

  /** Phi blocks for every variable. */
  method PlacePhiNodes(definitions: map<string, set<int>>, df: FrontierMap) returns (phis: map<string, set<int>>)
    ensures phis.Keys == definitions.Keys
    ensures forall v, f :: v in phis ==> (f in phis[v] <==> Iterated(df, definitions[v], f))
    ensures forall v :: v in phis ==> ClosedUnder(df, definitions[v], phis[v])
  {
    hide Iterated, ClosedUnder;
    phis := map[];
    var left := definitions.Keys;
    while left != {}
      invariant left <= definitions.Keys && phis.Keys == definitions.Keys - left
      invariant forall v, f :: v in phis ==> (f in phis[v] <==> Iterated(df, definitions[v], f))
      invariant forall v :: v in phis ==> ClosedUnder(df, definitions[v], phis[v])
    {
      var v :| v in left;
      var placed := PlacePhis(df, definitions[v]);
      phis := phis[v := placed];
      left := left - {v};
    }
  }
}
