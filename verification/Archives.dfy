/** Pulling archive members into a link (tools/ccld.py:210-241, 277-282). */
module Archives {

  /** What the linker sees of an object: the symbols it defines globally and those
      it needs. */
  datatype Object = Object(defined: set<string>, externs: set<string>)

  /** An archive entry: the symbols its manifest promises, and its file. */
  datatype Member = Member(path: string, offers: set<string>, payload: Object)

  // ----- What is unresolved -----

  ghost predicate DefinedBy(objects: set<Object>, x: string) { exists o :: o in objects && x in o.defined }

  ghost predicate NeededBy(objects: set<Object>, x: string) { exists o :: o in objects && x in o.externs }

  /** Needed by a loaded object and defined by none. */
  ghost predicate Open(objects: set<Object>, x: string) { NeededBy(objects, x) && !DefinedBy(objects, x) }

  function Elements(objects: seq<Object>): set<Object> { set o | o in objects }

  method UnresolvedExterns(objects: seq<Object>) returns (unresolved: set<string>)
    ensures forall x :: x in unresolved <==> Open(Elements(objects), x)
  {
    var defined: set<string>, needed: set<string> := {}, {};
    for n := 0 to |objects|
      invariant forall x :: x in defined <==> exists o :: o in objects[..n] && x in o.defined
      invariant forall x :: x in needed <==> exists o :: o in objects[..n] && x in o.externs
    {
      defined := defined + objects[n].defined;
      needed := needed + objects[n].externs;
      assert objects[..n + 1] == objects[..n] + [objects[n]];
    }
    assert objects[..|objects|] == objects;
    unresolved := needed - defined;
  }

  // ----- One pass -----

  /** The archive can supply something that is missing when the pass begins. */
  ghost predicate Supplies(m: Member, objects: set<Object>) { exists x :: x in m.offers && Open(objects, x) }

  ghost predicate Wanted(members: set<Member>, objects: set<Object>, pulled: set<string>, path: string) {
    path !in pulled && exists m :: m in members && m.path == path && Supplies(m, objects)
  }

  /** One file is one object. */
  ghost predicate OneObjectPerFile(members: set<Member>) {
    forall m, n :: m in members && n in members && m.path == n.path ==> m.payload == n.payload
  }

  function Contents(members: set<Member>, pulled: set<string>): set<Object> {
    set m | m in members && m.path in pulled :: m.payload
  }

  function Paths(members: set<Member>): set<string> { set m | m in members :: m.path }

  function MemberSet(members: seq<Member>): set<Member> { set m | m in members }

  // ----- In what order -----

  /** The entry at `n` is the first one of its file that can supply something, and the file
      has not been pulled. */
  ghost predicate FirstWanted(members: seq<Member>, objects: set<Object>, pulled: set<string>, n: int) {
    && 0 <= n < |members| && members[n].path !in pulled && Supplies(members[n], objects)
    && forall j :: 0 <= j < n && members[j].path == members[n].path ==> !Supplies(members[j], objects)
  }

  /** What one pass pulls: every such entry, in the order of the archive. */
  ghost predicate Picks(members: seq<Member>, objects: set<Object>, pulled: set<string>, picks: seq<int>) {
    && (forall i, j :: 0 <= i < j < |picks| ==> picks[i] < picks[j])
    && (forall n :: n in picks <==> FirstWanted(members, objects, pulled, n))
  }

  ghost predicate Indices(members: seq<Member>, order: seq<int>) { forall i :: 0 <= i < |order| ==> 0 <= order[i] < |members| }

  ghost function Payloads(members: seq<Member>, order: seq<int>): (r: seq<Object>)
    requires Indices(members, order)
    ensures |r| == |order|
  {
    seq(|order|, i requires 0 <= i < |order| => members[order[i]].payload)
  }

  ghost function PathsOf(members: seq<Member>, order: seq<int>): set<string>
    requires Indices(members, order)
  {
    set i | 0 <= i < |order| :: members[order[i]].path
  }

  lemma PayloadsMore(members: seq<Member>, order: seq<int>, more: seq<int>)
    requires Indices(members, order) && Indices(members, more)
    ensures Indices(members, order + more)
    ensures Payloads(members, order + more) == Payloads(members, order) + Payloads(members, more)
    ensures PathsOf(members, order + more) == PathsOf(members, order) + PathsOf(members, more)
  {
    var all := order + more;
    forall p | p in PathsOf(members, order) + PathsOf(members, more) ensures p in PathsOf(members, all) {
      if p in PathsOf(members, order) {
        var i :| 0 <= i < |order| && members[order[i]].path == p;
        assert all[i] == order[i];
      } else {
        var i :| 0 <= i < |more| && members[more[i]].path == p;
        assert all[|order| + i] == more[i];
      }
    }
  }

  /** The picks among the first `n` entries. */
  ghost predicate PicksUpTo(members: seq<Member>, objects: set<Object>, pulled: set<string>, n: int, picks: seq<int>) {
    && (forall i, j :: 0 <= i < j < |picks| ==> picks[i] < picks[j])
    && (forall k :: k in picks <==> k < n && FirstWanted(members, objects, pulled, k))
  }

  lemma PicksMore(members: seq<Member>, objects: set<Object>, pulled: set<string>, n: int, picks: seq<int>)
    requires PicksUpTo(members, objects, pulled, n, picks) && 0 <= n < |members|
    ensures FirstWanted(members, objects, pulled, n) ==> PicksUpTo(members, objects, pulled, n + 1, picks + [n])
    ensures !FirstWanted(members, objects, pulled, n) ==> PicksUpTo(members, objects, pulled, n + 1, picks)
  {
    hide FirstWanted;
    assert forall i :: 0 <= i < |picks| ==> picks[i] in picks;
  }

  lemma PicksIndices(members: seq<Member>, objects: set<Object>, pulled: set<string>, n: int, picks: seq<int>)
    requires PicksUpTo(members, objects, pulled, n, picks)
    ensures Indices(members, picks)
    ensures n == |members| ==> Picks(members, objects, pulled, picks)
  {
    hide Supplies;
    forall i | 0 <= i < |picks| ensures 0 <= picks[i] < |members| { assert picks[i] in picks; }
  }

  lemma FirstWantedIs(members: seq<Member>, objects: set<Object>, pulled: set<string>, n: int)
    requires 0 <= n < |members|
    ensures FirstWanted(members, objects, pulled, n) <==>
      members[n].path !in pulled && Supplies(members[n], objects) && !Wanted(MemberSet(members[..n]), objects, pulled, members[n].path)
  {
    hide Supplies;
    forall j | 0 <= j < n ensures members[j] in MemberSet(members[..n]) { assert members[..n][j] == members[j]; }
    forall m | m in MemberSet(members[..n]) ensures exists j :: 0 <= j < n && members[j] == m {
      var j :| 0 <= j < n && members[..n][j] == m;
      assert members[j] == m;
    }
    hide MemberSet;
  }

  method Pass(members: seq<Member>, objects0: seq<Object>, pulled0: set<string>, unresolved: set<string>, ghost start: set<Object>)
    returns (objects: seq<Object>, pulled: set<string>, ghost picks: seq<int>)
    requires forall x :: x in unresolved <==> Open(Elements(objects0), x)
    requires OneObjectPerFile(MemberSet(members)) && pulled0 <= Paths(MemberSet(members))
    requires Elements(objects0) == start + Contents(MemberSet(members), pulled0)
    ensures Elements(objects) == start + Contents(MemberSet(members), pulled)
    ensures pulled0 <= pulled <= Paths(MemberSet(members))
    ensures forall path :: path in pulled - pulled0 <==> Wanted(MemberSet(members), Elements(objects0), pulled0, path)
    ensures Picks(members, Elements(objects0), pulled0, picks) && Indices(members, picks)
    ensures objects == objects0 + Payloads(members, picks) && pulled == pulled0 + PathsOf(members, picks)
    ensures |pulled| == |pulled0| + |picks|
  {
    hide *;
    objects, pulled, picks := objects0, pulled0, [];
    PassStarts(members, objects0, pulled0);
    for n := 0 to |members|
      invariant pulled0 <= pulled <= Paths(MemberSet(members))
      invariant Elements(objects) == start + Contents(MemberSet(members), pulled)
      invariant forall path :: path in pulled - pulled0 <==> Wanted(MemberSet(members[..n]), Elements(objects0), pulled0, path)
      invariant PicksUpTo(members, Elements(objects0), pulled0, n, picks) && Indices(members, picks)
      invariant objects == objects0 + Payloads(members, picks) && pulled == pulled0 + PathsOf(members, picks)
      invariant |pulled| == |pulled0| + |picks|
    {
      var m := members[n];
      WantedMore(members, n, Elements(objects0), pulled0);
      FirstWantedIs(members, Elements(objects0), pulled0, n);
      PicksMore(members, Elements(objects0), pulled0, n, picks);
      Meets(m, Elements(objects0), unresolved);
      assert m.path in pulled <==> m.path in pulled0 || m.path in pulled - pulled0;
      if m.offers * unresolved != {} && m.path !in pulled {
        PullOne(members, objects, pulled, m, start);
        OnePick(members, picks, n);
        assert objects0 + Payloads(members, picks) + [m.payload] == objects0 + (Payloads(members, picks) + [m.payload]);
        assert pulled0 + PathsOf(members, picks) + {m.path} == pulled0 + (PathsOf(members, picks) + {m.path});
        objects := objects + [m.payload];
        pulled := pulled + {m.path};
        picks := picks + [n];
      }
    }
    assert members[..|members|] == members;
    PicksIndices(members, Elements(objects0), pulled0, |members|, picks);
  }

  lemma PassStarts(members: seq<Member>, objects: seq<Object>, pulled: set<string>)
    ensures PicksUpTo(members, Elements(objects), pulled, 0, []) && Indices(members, [])
    ensures objects == objects + Payloads(members, []) && pulled == pulled + PathsOf(members, [])
    ensures forall path :: !Wanted(MemberSet(members[..0]), Elements(objects), pulled, path)
  {
    assert members[..0] == [];
    hide Supplies;
  }

  lemma OnePick(members: seq<Member>, picks: seq<int>, n: int)
    requires Indices(members, picks) && 0 <= n < |members|
    ensures Indices(members, picks + [n])
    ensures Payloads(members, picks + [n]) == Payloads(members, picks) + [members[n].payload]
    ensures PathsOf(members, picks + [n]) == PathsOf(members, picks) + {members[n].path}
  {
    PayloadsMore(members, picks, [n]);
    assert Payloads(members, [n]) == [members[n].payload];
    forall p ensures p in PathsOf(members, [n]) <==> p == members[n].path {
      assert [n][0] == n;
    }
  }

  lemma Meets(m: Member, objects: set<Object>, unresolved: set<string>)
    requires forall x :: x in unresolved <==> Open(objects, x)
    ensures Supplies(m, objects) <==> m.offers * unresolved != {}
  {
    hide Open;
    if Supplies(m, objects) {
      var x :| x in m.offers && Open(objects, x);
      assert x in m.offers * unresolved;
    }
    if m.offers * unresolved != {} {
      assert (forall x :: x !in m.offers * unresolved) ==> m.offers * unresolved == {};
      var x :| x in m.offers * unresolved;
      assert x in m.offers && Open(objects, x);
    }
  }

  lemma WantedMore(members: seq<Member>, n: int, objects: set<Object>, pulled: set<string>)
    requires 0 <= n < |members|
    ensures forall path :: Wanted(MemberSet(members[..n + 1]), objects, pulled, path) <==>
      Wanted(MemberSet(members[..n]), objects, pulled, path) || (path !in pulled && path == members[n].path && Supplies(members[n], objects))
  {
    hide Supplies;
    assert members[..n + 1] == members[..n] + [members[n]];
    assert MemberSet(members[..n + 1]) == MemberSet(members[..n]) + {members[n]};
    hide MemberSet;
  }

  lemma PullOne(members: seq<Member>, objects: seq<Object>, pulled: set<string>, m: Member, start: set<Object>)
    requires m in members && OneObjectPerFile(MemberSet(members)) && Elements(objects) == start + Contents(MemberSet(members), pulled)
    ensures Elements(objects + [m.payload]) == start + Contents(MemberSet(members), pulled + {m.path})
    ensures m.path in Paths(MemberSet(members))
  {
    assert Elements(objects + [m.payload]) == Elements(objects) + {m.payload};
    assert m in MemberSet(members);
    var before, after := Contents(MemberSet(members), pulled), Contents(MemberSet(members), pulled + {m.path});
    forall o | o in after ensures o in before + {m.payload} {
      var k :| k in MemberSet(members) && k.path in pulled + {m.path} && k.payload == o;
      if k.path in pulled { assert o in before; }
    }
    forall o | o in before + {m.payload} ensures o in after {
      if o in before {
        var k :| k in MemberSet(members) && k.path in pulled && k.payload == o;
        assert k.path in pulled + {m.path};
      }
    }
    assert after == before + {m.payload};
  }

  // ----- All passes -----

  ghost function Flat(passes: seq<seq<int>>): seq<int> {
    if passes == [] then [] else Flat(passes[..|passes| - 1]) + passes[|passes| - 1]
  }

  /** The pass at `k` starts from what the passes before it have loaded. */
  ghost predicate PassAt(members: seq<Member>, objects: seq<Object>, passes: seq<seq<int>>, k: int)
    requires 0 <= k < |passes|
  {
    var before := Flat(passes[..k]);
    && passes[k] != [] && Indices(members, before)
    && Picks(members, Elements(objects + Payloads(members, before)), PathsOf(members, before), passes[k])
  }

  ghost predicate InPasses(members: seq<Member>, objects: seq<Object>, passes: seq<seq<int>>) {
    forall k {:trigger PassAt(members, objects, passes, k)} :: 0 <= k < |passes| ==> PassAt(members, objects, passes, k)
  }

  /** No file is pulled twice. */
  ghost predicate NoneTwice(members: seq<Member>, order: seq<int>)
    requires Indices(members, order)
  {
    forall i, j :: 0 <= i < j < |order| ==> members[order[i]].path != members[order[j]].path
  }

  /** What has been loaded is what was there, and then one object for each pulled file,
      pass by pass. */
  ghost predicate LoadedBy(members: seq<Member>, objects0: seq<Object>, passes: seq<seq<int>>, objects: seq<Object>, pulled: set<string>) {
    && InPasses(members, objects0, passes) && Indices(members, Flat(passes)) && NoneTwice(members, Flat(passes))
    && objects == objects0 + Payloads(members, Flat(passes)) && pulled == PathsOf(members, Flat(passes))
  }

  lemma {:induction false} OncePerPath(members: seq<Member>, order: seq<int>)
    requires Indices(members, order)
    ensures |PathsOf(members, order)| <= |order|
    ensures |PathsOf(members, order)| == |order| ==> NoneTwice(members, order)
    decreases |order|
  {
    if order != [] {
      var n := |order| - 1;
      var front := order[..n];
      assert order == front + [order[n]];
      OncePerPath(members, front);
      OnePick(members, front, order[n]);
      if |PathsOf(members, order)| == |order| {
        assert members[order[n]].path !in PathsOf(members, front);
        forall i | 0 <= i < n ensures members[order[i]].path != members[order[n]].path { assert front[i] == order[i]; }
        forall i, j | 0 <= i < j < n ensures members[order[i]].path != members[order[j]].path { assert front[i] == order[i] && front[j] == order[j]; }
      }
    }
  }

  lemma PassAdded(members: seq<Member>, objects0: seq<Object>, passes: seq<seq<int>>, objects: seq<Object>, pulled: set<string>, picks: seq<int>, more: set<string>)
    requires LoadedBy(members, objects0, passes, objects, pulled) && |pulled| == |Flat(passes)|
    requires picks != [] && Indices(members, picks) && Picks(members, Elements(objects), pulled, picks)
    requires more == pulled + PathsOf(members, picks) && |more| == |pulled| + |picks|
    ensures LoadedBy(members, objects0, passes + [picks], objects + Payloads(members, picks), more) && |more| == |Flat(passes + [picks])|
  {
    var all := passes + [picks];
    assert all[..|passes|] == passes;
    assert Flat(all) == Flat(passes) + picks;
    PayloadsMore(members, Flat(passes), picks);
    OncePerPath(members, Flat(all));
    hide Payloads, PathsOf, Picks, Elements, NoneTwice;
    forall k | 0 <= k < |all| ensures PassAt(members, objects0, all, k) {
      if k < |passes| {
        assert PassAt(members, objects0, passes, k);
        assert all[..k] == passes[..k];
      }
    }
  }

  lemma NothingLoaded(members: seq<Member>, objects: seq<Object>)
    ensures LoadedBy(members, objects, [], objects, {}) && |Flat([])| == 0
  {
  }

  /** Picks are determined by what they are picked from. */
  lemma {:induction false} PicksAreOne(members: seq<Member>, objects: set<Object>, pulled: set<string>, a: seq<int>, b: seq<int>, n: int)
    requires Picks(members, objects, pulled, a) && Picks(members, objects, pulled, b)
    requires 0 <= n <= |a| && n <= |b| && a[..n] == b[..n]
    ensures a == b
    decreases |a| - n
  {
    if n < |a| && n < |b| {
      PickBehind(members, objects, pulled, a, b, n);
      PickBehind(members, objects, pulled, b, a, n);
      assert a[..n + 1] == a[..n] + [a[n]] && b[..n + 1] == b[..n] + [b[n]];
      PicksAreOne(members, objects, pulled, a, b, n + 1);
    } else {
      if n < |a| { PickBehind(members, objects, pulled, a, b, n); }
      if n < |b| { PickBehind(members, objects, pulled, b, a, n); }
      assert a[..n] == a && b[..n] == b;
    }
  }

  lemma PickBehind(members: seq<Member>, objects: set<Object>, pulled: set<string>, a: seq<int>, b: seq<int>, n: int)
    requires Picks(members, objects, pulled, a) && Picks(members, objects, pulled, b)
    requires 0 <= n < |a| && n <= |b| && a[..n] == b[..n]
    ensures n < |b| && b[n] <= a[n]
  {
    assert a[n] in a;
    assert a[n] in b;
    hide FirstWanted;
    var j :| 0 <= j < |b| && b[j] == a[n];
    SamePrefix(a, b, n);
  }

  lemma SamePrefix(a: seq<int>, b: seq<int>, n: int)
    requires 0 <= n <= |a| && n <= |b| && a[..n] == b[..n]
    ensures forall j :: 0 <= j < n ==> a[j] == b[j]
  {
    forall j | 0 <= j < n ensures a[j] == b[j] { assert a[..n][j] == b[..n][j]; }
  }

  /** Nothing more can be pulled. */
  ghost predicate Finished(members: seq<Member>, objects: seq<Object>, passes: seq<seq<int>>) {
    Indices(members, Flat(passes)) &&
    forall path :: !Wanted(MemberSet(members), Elements(objects + Payloads(members, Flat(passes))), PathsOf(members, Flat(passes)), path)
  }

  lemma FinishedStops(members: seq<Member>, objects: seq<Object>, a: seq<seq<int>>, b: seq<seq<int>>)
    requires InPasses(members, objects, b) && Finished(members, objects, a) && |a| <= |b| && b[..|a|] == a
    ensures a == b
  {
    if |a| < |b| {
      assert PassAt(members, objects, b, |a|);
      hide Elements, Payloads, PathsOf, Indices, Supplies, MemberSet, Picks, Wanted;
      PickIsWanted(members, Elements(objects + Payloads(members, Flat(a))), PathsOf(members, Flat(a)), b[|a|]);
    } else {
      assert b[..|a|] == b;
    }
  }

  lemma PickIsWanted(members: seq<Member>, objects: set<Object>, pulled: set<string>, picks: seq<int>)
    requires Picks(members, objects, pulled, picks) && picks != []
    ensures exists path :: Wanted(MemberSet(members), objects, pulled, path)
  {
    var n := picks[0];
    assert n in picks;
    hide Supplies;
    assert members[n] in MemberSet(members);
    assert Wanted(MemberSet(members), objects, pulled, members[n].path);
  }

  /** Members and objects determine what is pulled, in which pass, and in what order. */
  lemma {:induction false} PullsAreOne(members: seq<Member>, objects: seq<Object>, a: seq<seq<int>>, b: seq<seq<int>>, n: int)
    requires InPasses(members, objects, a) && InPasses(members, objects, b) && Finished(members, objects, a) && Finished(members, objects, b)
    requires 0 <= n <= |a| && n <= |b| && a[..n] == b[..n]
    ensures a == b
    decreases |a| - n
  {
    if n < |a| && n < |b| {
      assert PassAt(members, objects, a, n) && PassAt(members, objects, b, n);
      hide Picks, Finished, Payloads, PathsOf, Elements, Indices;
      var before := Flat(a[..n]);
      PicksAreOne(members, Elements(objects + Payloads(members, before)), PathsOf(members, before), a[n], b[n], 0);
      assert a[..n + 1] == a[..n] + [a[n]] && b[..n + 1] == b[..n] + [b[n]];
      PullsAreOne(members, objects, a, b, n + 1);
    } else if n == |a| {
      assert a[..n] == a;
      FinishedStops(members, objects, a, b);
    } else {
      assert b[..n] == b;
      FinishedStops(members, objects, b, a);
    }
  }

  // ----- The fixed point, in terms of sets -----

  /** The files a pass adds. */
  ghost function Added(members: set<Member>, start: set<Object>, pulled: set<string>): (r: set<string>)
    ensures r == set path | path in Paths(members) && Wanted(members, start + Contents(members, pulled), pulled, path)
    ensures r * pulled == {} && r <= Paths(members)
  {
    set path | path in Paths(members) && Wanted(members, start + Contents(members, pulled), pulled, path)
  }

  /** The files pulled in the end; a function of sets, so no order can matter. */
  ghost function Closure(members: set<Member>, start: set<Object>, pulled: set<string>): set<string>
    requires pulled <= Paths(members)
    decreases Paths(members) - pulled
  {
    var more := Added(members, start, pulled);
    if more == {} then pulled
    else
      (assert (forall x :: x !in more) ==> more == {};
       Closure(members, start, pulled + more))
  }

  /** The end result: nothing is missing, or nothing that is missing can be had. */
  ghost predicate Settled(members: set<Member>, objects: set<Object>, pulled: set<string>) {
    (forall x :: !Open(objects, x)) || forall path :: !Wanted(members, objects, pulled, path)
  }

  lemma NothingOpenNothingWanted(members: set<Member>, objects: set<Object>, pulled: set<string>)
    requires Settled(members, objects, pulled)
    ensures forall path :: !Wanted(members, objects, pulled, path)
  {
    hide Open;
  }

  lemma AddedIs(members: set<Member>, start: set<Object>, pulled: set<string>, next: set<string>)
    requires pulled <= next <= Paths(members)
    requires forall path :: path in next - pulled <==> Wanted(members, start + Contents(members, pulled), pulled, path)
    ensures Added(members, start, pulled) == next - pulled
  {
    hide Wanted;
    var objects := start + Contents(members, pulled);
    forall path ensures path in Added(members, start, pulled) <==> path in next - pulled {
      if Wanted(members, objects, pulled, path) { WantedPath(members, objects, pulled, path); }
    }
  }

  lemma WantedPath(members: set<Member>, objects: set<Object>, pulled: set<string>, path: string)
    requires Wanted(members, objects, pulled, path)
    ensures path in Paths(members)
  {
    hide Supplies;
  }

  /** Pulls members until no pass adds one. */
  method PullArchiveMembers(members: seq<Member>, objects0: seq<Object>) returns (objects: seq<Object>, pulled: set<string>, ghost passes: seq<seq<int>>)
    requires OneObjectPerFile(MemberSet(members))
    ensures Elements(objects) == Elements(objects0) + Contents(MemberSet(members), pulled)
    ensures Settled(MemberSet(members), Elements(objects), pulled)
    ensures pulled == Closure(MemberSet(members), Elements(objects0), {})
    ensures LoadedBy(members, objects0, passes, objects, pulled) && Finished(members, objects0, passes)
    ensures objects0 <= objects && |objects| == |objects0| + |pulled|
  {
    hide *;
    ghost var all, start := MemberSet(members), Elements(objects0);
    objects, pulled, passes := objects0, {}, [];
    NothingLoaded(members, objects0);
    NothingPulled(all, start);
    var unresolved := UnresolvedExterns(objects);
    ghost var rest := Closure(all, start, {});
    while unresolved != {}
      invariant forall x :: x in unresolved <==> Open(Elements(objects), x)
      invariant Elements(objects) == start + Contents(all, pulled) && pulled <= Paths(all)
      invariant Closure(all, start, pulled) == rest
      invariant LoadedBy(members, objects0, passes, objects, pulled) && |pulled| == |Flat(passes)|
      decreases Paths(all) - pulled
    {
      ghost var before := pulled;
      ghost var picks;
      var next, more;
      next, more, picks := Pass(members, objects, pulled, unresolved, start);
      AddedIs(all, start, pulled, more);
      ClosureStep(all, start, pulled);
      assert pulled + (more - pulled) == more;
      if more == pulled {
        NoneWanted(all, Elements(objects), pulled, more);
        FinishedIs(members, objects0, passes, objects, pulled);
        return;
      }
      assert picks != [];
      PassAdded(members, objects0, passes, objects, pulled, picks, more);
      passes := passes + [picks];
      objects, pulled := next, more;
      assert Paths(all) - pulled < Paths(all) - before;
      unresolved := UnresolvedExterns(objects);
    }
    NoneOpen(all, Elements(objects), pulled);
    FinishedIs(members, objects0, passes, objects, pulled);
    NothingAdded(all, start, pulled, Elements(objects));
    ClosureStep(all, start, pulled);
  }

  lemma FinishedIs(members: seq<Member>, objects0: seq<Object>, passes: seq<seq<int>>, objects: seq<Object>, pulled: set<string>)
    requires LoadedBy(members, objects0, passes, objects, pulled) && |pulled| == |Flat(passes)|
    requires Settled(MemberSet(members), Elements(objects), pulled)
    ensures Finished(members, objects0, passes) && objects0 <= objects && |objects| == |objects0| + |pulled|
  {
    NothingOpenNothingWanted(MemberSet(members), Elements(objects), pulled);
    hide Wanted, Settled, Elements, PathsOf, MemberSet, InPasses;
  }

  lemma NothingPulled(members: set<Member>, start: set<Object>)
    ensures start == start + Contents(members, {}) && {} <= Paths(members)
  {
  }

  lemma ClosureStep(members: set<Member>, start: set<Object>, pulled: set<string>)
    requires pulled <= Paths(members)
    ensures var more := Added(members, start, pulled);
      pulled + more <= Paths(members) && Closure(members, start, pulled) == if more == {} then pulled else Closure(members, start, pulled + more)
  {
    hide Added;
  }

  lemma NoneWanted(members: set<Member>, objects: set<Object>, pulled: set<string>, next: set<string>)
    requires next == pulled && forall path :: path in next - pulled <==> Wanted(members, objects, pulled, path)
    ensures Settled(members, objects, pulled)
  {
    hide Wanted, Open;
  }

  lemma NoneOpen(members: set<Member>, objects: set<Object>, pulled: set<string>)
    requires forall x :: !Open(objects, x)
    ensures Settled(members, objects, pulled)
  {
  }

  lemma NothingAdded(members: set<Member>, start: set<Object>, pulled: set<string>, objects: set<Object>)
    requires objects == start + Contents(members, pulled) && Settled(members, objects, pulled)
    ensures Added(members, start, pulled) == {}
  {
    NothingOpenNothingWanted(members, objects, pulled);
    hide Wanted, Settled;
  }

  /** The order of the members, and of the objects named first, does not matter. */
  lemma OrderDoesNotMatter(a: seq<Member>, b: seq<Member>, first: seq<Object>, other: seq<Object>)
    requires (forall m :: m in a <==> m in b) && (forall o :: o in first <==> o in other)
    ensures Closure(MemberSet(a), Elements(first), {}) == Closure(MemberSet(b), Elements(other), {})
  {
    assert MemberSet(a) == MemberSet(b);
    assert Elements(first) == Elements(other);
  }
}
