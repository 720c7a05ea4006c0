/** The scalar pipeline (cc/ir_optimize.py:60-75, 160-192, 386-464, 556-614,
    706-744): propagation, control-flow simplification and dead-code elimination,
    repeated until nothing changes, and why that always ends. */
module ScalarPipeline {
  import opened Common
  import opened IR
  import opened ControlFlow

  // ----- Propagation -----

  predicate IsTemp(name: string) { |name| >= 4 && name[..4] == "_ir_" }

  function CountDefs(body: Body, name: string): nat {
    if body == [] then 0 else (if DestinationOf(body[0]) == Some(name) then 1 else 0) + CountDefs(body[1..], name)
  }

  function SubstValue(v: Value, target: string, source: Value): Value {
    if v == Name(target) then source else v
  }

  function SubstValues(vs: seq<Value>, target: string, source: Value): seq<Value> {
    seq(|vs|, i requires 0 <= i < |vs| => SubstValue(vs[i], target, source))
  }

  /** Tail calls are left alone (cc/ir_optimize.py:930-1012). */
  function Subst(i: Instruction, target: string, source: Value): Instruction {
    match i
    case Copy(d, v) => Copy(d, SubstValue(v, target, source))
    case BinaryOperation(d, l, op, r) => BinaryOperation(d, SubstValue(l, target, source), op, SubstValue(r, target, source))
    case BranchFalse(l, op, r, t) => BranchFalse(SubstValue(l, target, source), op, SubstValue(r, target, source), t)
    case Call(f, args, d) => Call(f, SubstValues(args, target, source), d)
    case Return(v) => Return(if v.Some? then Some(SubstValue(v.value, target, source)) else None)
    case _ => i
  }

  /** The names that substitution can reach. */
  function Reads(i: Instruction): set<string> { if i.TailCall? then {} else Uses(i) }

  /** A copy into a temporary with a single definition. */
  predicate Forwards(i: Instruction, single: set<string>) {
    i.Copy? && IsTemp(i.destination) && i.destination in single
  }

  /** The temporaries written once. */
  function Singles(body: Body): set<string> {
    set i | 0 <= i < |body| && DestinationOf(body[i]).Some? && CountDefs(body, DestinationOf(body[i]).value) == 1 :: DestinationOf(body[i]).value
  }

  /** Forwards the copy at `n`, if it is one, to everything behind it. */
  function ForwardAt(r: Body, n: int, single: set<string>): (s: Body)
    requires 0 <= n < |r|
    ensures |s| == |r|
  {
    if Forwards(r[n], single)
    then seq(|r|, j requires 0 <= j < |r| => if j > n then Subst(r[j], r[n].destination, r[n].source) else r[j])
    else r
  }

  function ForwardFrom(r: Body, n: nat, single: set<string>): (s: Body)
    requires n <= |r|
    ensures |s| == |r|
    decreases |r| - n
  {
    if n == |r| then r else ForwardFrom(ForwardAt(r, n, single), n + 1, single)
  }

  function Foldable(op: string): bool { op == "+" || op == "-" || op == "*" || op == "&" || op == "|" || op == "^" }

  /** What the folder computes; bitwise operators as `bits` has them. */
  function FoldValue(op: string, l: int, r: int, bits: (string, int, int) -> int): int {
    if op == "+" then l + r else if op == "-" then l - r else if op == "*" then l * r else bits(op, l, r)
  }

  function FoldOperation(i: Instruction, bits: (string, int, int) -> int): Instruction {
    if i.BinaryOperation? && i.left.Literal? && i.right.Literal? && Foldable(i.operation)
    then Copy(i.destination, Literal(FoldValue(i.operation, i.left.n, i.right.n, bits))) else i
  }

  function FoldOperations(body: Body, bits: (string, int, int) -> int): (r: Body)
    ensures |r| == |body|
  {
    seq(|body|, i requires 0 <= i < |body| => FoldOperation(body[i], bits))
  }

  function Forwarded(body: Body): Body { ForwardFrom(body, 0, Singles(body)) }

  function Propagated(body: Body, bits: (string, int, int) -> int): Body { FoldOperations(Forwarded(body), bits) }

  // ----- Dead code -----

  predicate Dead(i: Instruction, used: set<string>) {
    DestinationOf(i).Some? && IsTemp(DestinationOf(i).value) && DestinationOf(i).value !in used
  }

  /** The names that the pass counts as read: not the arguments of tail calls. */
  function UsedNames(body: Body): set<string> { set i, x | 0 <= i < |body| && x in Reads(body[i]) :: x }

  function Alive(i: Instruction, used: set<string>): Body {
    if !Dead(i, used) then [i] else if i.Call? then [i.(result := None)] else []
  }

  function AliveOf(body: Body, used: set<string>): Body {
    if body == [] then [] else Alive(body[0], used) + AliveOf(body[1..], used)
  }

  function WithoutDead(body: Body): Body { AliveOf(body, UsedNames(body)) }

  // ----- One round -----

  function OneRound(body: Body, bits: (string, int, int) -> int): Body { WithoutDead(Simplified(Propagated(body, bits))) }

  // ----- Forwarding settles in one pass -----

  /** Behind a forwarded copy its name is no longer read, unless it copies itself. */
  ghost predicate Settled(r: Body, n: int, single: set<string>) {
    forall i, j :: 0 <= i < n && i < j < |r| && Forwards(r[i], single) && r[i].source != Name(r[i].destination) ==> r[i].destination !in Reads(r[j])
  }

  lemma SubstReads(i: Instruction, target: string, source: Value)
    ensures forall x :: x in Reads(Subst(i, target, source)) ==> (x in Reads(i) && x != target) || x in NamesOf(source)
    ensures target !in Reads(i) ==> Subst(i, target, source) == i
    ensures source == Name(target) ==> Subst(i, target, source) == i
  {
    match i
    case Call(f, args, d) => SubstArgs(args, target, source);
    case _ =>
  }

  lemma SubstArgs(vs: seq<Value>, target: string, source: Value)
    ensures forall x :: x in NamesOfAll(SubstValues(vs, target, source)) ==> (x in NamesOfAll(vs) && x != target) || x in NamesOf(source)
    ensures target !in NamesOfAll(vs) || source == Name(target) ==> SubstValues(vs, target, source) == vs
  {
    var ws := SubstValues(vs, target, source);
    forall x | x in NamesOfAll(ws) ensures (x in NamesOfAll(vs) && x != target) || x in NamesOf(source) {
      var k :| 0 <= k < |ws| && ws[k].Name? && ws[k].id == x;
      assert vs[k] == Name(target) || ws[k] == vs[k];
    }
    if target !in NamesOfAll(vs) || source == Name(target) {
      forall k | 0 <= k < |vs| ensures ws[k] == vs[k] {}
    }
  }

  lemma ForwardSettles(r: Body, n: nat, single: set<string>)
    requires n < |r| && Settled(r, n, single)
    ensures Settled(ForwardAt(r, n, single), n + 1, single)
  {
    var s := ForwardAt(r, n, single);
    hide Subst, Reads, IsTemp;
    forall i, j | 0 <= i < n + 1 && i < j < |s| && Forwards(s[i], single) && s[i].source != Name(s[i].destination)
      ensures s[i].destination !in Reads(s[j])
    {
      assert s[i] == r[i];
      if Forwards(r[n], single) && j > n {
        SubstReads(r[j], r[n].destination, r[n].source);
        SourceRead(r[n]);
      }
    }
  }

  lemma SourceRead(i: Instruction)
    requires i.Copy?
    ensures Reads(i) == NamesOf(i.source)
  {
  }

  lemma {:induction false} ForwardFromSettles(r: Body, n: nat, single: set<string>)
    requires n <= |r| && Settled(r, n, single)
    ensures Settled(ForwardFrom(r, n, single), |r|, single)
    decreases |r| - n
  {
    hide Settled, ForwardAt;
    if n < |r| {
      ForwardSettles(r, n, single);
      ForwardFromSettles(ForwardAt(r, n, single), n + 1, single);
    }
  }

  /** Once settled, forwarding changes nothing. */
  lemma {:induction false} SettledStays(r: Body, n: nat, single: set<string>)
    requires n <= |r| && Settled(r, |r|, single)
    ensures ForwardFrom(r, n, single) == r
    decreases |r| - n
  {
    if n < |r| {
      SettledAt(r, n, single);
      SettledStays(r, n + 1, single);
    }
    hide Settled, ForwardAt;
  }

  lemma SettledAt(r: Body, n: nat, single: set<string>)
    requires n < |r| && Settled(r, |r|, single)
    ensures ForwardAt(r, n, single) == r
  {
    hide Subst, Reads;
    if Forwards(r[n], single) {
      forall j | n < j < |r| ensures Subst(r[j], r[n].destination, r[n].source) == r[j] {
        SubstReads(r[j], r[n].destination, r[n].source);
      }
    }
  }

  // ----- Forwarding of labels settles in one pass -----

  predicate Step(tr: Trampolines, a: string, b: string) { a in tr && tr[a] == b }

  ghost predicate Chain(tr: Trampolines, p: seq<string>) {
    p != [] && forall i :: 0 <= i < |p| - 1 ==> Step(tr, p[i], p[i + 1])
  }

  /** The first `n` labels are different. */
  ghost predicate NoRepeat(p: seq<string>, n: int) { n <= |p| && forall i, j :: 0 <= i < j < n ==> p[i] != p[j] }

  function Seen(p: seq<string>): set<string> { set x | x in p }

  predicate Among(p: seq<string>, n: int, x: string)
    requires 0 <= n <= |p|
  {
    exists i :: 0 <= i < n && p[i] == x
  }

  /** The labels that resolving goes through, up to the one it stops at. */
  lemma {:induction false} Trace(tr: Trampolines, path: seq<string>, current: string) returns (p: seq<string>)
    requires Chain(tr, path + [current]) && NoRepeat(path, |path|)
    ensures Chain(tr, p) && NoRepeat(p, |p| - 1) && p[0] == (path + [current])[0]
    ensures var r := ResolveFrom(tr, current, Seen(path)); p[|p| - 1] == r && (r in tr ==> Among(p, |p| - 1, r))
    decreases |tr.Keys - Seen(path)|
  {
    hide Chain, NoRepeat, Seen, Among;
    var whole := path + [current];
    SeenIs(path, current);
    if current in tr && current !in path {
      SmallerRest(tr, path, current);
      ChainMore(tr, whole, tr[current]);
      NoRepeatMore(path, current);
      assert (whole + [tr[current]])[0] == whole[0];
      p := Trace(tr, whole, tr[current]);
    } else {
      p := whole;
      StopsHere(path, current);
    }
  }

  lemma SeenIs(path: seq<string>, current: string)
    ensures Seen(path + [current]) == Seen(path) + {current} && (current in Seen(path) <==> current in path)
  {
  }

  lemma NoRepeatMore(path: seq<string>, current: string)
    requires NoRepeat(path, |path|) && current !in path
    ensures NoRepeat(path + [current], |path| + 1)
  {
  }

  lemma StopsHere(path: seq<string>, current: string)
    ensures NoRepeat(path, |path|) ==> NoRepeat(path + [current], |path|)
    ensures current in path ==> Among(path + [current], |path|, current)
  {
    if current in path {
      var i :| 0 <= i < |path| && path[i] == current;
      assert (path + [current])[i] == current;
    }
  }

  lemma SmallerRest(tr: Trampolines, path: seq<string>, current: string)
    requires current in tr && current !in path
    ensures |tr.Keys - Seen(path + [current])| < |tr.Keys - Seen(path)|
  {
    SeenIs(path, current);
    assert tr.Keys - Seen(path) == (tr.Keys - Seen(path + [current])) + {current};
  }

  lemma ChainMore(tr: Trampolines, p: seq<string>, next: string)
    requires Chain(tr, p) && Step(tr, p[|p| - 1], next)
    ensures Chain(tr, p + [next])
  {
    var q := p + [next];
    forall i | 0 <= i < |q| - 1 ensures Step(tr, q[i], q[i + 1]) {
      if i < |p| - 1 { assert Step(tr, p[i], p[i + 1]); }
    }
    hide Step;
  }

  ghost predicate Cycle(tr: Trampolines, q: seq<string>) {
    |q| >= 2 && q[0] == q[|q| - 1] && Chain(tr, q) && NoRepeat(q, |q| - 1)
  }

  /** Resolving a label that lies on a cycle comes back to it. */
  lemma CycleResolves(tr: Trampolines, q: seq<string>)
    requires Cycle(tr, q)
    ensures Resolve(tr, q[0]) == q[0]
  {
    assert Seen(q[..0]) == {};
    CycleGoesRound(tr, q, 0);
  }

  lemma {:induction false} CycleGoesRound(tr: Trampolines, q: seq<string>, i: int)
    requires Cycle(tr, q) && 0 <= i < |q|
    ensures ResolveFrom(tr, q[i], Seen(q[..i])) == q[0]
    decreases |q| - i
  {
    if i == |q| - 1 {
      assert q[..i][0] == q[0];
    } else {
      assert Step(tr, q[i], q[i + 1]);
      assert q[..i + 1] == q[..i] + [q[i]];
      SeenIs(q[..i], q[i]);
      assert forall j :: 0 <= j < i ==> q[..i][j] != q[i];
      CycleGoesRound(tr, q, i + 1);
    }
  }

  lemma Rotate(tr: Trampolines, q: seq<string>, i: int) returns (r: seq<string>)
    requires Cycle(tr, q) && 0 <= i < |q| - 1
    ensures Cycle(tr, r) && r[0] == q[i]
  {
    var n := |q| - 1;
    r := q[i..n] + q[..i + 1];
    assert forall j :: 0 <= j <= n ==> r[j] == if j < n - i then q[i + j] else q[i + j - n];
    hide Step;
    forall j | 0 <= j < n ensures Step(tr, r[j], r[j + 1]) {
      var a := if j < n - i then i + j else i + j - n;
      assert Step(tr, q[a], q[a + 1]);
    }
  }

  /** A label at which resolving stops in spite of being forwarded lies on a cycle. */
  lemma StopsOnCycle(tr: Trampolines, t: string) returns (q: seq<string>)
    requires Resolve(tr, t) in tr
    ensures Cycle(tr, q) && q[0] == Resolve(tr, t)
  {
    assert [] + [t] == [t] && Seen([]) == {};
    var p := Trace(tr, [], t);
    var n := |p| - 1;
    var j :| 0 <= j < n && p[j] == p[n];
    q := p[j..];
    forall i | 0 <= i < |q| - 1 ensures Step(tr, q[i], q[i + 1]) { assert Step(tr, p[j + i], p[j + i + 1]); }
    hide Step, ResolveFrom;
  }

  /** Resolving the target of a trampoline never gives the trampoline itself. */
  lemma NoReturn(tr: Trampolines, name: string)
    requires name in tr && tr[name] != name
    ensures Resolve(tr, tr[name]) != name
  {
    var t := tr[name];
    assert [] + [t] == [t] && Seen([]) == {};
    var p := Trace(tr, [], t);
    var n := |p| - 1;
    forall j | 0 <= j < n ensures p[j] == name ==> p[n] != name {
      assert Step(tr, p[j], p[j + 1]);
    }
    hide ResolveFrom;
  }

  /** After the targets of all trampolines have been resolved, resolving again changes
      no resolved target. */
  lemma ResolveStays(tr: Trampolines, next: Trampolines, t: string)
    requires next.Keys == tr.Keys && forall name :: name in tr ==> next[name] == Resolve(tr, tr[name])
    ensures Resolve(next, Resolve(tr, t)) == Resolve(tr, t)
  {
    var r := Resolve(tr, t);
    if r in tr {
      var q := StopsOnCycle(tr, t);
      hide Resolve;
      forall i | 0 <= i < |q| - 1 ensures Step(next, q[i], q[i + 1]) {
        assert Step(tr, q[i], q[i + 1]);
        if i + 1 < |q| - 1 {
          var s := Rotate(tr, q, i + 1);
          CycleResolves(tr, s);
        } else {
          CycleResolves(tr, q);
        }
      }
      assert Cycle(next, q);
      CycleResolves(next, q);
    } else {
      NotForwarded(next, r);
    }
  }

  lemma NotForwarded(tr: Trampolines, r: string)
    requires r !in tr
    ensures Resolve(tr, r) == r
  {
  }

  // ----- Retargeting twice -----

  lemma {:induction false} RetargetedAt(code: Body, tr: Trampolines)
    ensures |Retargeted(code, tr)| == |code| && forall k :: 0 <= k < |code| ==> Retargeted(code, tr)[k] == Retarget(code[k], tr)
    decreases |code|
  {
    hide Retarget;
    if code != [] { RetargetedAt(code[1..], tr); }
  }

  lemma {:induction false} RetargetedLead(code: Body, tr: Trampolines)
    ensures Lead(Retargeted(code, tr)) == Lead(code)
    decreases |code|
  {
    hide Resolve;
    if code != [] {
      RetargetedLead(code[1..], tr);
      assert Retargeted(code, tr)[1..] == Retargeted(code[1..], tr);
    }
  }

  lemma {:induction false} RetargetedRest(code: Body, tr: Trampolines, k: int)
    requires 0 <= k <= |code|
    ensures |Retargeted(code, tr)| == |code| && Retargeted(code, tr)[k..] == Retargeted(code[k..], tr)
    decreases |code|
  {
    hide Retarget;
    RetargetedAt(code, tr);
    if k > 0 {
      RetargetedRest(code[1..], tr, k - 1);
      assert code[k..] == code[1..][k - 1..];
      assert Retargeted(code, tr)[k..] == Retargeted(code, tr)[1..][k - 1..];
      assert Retargeted(code, tr)[1..] == Retargeted(code[1..], tr);
    } else {
      assert code[0..] == code && Retargeted(code, tr)[0..] == Retargeted(code, tr);
    }
  }

  lemma RetargetKinds(i: Instruction, tr: Trampolines)
    ensures Retarget(i, tr).Label? == i.Label? && (i.Label? ==> Retarget(i, tr) == i)
    ensures Retarget(i, tr).Jump? == i.Jump? && Retarget(i, tr).BranchFalse? == i.BranchFalse? && Retarget(i, tr).LoopBoundary? == i.LoopBoundary?
    ensures i.Jump? || i.BranchFalse? ==> Retarget(i, tr).target == Resolve(tr, i.target)
    ensures !i.Jump? && !i.BranchFalse? ==> Retarget(i, tr) == i
    ensures DestinationOf(Retarget(i, tr)) == DestinationOf(i) && Reads(Retarget(i, tr)) == Reads(i)
    ensures Retarget(i, tr).Copy? == i.Copy? && (i.Copy? ==> Retarget(i, tr) == i)
  {
    hide Resolve;
  }

  /** The first instruction behind a label that is not a marker. */
  function Behind(body: Body, i: nat): nat
    requires i < |body|
  {
    i + 1 + Lead(body[i + 1..])
  }

  lemma RetargetedBehind(z: Body, tr: Trampolines, i: nat)
    requires i < |z|
    ensures |Retargeted(z, tr)| == |z| && Behind(Retargeted(z, tr), i) == Behind(z, i)
  {
    RetargetedRest(z, tr, i + 1);
    RetargetedLead(z[i + 1..], tr);
    hide Retargeted, Lead;
  }

  lemma TrampolineIff(body: Body, i: nat)
    requires i < |body|
    ensures TrampolineAt(body, i) <==> body[i].Label? && Behind(body, i) < |body| && body[Behind(body, i)].Jump? && body[Behind(body, i)].target != body[i].name
    ensures TrampolineAt(body, i) ==> LandsAt(body, i) == body[Behind(body, i)].target
  {
    hide Lead;
  }

  /** With distinct labels, each trampoline is recorded with its own target. */
  lemma RecordedTarget(z: Body, i: nat)
    requires UniqueLabels(z) && i < |z| && z[i].Label?
    ensures TrampolineAt(z, i) <==> z[i].name in TrampolinesOf(z)
    ensures TrampolineAt(z, i) ==> TrampolinesOf(z)[z[i].name] == LandsAt(z, i)
  {
    UpToRecorded(z, |z|);
    var tr := TrampolinesOf(z);
    hide TrampolineAt, LandsAt, TrampolinesUpTo;
    if z[i].name in tr {
      assert Recorded(z, tr, z[i].name);
      var k: nat :| k < |z| && TrampolineAt(z, k) && z[k].name == z[i].name && tr[z[i].name] == LandsAt(z, k);
      TrampolineIff(z, k);
      SameLabel(z, i, k);
    }
  }

  lemma SameLabel(z: Body, i: nat, k: nat)
    requires UniqueLabels(z) && i < |z| && k < |z| && z[i].Label? && z[k].Label? && z[i].name == z[k].name
    ensures i == k
  {
    assert z[i] == z[k];
  }

  /** Trampolines stay where they are, with their targets resolved. */
  lemma TrampolineStays(z: Body, i: nat)
    requires UniqueLabels(z) && i < |z|
    ensures var tr := TrampolinesOf(z); var y := Retargeted(z, tr);
      && |y| == |z| && (TrampolineAt(y, i) <==> TrampolineAt(z, i))
      && (TrampolineAt(z, i) ==> LandsAt(y, i) == Resolve(tr, LandsAt(z, i)) && y[i] == z[i])
  {
    var tr := TrampolinesOf(z);
    var y := Retargeted(z, tr);
    RetargetedAt(z, tr);
    RetargetedBehind(z, tr, i);
    TrampolineIff(z, i);
    TrampolineIff(y, i);
    RetargetKinds(z[i], tr);
    var b := Behind(z, i);
    if b < |z| { RetargetKinds(z[b], tr); }
    hide TrampolineAt, LandsAt, TrampolinesOf, Retargeted, Retarget, Behind, Resolve, UniqueLabels;
    if z[i].Label? && b < |z| && z[b].Jump? {
      RecordedTarget(z, i);
      if TrampolineAt(z, i) {
        NoReturn(tr, z[i].name);
      } else {
        NotForwarded(tr, z[i].name);
      }
    }
  }

  lemma {:induction false} TrampolinesAfter(z: Body, n: nat)
    requires UniqueLabels(z) && n <= |z|
    ensures var tr := TrampolinesOf(z); var y := Retargeted(z, tr);
      && |y| == |z|
      && TrampolinesUpTo(y, n).Keys == TrampolinesUpTo(z, n).Keys
      && forall name :: name in TrampolinesUpTo(z, n) ==> TrampolinesUpTo(y, n)[name] == Resolve(tr, TrampolinesUpTo(z, n)[name])
  {
    var tr := TrampolinesOf(z);
    RetargetedAt(z, tr);
    hide Retargeted, Retarget, TrampolineAt, LandsAt, UniqueLabels, Resolve, TrampolinesOf;
    if n > 0 {
      TrampolinesAfter(z, n - 1);
      TrampolineStays(z, n - 1);
    }
  }

  /** Forwarding labels again changes nothing. */
  lemma RetargetTwice(z: Body)
    requires UniqueLabels(z)
    ensures var y := Retargeted(z, TrampolinesOf(z)); Retargeted(y, TrampolinesOf(y)) == y
  {
    var tr := TrampolinesOf(z);
    var y := Retargeted(z, tr);
    var next := TrampolinesOf(y);
    RetargetedAt(z, tr);
    RetargetedAt(y, next);
    TrampolinesAfter(z, |z|);
    assert next.Keys == tr.Keys && forall name :: name in tr ==> next[name] == Resolve(tr, tr[name]);
    hide Retargeted, TrampolinesUpTo, UniqueLabels, Resolve;
    forall k | 0 <= k < |y| ensures Retarget(y[k], next) == y[k] {
      RetargetKinds(z[k], tr);
      if z[k].Jump? || z[k].BranchFalse? {
        ResolveStays(tr, next, z[k].target);
        hide ResolveFrom;
      }
    }
    hide Retarget;
  }

  // ----- What each pass can shrink -----

  function Weighs(i: Instruction): nat {
    if i.BinaryOperation? || i.BranchFalse? || (i.Call? && i.result.Some?) then 1 else 0
  }

  /** Operations, branches, and calls whose result is kept. */
  function Weight(body: Body): nat {
    if body == [] then 0 else Weighs(body[0]) + Weight(body[1..])
  }

  lemma {:induction false} WeightSplit(a: Body, b: Body)
    ensures Weight(a + b) == Weight(a) + Weight(b)
  {
    if a == [] {
      assert a + b == b;
    } else {
      WeightSplit(a[1..], b);
      assert (a + b)[1..] == a[1..] + b;
    }
  }

  /** Neither longer nor heavier; and if as long and as heavy, then the same. */
  ghost predicate Shrinks(a: Body, b: Body) {
    |b| <= |a| && Weight(b) <= Weight(a) && (|b| == |a| && Weight(b) == Weight(a) ==> b == a)
  }

  ghost predicate SameSize(a: Body, b: Body) { |b| == |a| && Weight(b) == Weight(a) }

  /** Piece by piece. */
  lemma ShrinksBoth(a: Body, a': Body, b: Body, b': Body)
    requires Shrinks(a, a') && Shrinks(b, b')
    ensures Shrinks(a + b, a' + b')
  {
    WeightSplit(a, b);
    WeightSplit(a', b');
    hide Weight;
  }

  lemma ShrinksSelf(a: Body)
    ensures Shrinks(a, a)
  {
  }

  lemma OneWeight(i: Instruction)
    ensures Weight([i]) == Weighs(i) && Weight([]) == 0
  {
    assert [i][1..] == [];
    hide Weighs;
  }

  /** Dropping an instruction shrinks. */
  lemma DroppedShrinks(i: Instruction)
    ensures Shrinks([i], [])
  {
    OneWeight(i);
  }

  lemma {:induction false} PointwiseShrinks(a: Body, b: Body)
    requires |a| == |b| && forall k :: 0 <= k < |a| ==> b[k] == a[k] || Weighs(b[k]) < Weighs(a[k])
    ensures Shrinks(a, b)
    decreases |a|
  {
    hide Weighs;
    if a != [] {
      forall k | 0 <= k < |a[1..]| ensures b[1..][k] == a[1..][k] || Weighs(b[1..][k]) < Weighs(a[1..][k]) {
        assert b[1..][k] == b[k + 1] && a[1..][k] == a[k + 1];
      }
      PointwiseShrinks(a[1..], b[1..]);
      assert a == [a[0]] + a[1..] && b == [b[0]] + b[1..];
    }
  }

  lemma {:induction false} PointwiseSameSize(a: Body, b: Body)
    requires |a| == |b| && forall k :: 0 <= k < |a| ==> Weighs(b[k]) == Weighs(a[k])
    ensures SameSize(a, b)
    decreases |a|
  {
    hide Weighs;
    if a != [] {
      forall k | 0 <= k < |a[1..]| ensures Weighs(b[1..][k]) == Weighs(a[1..][k]) {
        assert b[1..][k] == b[k + 1] && a[1..][k] == a[k + 1];
      }
      PointwiseSameSize(a[1..], b[1..]);
    }
  }

  lemma FoldOperationsShrinks(body: Body, bits: (string, int, int) -> int)
    ensures Shrinks(body, FoldOperations(body, bits))
  {
    var r := FoldOperations(body, bits);
    forall k | 0 <= k < |body| ensures r[k] == body[k] || Weighs(r[k]) < Weighs(body[k]) {
      assert r[k] == FoldOperation(body[k], bits);
      hide FoldValue;
    }
    hide FoldOperation;
    PointwiseShrinks(body, r);
  }

  lemma {:induction false} FoldedShrinks(body: Body)
    ensures Shrinks(body, Folded(body))
    decreases |body|
  {
    if body == [] {
      ShrinksSelf([]);
    } else {
      FoldedShrinks(body[1..]);
      FoldOneShrinks(body[0]);
      hide Shrinks, FoldOne, Weight;
      ShrinksBoth([body[0]], FoldOne(body[0]), body[1..], Folded(body[1..]));
      assert body == [body[0]] + body[1..];
    }
  }

  lemma FoldOneShrinks(i: Instruction)
    ensures Shrinks([i], FoldOne(i))
  {
    OneWeight(i);
    OneWeight(if i.BranchFalse? then Jump(i.target) else i);
    hide Weight;
  }

  lemma {:induction false} PrunedShrinks(body: Body, skipping: bool)
    ensures Shrinks(body, Pruned(body, skipping))
    decreases |body|
  {
    hide Shrinks, Weight, Unconditional;
    if body == [] {
      ShrinksSelf([]);
    } else {
      var i, rest := body[0], body[1..];
      assert body == [i] + rest;
      PrunedCons(i, rest, skipping);
      PrunedShrinks(rest, false);
      PrunedShrinks(rest, true);
      ShrinksSelf([i]);
      DroppedShrinks(i);
      hide Pruned;
      ShrinksBoth([i], [i], rest, Pruned(rest, false));
      ShrinksBoth([i], [i], rest, Pruned(rest, true));
      ShrinksBoth([i], [], rest, Pruned(rest, true));
    }
  }

  lemma {:induction false} UnlabelledShrinks(body: Body, referenced: set<string>)
    ensures Shrinks(body, Unlabelled(body, referenced))
    decreases |body|
  {
    hide Shrinks, Weight, KeptBy;
    if body == [] {
      ShrinksSelf([]);
    } else {
      var i, rest := body[0], body[1..];
      assert body == [i] + rest;
      UnlabelledCons(i, rest, referenced);
      UnlabelledShrinks(rest, referenced);
      ShrinksSelf([i]);
      DroppedShrinks(i);
      hide Unlabelled;
      ShrinksBoth([i], if KeptBy(referenced, i) then [i] else [], rest, Unlabelled(rest, referenced));
    }
  }

  lemma {:induction false} AliveShrinks(body: Body, used: set<string>)
    ensures Shrinks(body, AliveOf(body, used))
    decreases |body|
  {
    if body == [] {
      ShrinksSelf([]);
    } else {
      AliveShrinks(body[1..], used);
      AliveOneShrinks(body[0], used);
      hide Shrinks, Alive, Weight;
      ShrinksBoth([body[0]], Alive(body[0], used), body[1..], AliveOf(body[1..], used));
      assert body == [body[0]] + body[1..];
    }
  }

  lemma AliveOneShrinks(i: Instruction, used: set<string>)
    ensures Shrinks([i], Alive(i, used))
  {
    OneWeight(i);
    OneWeight(if i.Call? then i.(result := None) else i);
    hide Weight, IsTemp;
  }

  lemma {:induction false} CollapsedShrinks(body: Body)
    ensures Shrinks(body, Collapsed(body))
    decreases |body|
  {
    hide Shrinks, Weight;
    if body == [] {
      ShrinksSelf([]);
    } else if JumpsToNext(body) {
      var n := 1 + Lead(body[1..]);
      CollapsedShrinks(body[n..]);
      DroppedShrinks(body[0]);
      ShrinksSelf(body[1..n]);
      ShrinksBoth([body[0]], [], body[1..n], body[1..n]);
      ShrinksBoth([body[0]] + body[1..n], [] + body[1..n], body[n..], Collapsed(body[n..]));
      assert body == [body[0]] + body[1..n] + body[n..];
      assert [] + body[1..n] == body[1..n];
    } else {
      CollapsedShrinks(body[1..]);
      ShrinksSelf([body[0]]);
      ShrinksBoth([body[0]], [body[0]], body[1..], Collapsed(body[1..]));
      assert body == [body[0]] + body[1..];
    }
  }

  lemma {:induction false} InvertedShrinks(body: Body)
    ensures Shrinks(body, Inverted(body))
    decreases |body|
  {
    hide *;
    assert body[0..] == body;
    if body == [] {
      InvertedEmpty();
      ShrinksSelf([]);
    } else if OverJump(body).Some? {
      var j := OverJump(body).value;
      InvertedSome(body, 0, j);
      InvertedShrinks(body[j + 1..]);
      InvertedHead(body, j);
      ShrinksBoth(body[..j + 1], [InvertBranch(body[0], body[j].target)] + body[1..j], body[j + 1..], Inverted(body[j + 1..]));
      assert body == body[..j + 1] + body[j + 1..] && body[0 + 1..j] == body[1..j];
    } else {
      InvertedNone(body, 0);
      InvertedShrinks(body[1..]);
      ShrinksSelf([body[0]]);
      ShrinksBoth([body[0]], [body[0]], body[1..], Inverted(body[1..]));
      assert body == [body[0]] + body[1..];
    }
  }

  lemma InvertedHead(body: Body, j: int)
    requires 1 <= j < |body| && Invertible(body[0]) && body[j].Jump?
    ensures Shrinks(body[..j + 1], [InvertBranch(body[0], body[j].target)] + body[1..j])
  {
    var head := InvertBranch(body[0], body[j].target);
    assert body[..j + 1] == [body[0]] + body[1..j] + [body[j]];
    assert Weighs(head) == 1 && Weighs(body[0]) == 1 && Weighs(body[j]) == 0;
    OneWeight(head);
    OneWeight(body[0]);
    OneWeight(body[j]);
    hide Weight, Weighs, Inverse, Invertible, InvertBranch;
    WeightSplit([head], body[1..j]);
    WeightSplit([body[0]] + body[1..j], [body[j]]);
    WeightSplit([body[0]], body[1..j]);
  }

  lemma RetargetedSameSize(body: Body, tr: Trampolines)
    ensures SameSize(body, Retargeted(body, tr))
  {
    RetargetedAt(body, tr);
    var r := Retargeted(body, tr);
    forall k | 0 <= k < |body| ensures Weighs(r[k]) == Weighs(body[k]) {
      hide Resolve;
    }
    hide Retarget, Retargeted;
    PointwiseSameSize(body, r);
  }

  /** Forwarding keeps destinations, kinds and labels. */
  ghost predicate SameShape(i: Instruction, j: Instruction) {
    DestinationOf(i) == DestinationOf(j) && i.Copy? == j.Copy? && Weighs(i) == Weighs(j) && i.Label? == j.Label? && (i.Label? ==> i == j)
  }

  lemma SubstSameShape(i: Instruction, target: string, source: Value)
    ensures SameShape(i, Subst(i, target, source))
  {
  }

  lemma {:induction false} ForwardFromShape(r: Body, n: nat, single: set<string>)
    requires n <= |r|
    ensures forall k :: 0 <= k < |r| ==> SameShape(r[k], ForwardFrom(r, n, single)[k])
    decreases |r| - n
  {
    if n < |r| {
      var s := ForwardAt(r, n, single);
      forall k | 0 <= k < |r| ensures SameShape(r[k], s[k]) {
        if Forwards(r[n], single) { SubstSameShape(r[k], r[n].destination, r[n].source); }
        hide Subst;
      }
      hide ForwardAt, SameShape, Forwards;
      ForwardFromShape(s, n + 1, single);
      forall k | 0 <= k < |r| ensures SameShape(r[k], ForwardFrom(r, n, single)[k]) { ShapeThen(r[k], s[k], ForwardFrom(r, n, single)[k]); }
    }
  }

  lemma ShapeThen(i: Instruction, j: Instruction, k: Instruction)
    requires SameShape(i, j) && SameShape(j, k)
    ensures SameShape(i, k)
  {
    hide Weighs;
  }

  lemma ForwardedSameSize(body: Body)
    ensures SameSize(body, Forwarded(body)) && forall k :: 0 <= k < |body| ==> SameShape(body[k], Forwarded(body)[k])
  {
    ForwardFromShape(body, 0, Singles(body));
    hide ForwardFrom, Singles, Weighs;
    PointwiseSameSize(body, Forwarded(body));
  }

  // ----- A round that shrinks nothing settles everything -----

  lemma {:induction false} CountSame(a: Body, b: Body, name: string)
    requires |a| == |b| && forall k :: 0 <= k < |a| ==> DestinationOf(a[k]) == DestinationOf(b[k])
    ensures CountDefs(a, name) == CountDefs(b, name)
    decreases |a|
  {
    hide DestinationOf;
    if a != [] {
      forall k | 0 <= k < |a[1..]| ensures DestinationOf(a[1..][k]) == DestinationOf(b[1..][k]) { assert a[1..][k] == a[k + 1] && b[1..][k] == b[k + 1]; }
      CountSame(a[1..], b[1..], name);
    }
  }

  lemma SinglesSame(a: Body, b: Body)
    requires |a| == |b| && forall k :: 0 <= k < |a| ==> DestinationOf(a[k]) == DestinationOf(b[k])
    ensures Singles(a) == Singles(b)
  {
    forall name { CountSame(a, b, name); }
    hide CountDefs, DestinationOf;
  }

  lemma {:induction false} FoldedSettled(body: Body)
    requires Folded(body) == body
    ensures forall k :: 0 <= k < |body| ==> ConstantTruth(body[k]).None?
    decreases |body|
  {
    if body != [] {
      FoldedShrinks(body[1..]);
      var rest := Folded(body[1..]);
      assert Folded(body) == FoldOne(body[0]) + rest;
      FoldOneKinds(body[0]);
      hide ConstantTruth, FoldOne, Weight, Folded;
      assert FoldOne(body[0]) != [];
      assert (FoldOne(body[0]) + rest)[0] == body[0];
      assert rest == (FoldOne(body[0]) + rest)[1..];
      FoldedSettled(body[1..]);
      forall k | 0 <= k < |body| ensures ConstantTruth(body[k]).None? { if k > 0 { assert body[k] == body[1..][k - 1]; } }
    }
  }

  lemma FoldOneKinds(i: Instruction)
    ensures |FoldOne(i)| <= 1 && (ConstantTruth(i).Some? && FoldOne(i) != [] ==> FoldOne(i)[0] != i)
  {
  }

  lemma {:induction false} NoConstantFolded(body: Body)
    requires forall k :: 0 <= k < |body| ==> ConstantTruth(body[k]).None?
    ensures Folded(body) == body
    decreases |body|
  {
    hide ConstantTruth;
    if body != [] {
      forall k | 0 <= k < |body[1..]| ensures ConstantTruth(body[1..][k]).None? { assert body[1..][k] == body[k + 1]; }
      NoConstantFolded(body[1..]);
    }
  }

  lemma RetargetConstant(i: Instruction, tr: Trampolines)
    ensures ConstantTruth(Retarget(i, tr)) == ConstantTruth(i)
    ensures forall bits :: FoldOperation(i, bits) == i ==> FoldOperation(Retarget(i, tr), bits) == Retarget(i, tr)
  {
    hide Resolve, FoldValue;
  }

  lemma RetargetedSettled(z: Body, tr: Trampolines, single: set<string>)
    requires Settled(z, |z|, single)
    ensures Settled(Retargeted(z, tr), |z|, single)
  {
    var y := Retargeted(z, tr);
    RetargetedAt(z, tr);
    hide Reads, Retarget, Retargeted;
    forall i, j | 0 <= i < |z| && i < j < |y| && Forwards(y[i], single) && y[i].source != Name(y[i].destination) ensures y[i].destination !in Reads(y[j]) {
      RetargetKinds(z[i], tr);
      RetargetKinds(z[j], tr);
    }
  }

  /** Retargeted, a body on which propagation has nothing left to do stays such. */
  lemma NothingToPropagate(x: Body, bits: (string, int, int) -> int, tr: Trampolines)
    requires FoldOperations(Forwarded(x), bits) == Forwarded(x)
    ensures Propagated(Retargeted(Forwarded(x), tr), bits) == Retargeted(Forwarded(x), tr)
  {
    var z := Forwarded(x);
    var y := Retargeted(z, tr);
    ForwardedSameSize(x);
    RetargetedAt(z, tr);
    var single := Singles(x);
    ForwardFromSettles(x, 0, single);
    hide ForwardFrom, Weight, FoldOperation;
    assert Settled(z, |z|, single);
    RetargetedSettled(z, tr, single);
    forall k | 0 <= k < |y| ensures DestinationOf(y[k]) == DestinationOf(x[k]) && FoldOperation(y[k], bits) == y[k] {
      RetargetKinds(z[k], tr);
      RetargetConstant(z[k], tr);
      assert FoldOperations(z, bits)[k] == FoldOperation(z[k], bits);
      hide Retarget;
    }
    hide Settled, Retargeted, DestinationOf, Singles;
    SinglesSame(x, y);
    SettledStays(y, 0, single);
    assert FoldOperations(y, bits) == y;
  }

  lemma NothingToFold(z: Body, tr: Trampolines)
    requires Folded(z) == z
    ensures Folded(Retargeted(z, tr)) == Retargeted(z, tr)
  {
    FoldedSettled(z);
    RetargetedAt(z, tr);
    var y := Retargeted(z, tr);
    forall k | 0 <= k < |y| ensures ConstantTruth(y[k]).None? { RetargetConstant(z[k], tr); }
    hide Folded, Retargeted, Retarget, ConstantTruth;
    NoConstantFolded(y);
  }

  lemma UniqueForwarded(x: Body, bits: (string, int, int) -> int)
    requires UniqueLabels(x)
    ensures UniqueLabels(Forwarded(x)) && UniqueLabels(Propagated(x, bits))
  {
    ForwardedSameSize(x);
    var z, p := Forwarded(x), Propagated(x, bits);
    hide Forwarded, Weight;
    forall k | 0 <= k < |x| ensures z[k].Label? == x[k].Label? && p[k].Label? == x[k].Label? && (x[k].Label? ==> z[k] == x[k] && p[k] == x[k]) {
      assert p[k] == FoldOperation(z[k], bits);
      hide FoldValue;
    }
  }

  /** The six control-flow passes after propagation, and dead-code elimination. */
  lemma StagesShrink(p: Body)
    ensures var one := Folded(p); var two := Retargeted(one, TrampolinesOf(one)); var three := Inverted(two); var four := Collapsed(three);
      var five := Pruned(four, false); var six := Unlabelled(five, Referenced(five)); var y := WithoutDead(six);
      && y == WithoutDead(Simplified(p))
      && Shrinks(p, one) && SameSize(one, two) && Shrinks(two, three) && Shrinks(three, four) && Shrinks(four, five) && Shrinks(five, six) && Shrinks(six, y)
  {
    hide *;
    var one := Folded(p);
    var two := Retargeted(one, TrampolinesOf(one));
    var three := Inverted(two);
    var four := Collapsed(three);
    var five := Pruned(four, false);
    var six := Unlabelled(five, Referenced(five));
    FoldedShrinks(p);
    RetargetedSameSize(one, TrampolinesOf(one));
    InvertedShrinks(two);
    CollapsedShrinks(three);
    PrunedShrinks(four, false);
    UnlabelledShrinks(five, Referenced(five));
    WithoutDeadIs(six);
    AliveShrinks(six, UsedNames(six));
    SimplifiedIs(p);
  }

  lemma WithoutDeadIs(body: Body)
    ensures WithoutDead(body) == AliveOf(body, UsedNames(body))
  {
  }

  /** A round either shrinks the body or leaves one that the next round returns
      unchanged. */
  lemma RoundShrinksOrSettles(x: Body, bits: (string, int, int) -> int)
    requires UniqueLabels(x)
    ensures var y := OneRound(x, bits);
      |y| <= |x| && Weight(y) <= Weight(x) && (|y| == |x| && Weight(y) == Weight(x) ==> OneRound(y, bits) == y)
  {
    var z := Forwarded(x);
    var p := Propagated(x, bits);
    ForwardedSameSize(x);
    FoldOperationsShrinks(z, bits);
    StagesShrink(p);
    UniqueForwarded(x, bits);
    var y := OneRound(x, bits);
    hide Folded, Retargeted, Inverted, Collapsed, Pruned, Unlabelled, WithoutDead, Simplified, Forwarded, FoldOperations, Weight, TrampolinesOf, Referenced, UniqueLabels;
    if |y| == |x| && Weight(y) == Weight(x) {
      assert p == z;
      var tr := TrampolinesOf(z);
      assert Folded(z) == z && y == Retargeted(z, tr);
      assert Inverted(y) == y && Collapsed(y) == y && Pruned(y, false) == y && Unlabelled(y, Referenced(y)) == y && WithoutDead(y) == y;
      NothingToPropagate(x, bits, tr);
      NothingToFold(z, tr);
      RetargetTwice(z);
      SimplifiedIs(y);
    }
  }

  // ----- Labels stay distinct -----

  lemma {:induction false} DistinctIsUnique(body: Body)
    requires DistinctNames(Labels(body))
    ensures UniqueLabels(body)
    decreases |body|
  {
    if body != [] {
      var rest := body[1..];
      assert Labels(body) == (if body[0].Label? then [body[0].name] else []) + Labels(rest);
      var n := |Labels(body)| - |Labels(rest)|;
      forall i, j | 0 <= i < j < |Labels(rest)| ensures Labels(rest)[i] != Labels(rest)[j] {
        assert Labels(rest)[i] == Labels(body)[i + n] && Labels(rest)[j] == Labels(body)[j + n];
      }
      DistinctIsUnique(rest);
      forall i, j | 0 <= i < j < |body| && body[i].Label? && body[j].Label? ensures body[i] != body[j] {
        assert body[j] == rest[j - 1];
        if i == 0 {
          LabelListed(rest, body[j].name);
          assert body[j].name in Labels(rest);
          HeadDiffers(body[0].name, Labels(rest), body[j].name);
        } else {
          assert body[i] == rest[i - 1];
        }
      }
    }
  }

  lemma HeadDiffers(x: string, rest: seq<string>, y: string)
    requires DistinctNames([x] + rest) && y in rest
    ensures x != y
  {
    var k :| 0 <= k < |rest| && rest[k] == y;
    assert ([x] + rest)[0] == x && ([x] + rest)[k + 1] == y;
  }

  lemma {:induction false} UnlabelledNames(body: Body, referenced: set<string>)
    requires DistinctNames(Labels(body))
    ensures DistinctNames(Labels(Unlabelled(body, referenced)))
    ensures forall x :: x in Labels(Unlabelled(body, referenced)) ==> x in Labels(body)
    decreases |body|
  {
    if body != [] {
      var i, rest := body[0], body[1..];
      assert body == [i] + rest;
      UnlabelledCons(i, rest, referenced);
      var kept := Unlabelled(rest, referenced);
      LabelsSplit([i], kept);
      LabelsSplit([i], rest);
      LabelsOfOne(i);
      hide Unlabelled, Labels, KeptBy;
      TailDistinct(Labels([i]), Labels(rest));
      UnlabelledNames(rest, referenced);
      if KeptBy(referenced, i) {
        if i.Label? { ConsKeepsDistinct(i.name, Labels(rest), Labels(kept)); } else { assert [] + Labels(kept) == Labels(kept); }
      } else {
        assert [] + kept == kept;
      }
    }
  }

  lemma LabelsOfOne(i: Instruction)
    ensures Labels([i]) == if i.Label? then [i.name] else []
  {
    assert [i][1..] == [];
  }

  lemma TailDistinct(a: seq<string>, b: seq<string>)
    requires DistinctNames(a + b)
    ensures DistinctNames(b)
  {
    forall i, j | 0 <= i < j < |b| ensures b[i] != b[j] { assert (a + b)[|a| + i] == b[i] && (a + b)[|a| + j] == b[j]; }
  }

  lemma ConsKeepsDistinct(x: string, all: seq<string>, some: seq<string>)
    requires DistinctNames([x] + all) && DistinctNames(some) && forall y :: y in some ==> y in all
    ensures DistinctNames([x] + some)
  {
    forall j | 0 <= j < |some| ensures some[j] != x {
      assert some[j] in all;
      HeadDiffers(x, all, some[j]);
    }
  }

  lemma {:induction false} AliveNames(body: Body, used: set<string>)
    ensures Labels(AliveOf(body, used)) == Labels(body)
    decreases |body|
  {
    if body != [] {
      AliveNames(body[1..], used);
      AliveOneNames(body[0], used);
      hide Alive;
      LabelsSplit(Alive(body[0], used), AliveOf(body[1..], used));
      LabelsSplit([body[0]], body[1..]);
      assert body == [body[0]] + body[1..];
    }
  }

  lemma AliveOneNames(i: Instruction, used: set<string>)
    ensures Labels(Alive(i, used)) == Labels([i])
  {
    LabelsOfOne(i);
    LabelsOfOne(if i.Call? then i.(result := None) else i);
    hide IsTemp;
  }

  lemma RoundKeepsUnique(x: Body, bits: (string, int, int) -> int)
    requires UniqueLabels(x)
    ensures UniqueLabels(OneRound(x, bits))
  {
    hide *;
    var p := Propagated(x, bits);
    UniqueForwarded(x, bits);
    UniqueIsDistinct(p);
    var one := Folded(p);
    FoldedFrom(p, "");
    var two := Retargeted(one, TrampolinesOf(one));
    RetargetedFrom(one, TrampolinesOf(one), "");
    var three := Inverted(two);
    InvertedFrom(two, "");
    var four := Collapsed(three);
    CollapsedFrom(three, "");
    var five := Pruned(four, false);
    PrunedFrom(four, false, "");
    var six := Unlabelled(five, Referenced(five));
    UnlabelledNames(five, Referenced(five));
    SimplifiedIs(p);
    AliveNames(six, UsedNames(six));
    WithoutDeadIs(six);
    OneRoundIs(x, bits);
    DistinctIsUnique(OneRound(x, bits));
  }

  lemma OneRoundIs(body: Body, bits: (string, int, int) -> int)
    ensures OneRound(body, bits) == WithoutDead(Simplified(Propagated(body, bits)))
  {
  }

  // ----- The passes as the compiler runs them -----

  method Propagate(body: Body, bits: (string, int, int) -> int) returns (result: Body)
    ensures result == Propagated(body, bits)
  {
    hide Subst, FoldOperation, Singles, Forwards;
    var single := Singles(body);
    result := body;
    for index := 0 to |body|
      invariant |result| == |body| && ForwardFrom(result, index, single) == ForwardFrom(body, 0, single)
    {
      ghost var before := result;
      var i := result[index];
      if Forwards(i, single) {
        ForwardsCopy(i, single);
        for follow := index + 1 to |result|
          invariant |result| == |body| && forall j :: 0 <= j < |result| ==>
            result[j] == if index < j < follow then Subst(before[j], i.destination, i.source) else before[j]
        {
          result := result[follow := Subst(result[follow], i.destination, i.source)];
        }
      }
      assert result == ForwardAt(before, index, single);
    }
    ghost var forwarded := result;
    for index := 0 to |result|
      invariant |result| == |body| && forall j :: 0 <= j < |result| ==> result[j] == if j < index then FoldOperation(forwarded[j], bits) else forwarded[j]
    {
      result := result[index := FoldOperation(result[index], bits)];
    }
    assert result == FoldOperations(forwarded, bits);
  }

  lemma ForwardsCopy(i: Instruction, single: set<string>)
    requires Forwards(i, single)
    ensures i.Copy?
  {
  }

  method EliminateDeadCode(body: Body) returns (result: Body)
    ensures result == WithoutDead(body)
  {
    hide *;
    var used := UsedNames(body);
    WithoutDeadIs(body);
    result := [];
    AliveEnds(body, used);
    for index := 0 to |body|
      invariant result + AliveOf(body[index..], used) == AliveOf(body, used)
    {
      var i, rest := body[index], body[index + 1..];
      assert body[index..] == [i] + rest;
      AliveCons(i, rest, used);
      Associative(result, Alive(i, used), AliveOf(rest, used));
      result := result + Alive(i, used);
    }
    assert body[|body|..] == [];
  }

  lemma AliveEnds(body: Body, used: set<string>)
    ensures [] + AliveOf(body[0..], used) == AliveOf(body, used) && AliveOf([], used) == []
  {
    assert body[0..] == body;
  }

  lemma AliveCons(i: Instruction, rest: Body, used: set<string>)
    ensures AliveOf([i] + rest, used) == Alive(i, used) + AliveOf(rest, used)
  {
    assert ([i] + rest)[1..] == rest;
  }
}
