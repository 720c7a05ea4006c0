/** Basic blocks and edges over the flat code (cc/cfg.py:98-143, 211-259,
    319-336).  A block is named by its index in the block list. */
module Cfg {
  import opened Common
  import opened IR

  datatype Block = Block(name: string, instructions: Body, terminator: Option<Instruction>)

  /** Edge lists: block 0 is the entry. */
  datatype Graph = Graph(succ: seq<seq<int>>, pred: seq<seq<int>>)

  datatype ControlFlowGraph = ControlFlowGraph(blocks: seq<Block>, graph: Graph)

  /** The predecessor lists are the successor lists reversed. */
  ghost predicate ValidGraph(g: Graph) {
    && |g.succ| > 0 && |g.pred| == |g.succ|
    && (forall i, j :: 0 <= i < |g.succ| && j in g.succ[i] ==> 0 <= j < |g.succ|)
    && (forall i, j :: 0 <= j < |g.pred| && i in g.pred[j] ==> 0 <= i < |g.succ|)
    && (forall i, j :: 0 <= i < |g.succ| && 0 <= j < |g.succ| ==> (i in g.pred[j] <==> j in g.succ[i]))
  }

  /** Each edge is listed as often by the block it enters as by the one it leaves. */
  ghost predicate EdgesCounted(g: Graph) {
    |g.pred| == |g.succ| && forall i, j :: 0 <= i < |g.succ| && 0 <= j < |g.succ| ==> multiset(g.pred[j])[i] == multiset(g.succ[i])[j]
  }

  // ----- Where blocks begin -----

  predicate Leader(body: Body, i: int)
    requires 0 <= i < |body|
  {
    i == 0 || body[i].Label? || IsTerminator(body[i - 1])
  }

  predicate Synthetic(name: string) {
    name != "" && name[0] == '<'
  }

  function Decimal(n: nat): string {
    if n < 10 then ["0123456789"[n]] else Decimal(n / 10) + ["0123456789"[n % 10]]
  }

  function BlockName(body: Body, i: nat): (name: string)
    ensures i < |body| && body[i].Label? ==> name == body[i].name
    ensures !(i < |body| && body[i].Label?) ==> Synthetic(name)
  {
    if i < |body| && body[i].Label? then body[i].name
    else if i == 0 then "<entry>"
    else "<fallthrough_" + Decimal(i) + ">"
  }

  datatype Start = Start(index: nat, name: string)

  /** Piece `k` of the body runs from one leader up to the next. */
  ghost predicate Piece(body: Body, cuts: seq<int>, k: int)
    requires 0 <= k < |cuts| - 1
  {
    && 0 <= cuts[k] <= cuts[k + 1] <= |body|
    && (body != [] ==> cuts[k] < cuts[k + 1] && Leader(body, cuts[k]))
    && (forall i :: cuts[k] < i < cuts[k + 1] ==> !Leader(body, i))
  }

  /** `cuts` splits `[0, |body|)` exactly at the leaders. */
  ghost predicate Cut(body: Body, cuts: seq<int>) {
    && |cuts| >= 2 && cuts[0] == 0 && cuts[|cuts| - 1] == |body|
    && (body == [] ==> |cuts| == 2)
    && (forall k {:trigger Piece(body, cuts, k)} :: 0 <= k < |cuts| - 1 ==> Piece(body, cuts, k))
  }

  /** Piece boundaries found so far, the last one still open at `index`. */
  ghost predicate CutSoFar(body: Body, cuts: seq<int>, index: int) {
    && |cuts| >= 1 && cuts[0] == 0
    && (forall k {:trigger Piece(body, cuts, k)} :: 0 <= k < |cuts| - 1 ==> Piece(body, cuts, k))
    && (body == [] ==> |cuts| == 1)
    && (body != [] ==> cuts[|cuts| - 1] < index <= |body| && Piece(body, cuts + [index], |cuts| - 1))
  }

  lemma CutFurther(body: Body, cuts: seq<int>, index: int)
    requires body != [] && index < |body| && CutSoFar(body, cuts, index)
    ensures Leader(body, index) ==> CutSoFar(body, cuts + [index], index + 1)
    ensures !Leader(body, index) ==> CutSoFar(body, cuts, index + 1)
  {
    assert Piece(body, cuts + [index], |cuts| - 1);
    forall k | 0 <= k < |cuts| - 1 ensures Piece(body, cuts + [index], k) {
      assert Piece(body, cuts, k);
    }
  }

  lemma CutComplete(body: Body, cuts: seq<int>)
    requires CutSoFar(body, cuts, |body|)
    ensures Cut(body, cuts + [|body|])
  {
    var all := cuts + [|body|];
    forall k | 0 <= k < |all| - 1 ensures Piece(body, all, k) {
      if k < |cuts| - 1 { assert Piece(body, cuts, k); }
    }
  }

  lemma CutBegins(body: Body)
    ensures CutSoFar(body, [0], 1) && BlockName(body, 0) == if body != [] && body[0].Label? then body[0].name else "<entry>"
  {
  }

  lemma CutSoFarEmpty(body: Body, cuts: seq<int>, index: int)
    requires CutSoFar(body, cuts, index) && (body == [] || index == |body|)
    ensures CutSoFar(body, cuts, |body|)
  {
  }

  lemma NameAt(body: Body, i: int)
    requires 0 < i < |body|
    ensures BlockName(body, i) == if body[i].Label? then body[i].name else "<fallthrough_" + Decimal(i) + ">"
    ensures Leader(body, i) <==> body[i].Label? || IsTerminator(body[i - 1])
  {
  }

  method IdentifyBlockStarts(body: Body) returns (starts: seq<Start>, cuts: seq<int>)
    ensures Cut(body, cuts) && |starts| == |cuts| - 1
    ensures forall k :: 0 <= k < |starts| ==> starts[k].index == cuts[k] && starts[k].name == BlockName(body, starts[k].index)
  {
    hide *;
    starts := [Start(0, if body != [] && body[0].Label? then body[0].name else "<entry>")];
    cuts := [0];
    var index := 1;
    CutBegins(body);
    while index < |body|
      invariant 1 <= index && (index <= |body| || body == [])
      invariant CutSoFar(body, cuts, index) && |starts| == |cuts| && |cuts| >= 1 && starts[|starts| - 1].index == cuts[|cuts| - 1] < index
      invariant forall k :: 0 <= k < |starts| ==> starts[k].index == cuts[k] && starts[k].name == BlockName(body, starts[k].index)
    {
      CutFurther(body, cuts, index);
      NameAt(body, index);
      if body[index].Label? {
        if starts[|starts| - 1].index != index {
          starts := starts + [Start(index, body[index].name)];
          cuts := cuts + [index];
        }
      } else if IsTerminator(body[index - 1]) && starts[|starts| - 1].index != index {
        starts := starts + [Start(index, "<fallthrough_" + Decimal(index) + ">")];
        cuts := cuts + [index];
      }
      index := index + 1;
    }
    CutSoFarEmpty(body, cuts, index);
    CutComplete(body, cuts);
    cuts := cuts + [|body|];
  }

  // ----- Slicing -----

  function Slice(body: Body, cuts: seq<int>, k: int): Body
    requires 0 <= k < |cuts| - 1 && 0 <= cuts[k] <= cuts[k + 1] <= |body|
  {
    body[cuts[k]..cuts[k + 1]]
  }

  /** A slice without the label that names its block. */
  function Stripped(slice: Body): Body {
    if slice != [] && slice[0].Label? then slice[1..] else slice
  }

  function BlockOf(slice: Body, name: string): Block {
    var code := Stripped(slice);
    if code != [] && IsTerminator(code[|code| - 1])
    then Block(name, code[..|code| - 1], Some(code[|code| - 1]))
    else Block(name, code, None)
  }

  /** A block's instructions followed by its terminator, if it has one. */
  function Code(b: Block): Body {
    b.instructions + if b.terminator.Some? then [b.terminator.value] else []
  }

  lemma CodeOfBlock(slice: Body, name: string)
    ensures Code(BlockOf(slice, name)) == Stripped(slice)
  {
    var code := Stripped(slice);
    if code != [] {
      assert code == code[..|code| - 1] + [code[|code| - 1]];
    }
  }

  /** Block `k` is piece `k` of the body. */
  ghost predicate BlockIs(body: Body, blocks: seq<Block>, cuts: seq<int>, k: int)
    requires 0 <= k < |blocks| && |cuts| == |blocks| + 1
  {
    && Piece(body, cuts, k)
    && blocks[k] == BlockOf(Slice(body, cuts, k), BlockName(body, cuts[k]))
  }

  ghost predicate Carved(body: Body, blocks: seq<Block>, cuts: seq<int>) {
    && Cut(body, cuts) && |cuts| == |blocks| + 1
    && forall k {:trigger BlockIs(body, blocks, cuts, k)} :: 0 <= k < |blocks| ==> BlockIs(body, blocks, cuts, k)
  }

  ghost predicate Built(body: Body, cuts: seq<int>, block: Block, k: int) {
    0 <= k < |cuts| - 1 && Piece(body, cuts, k) && block == BlockOf(Slice(body, cuts, k), BlockName(body, cuts[k]))
  }

  lemma CutAt(body: Body, cuts: seq<int>, k: int)
    requires Cut(body, cuts) && 0 <= k < |cuts| - 1
    ensures Piece(body, cuts, k) && 0 <= cuts[k] <= cuts[k + 1] <= |body| && (k == |cuts| - 2 ==> cuts[k + 1] == |body|)
  {
  }

  lemma BuiltIs(body: Body, cuts: seq<int>, k: int)
    requires 0 <= k < |cuts| - 1 && Piece(body, cuts, k) && 0 <= cuts[k] <= cuts[k + 1] <= |body|
    ensures Built(body, cuts, BlockOf(body[cuts[k]..cuts[k + 1]], BlockName(body, cuts[k])), k)
  {
  }

  lemma CarvedIs(body: Body, blocks: seq<Block>, cuts: seq<int>)
    requires Cut(body, cuts) && |cuts| == |blocks| + 1 && forall k :: 0 <= k < |blocks| ==> Built(body, cuts, blocks[k], k)
    ensures Carved(body, blocks, cuts)
  {
    hide Cut;
    forall k | 0 <= k < |blocks| ensures BlockIs(body, blocks, cuts, k) { assert Built(body, cuts, blocks[k], k); }
  }

  method BuildBlocks(body: Body, starts: seq<Start>, ghost cuts: seq<int>) returns (blocks: seq<Block>)
    requires Cut(body, cuts) && |starts| == |cuts| - 1
    requires forall k :: 0 <= k < |starts| ==> starts[k].index == cuts[k] && starts[k].name == BlockName(body, starts[k].index)
    ensures Carved(body, blocks, cuts)
  {
    hide *;
    blocks := [];
    for index := 0 to |starts|
      invariant |blocks| == index
      invariant forall k :: 0 <= k < index ==> Built(body, cuts, blocks[k], k)
    {
      CutAt(body, cuts, index);
      var end := if index + 1 < |starts| then starts[index + 1].index else |body|;
      BuiltIs(body, cuts, index);
      blocks := blocks + [BlockOf(body[starts[index].index..end], starts[index].name)];
    }
    CarvedIs(body, blocks, cuts);
  }

  // ----- Edges -----

  /** Control can pass from instruction `pc` to position `next`. */
  ghost predicate Flows(body: Body, pc: int, next: int)
    requires 0 <= pc < |body|
  {
    match body[pc]
    case Jump(target) => next == LabelIndex(body, target)
    case BranchFalse(_, _, _, target) => next == LabelIndex(body, target) || next == pc + 1
    case Return(_) => false
    case TailCall(_, _) => false
    case _ => next == pc + 1
  }

  /** What the compiler's front end guarantees: labels are unique, are never
      written with the prefix reserved for synthetic names, and every branch has
      a target. */
  ghost predicate WellFormed(body: Body) {
    UniqueLabels(body) && TargetsDefined(body) && NoReservedLabels(body)
  }

  ghost predicate NoReservedLabels(body: Body) {
    forall i :: 0 <= i < |body| && body[i].Label? ==> !Synthetic(body[i].name)
  }

  /** A label resolves to the block that it begins. */
  ghost predicate ResolvesTo(body: Body, cuts: seq<int>, names: map<string, int>, k: int)
    requires 0 <= k < |cuts|
  {
    0 <= cuts[k] < |body| && body[cuts[k]].Label? ==>
      body[cuts[k]].name in names && names[body[cuts[k]].name] == k
  }

  lemma {:induction false} CutsIncrease(body: Body, cuts: seq<int>, i: int, j: int)
    requires Cut(body, cuts) && body != [] && 0 <= i < j < |cuts|
    ensures 0 <= cuts[i] < cuts[j] <= |body|
    decreases j
  {
    assert Piece(body, cuts, j - 1);
    if i < j - 1 { CutsIncrease(body, cuts, i, j - 1); }
  }

  lemma NamesDiffer(body: Body, cuts: seq<int>, i: int, j: int)
    requires WellFormed(body) && Cut(body, cuts) && body != [] && 0 <= i < j < |cuts| - 1
    ensures 0 <= cuts[i] < |body| && 0 <= cuts[j] < |body|
    ensures body[cuts[i]].Label? ==> BlockName(body, cuts[i]) != BlockName(body, cuts[j])
  {
    CutsIncrease(body, cuts, i, j);
    CutsIncrease(body, cuts, j, |cuts| - 1);
  }

  lemma CarvedSizes(body: Body, blocks: seq<Block>, cuts: seq<int>)
    requires Carved(body, blocks, cuts)
    ensures |cuts| == |blocks| + 1
  {
  }

  lemma NamedHere(body: Body, blocks: seq<Block>, cuts: seq<int>, names: map<string, int>, k: int)
    requires 0 <= k < |blocks| && |cuts| == |blocks| + 1 && BlockIs(body, blocks, cuts, k)
    requires blocks[k].name in names && names[blocks[k].name] == k
    ensures ResolvesTo(body, cuts, names, k)
  {
    PieceOfBlock(body, blocks, cuts, k);
    BlockOfName(Slice(body, cuts, k), BlockName(body, cuts[k]));
  }

  lemma BlockOfName(slice: Body, name: string)
    ensures BlockOf(slice, name).name == name
  {
  }

  lemma NamedBefore(body: Body, blocks: seq<Block>, cuts: seq<int>, names: map<string, int>, k: int, next: int)
    requires WellFormed(body) && Carved(body, blocks, cuts) && 0 <= k < next < |blocks| && ResolvesTo(body, cuts, names, k)
    ensures ResolvesTo(body, cuts, names[blocks[next].name := next], k)
  {
    CarvedFacts(body, blocks, cuts, next);
    PieceOfBlock(body, blocks, cuts, next);
    BlockOfName(Slice(body, cuts, next), BlockName(body, cuts[next]));
    if body != [] { NamesDiffer(body, cuts, k, next); }
    hide Carved, WellFormed, Cut, BlockIs, Slice, BlockOf;
  }

  method NameBlocks(body: Body, blocks: seq<Block>, ghost cuts: seq<int>) returns (names: map<string, int>)
    requires WellFormed(body) && Carved(body, blocks, cuts)
    ensures forall k :: 0 <= k < |blocks| ==> ResolvesTo(body, cuts, names, k)
  {
    hide *;
    CarvedSizes(body, blocks, cuts);
    names := map[];
    for index := 0 to |blocks|
      invariant forall k :: 0 <= k < index ==> ResolvesTo(body, cuts, names, k)
    {
      CarvedFacts(body, blocks, cuts, index);
      ghost var before := names;
      names := names[blocks[index].name := index];
      NamedHere(body, blocks, cuts, names, index);
      forall k | 0 <= k < index ensures ResolvesTo(body, cuts, names, k) {
        NamedBefore(body, blocks, cuts, before, k, index);
      }
    }
  }

  /** Every position belongs to one block. */
  lemma {:induction false} BlockAt(body: Body, cuts: seq<int>, pc: int, n: int) returns (k: int)
    requires Cut(body, cuts) && 1 <= n < |cuts| && 0 <= pc < cuts[n]
    ensures 0 <= k < n && cuts[k] <= pc < cuts[k + 1]
    decreases n
  {
    if cuts[n - 1] <= pc { k := n - 1; } else { k := BlockAt(body, cuts, pc, n - 1); }
  }

  /** A leader always begins a block. */
  lemma LeaderBlock(body: Body, cuts: seq<int>, pc: int) returns (k: int)
    requires Cut(body, cuts) && 0 <= pc < |body| && Leader(body, pc)
    ensures 0 <= k < |cuts| - 1 && cuts[k] == pc
  {
    k := BlockAt(body, cuts, pc, |cuts| - 1);
    assert Piece(body, cuts, k);
  }

  /** `targets` lists the blocks that the last instruction of block `k` can pass
      control to. */
  ghost predicate EdgesOf(body: Body, cuts: seq<int>, k: int, targets: seq<int>)
    requires 0 <= k < |cuts| - 1
  {
    && (forall t :: t in targets ==> 0 <= t < |cuts| - 1)
    && (body == [] ==> targets == [])
    && (body != [] ==> 0 < cuts[k + 1] <= |body|)
    && (body != [] ==> forall j :: 0 <= j < |cuts| - 1 ==> (j in targets <==> Flows(body, cuts[k + 1] - 1, cuts[j])))
  }

  /** The branch target comes first, then the block that follows. */
  ghost predicate InOrder(body: Body, cuts: seq<int>, k: int, targets: seq<int>)
    requires 0 <= k < |cuts| - 1
  {
    && (body == [] ==> targets == [])
    && (body != [] && 0 < cuts[k + 1] <= |body| ==>
          var last, next := body[cuts[k + 1] - 1], if k + 1 < |cuts| - 1 then [k + 1] else [];
          if Branches(last) then
            && targets != [] && 0 <= targets[0] < |cuts| - 1 && cuts[targets[0]] == LabelIndex(body, last.target)
            && targets[1..] == if last.BranchFalse? then next else []
          else targets == if IsTerminator(last) then [] else next)
  }

  lemma InOrderIs(body: Body, blocks: seq<Block>, cuts: seq<int>, names: map<string, int>, k: int)
    requires 0 <= k < |blocks| && |cuts| == |blocks| + 1
    requires body == [] ==> blocks[k].terminator == None && |blocks| == 1
    requires body != [] ==> 0 < cuts[k + 1] <= |body|
    requires body != [] ==> blocks[k].terminator == if IsTerminator(body[cuts[k + 1] - 1]) then Some(body[cuts[k + 1] - 1]) else None
    requires blocks[k].terminator.Some? && Branches(blocks[k].terminator.value)
      ==> blocks[k].terminator.value.target in names && 0 <= names[blocks[k].terminator.value.target] < |blocks|
          && cuts[names[blocks[k].terminator.value.target]] == LabelIndex(body, blocks[k].terminator.value.target)
    ensures InOrder(body, cuts, k, SuccessorsOf(blocks, names, k))
  {
    hide LabelIndex;
  }

  function SuccessorsOf(blocks: seq<Block>, names: map<string, int>, index: int): seq<int>
    requires 0 <= index < |blocks|
    requires blocks[index].terminator.Some? && Branches(blocks[index].terminator.value)
      ==> blocks[index].terminator.value.target in names
  {
    var fallThrough := if index + 1 < |blocks| then [index + 1] else [];
    match blocks[index].terminator
    case None => fallThrough
    case Some(Jump(target)) => [names[target]]
    case Some(BranchFalse(_, _, _, target)) => [names[target]] + fallThrough
    case Some(_) => []
  }

  lemma PieceOfBlock(body: Body, blocks: seq<Block>, cuts: seq<int>, k: int)
    requires 0 <= k < |blocks| && |cuts| == |blocks| + 1 && BlockIs(body, blocks, cuts, k)
    ensures 0 <= cuts[k] <= cuts[k + 1] <= |body| && (body != [] ==> cuts[k] < cuts[k + 1])
    ensures blocks[k] == BlockOf(Slice(body, cuts, k), BlockName(body, cuts[k])) && (body == [] ==> Slice(body, cuts, k) == [])
  {
  }

  lemma LastOfSlice(body: Body, cuts: seq<int>, k: int)
    requires 0 <= k < |cuts| - 1 && 0 <= cuts[k] < cuts[k + 1] <= |body|
    ensures |Slice(body, cuts, k)| > 0 && Slice(body, cuts, k)[|Slice(body, cuts, k)| - 1] == body[cuts[k + 1] - 1]
  {
  }

  lemma BlockOfTerminator(slice: Body, name: string)
    ensures BlockOf(slice, name).terminator ==
      if slice != [] && IsTerminator(slice[|slice| - 1]) then Some(slice[|slice| - 1]) else None
  {
    var code := Stripped(slice);
    if code != [] { assert code[|code| - 1] == slice[|slice| - 1]; }
  }

  /** The terminator of a block is the last instruction of its piece. */
  lemma TerminatorIs(body: Body, blocks: seq<Block>, cuts: seq<int>, k: int)
    requires 0 <= k < |blocks| && |cuts| == |blocks| + 1 && BlockIs(body, blocks, cuts, k)
    ensures body == [] ==> blocks[k].terminator == None
    ensures body != [] ==> 0 < cuts[k + 1] <= |body|
    ensures body != [] ==>
      blocks[k].terminator == if IsTerminator(body[cuts[k + 1] - 1]) then Some(body[cuts[k + 1] - 1]) else None
  {
    hide *;
    PieceOfBlock(body, blocks, cuts, k);
    if body != [] {
      var slice := Slice(body, cuts, k);
      LastOfSlice(body, cuts, k);
      BlockOfTerminator(slice, BlockName(body, cuts[k]));
    } else {
      BlockOfTerminator([], BlockName(body, cuts[k]));
    }
  }

  lemma TargetResolves(body: Body, cuts: seq<int>, names: map<string, int>, target: string) returns (k: int)
    requires WellFormed(body) && Cut(body, cuts)
    requires forall k :: 0 <= k < |cuts| - 1 ==> ResolvesTo(body, cuts, names, k)
    requires Label(target) in body
    ensures 0 <= k < |cuts| - 1 && target in names && names[target] == k
    ensures cuts[k] == LabelIndex(body, target)
  {
    var pc :| 0 <= pc < |body| && body[pc] == Label(target);
    LabelIndexIs(body, pc);
    k := LeaderBlock(body, cuts, pc);
    assert ResolvesTo(body, cuts, names, k);
  }

  lemma SameCut(body: Body, cuts: seq<int>, i: int, j: int)
    requires Cut(body, cuts) && body != [] && 0 <= i < |cuts| && 0 <= j < |cuts|
    ensures cuts[i] == cuts[j] <==> i == j
  {
    if i < j { CutsIncrease(body, cuts, i, j); }
    if j < i { CutsIncrease(body, cuts, j, i); }
  }

  lemma EdgeExact(body: Body, blocks: seq<Block>, cuts: seq<int>, names: map<string, int>, k: int, j: int)
    requires Cut(body, cuts) && body != [] && |cuts| == |blocks| + 1
    requires 0 <= k < |blocks| && 0 <= j < |blocks| && 0 < cuts[k + 1] <= |body|
    requires var last := body[cuts[k + 1] - 1];
      && blocks[k].terminator == (if IsTerminator(last) then Some(last) else None)
      && (Branches(last) ==> last.target in names && 0 <= names[last.target] < |blocks|
                             && cuts[names[last.target]] == LabelIndex(body, last.target))
    ensures j in SuccessorsOf(blocks, names, k) <==> Flows(body, cuts[k + 1] - 1, cuts[j])
  {
    SameCut(body, cuts, j, k + 1);
    var last := body[cuts[k + 1] - 1];
    if Branches(last) { SameCut(body, cuts, j, names[last.target]); }
  }

  lemma CarvedFacts(body: Body, blocks: seq<Block>, cuts: seq<int>, k: int)
    requires Carved(body, blocks, cuts) && 0 <= k < |blocks|
    ensures Cut(body, cuts) && |cuts| == |blocks| + 1 && BlockIs(body, blocks, cuts, k)
  {
  }

  lemma BranchesTerminate(i: Instruction)
    ensures Branches(i) ==> IsTerminator(i) && (i.Jump? || i.BranchFalse?)
  {
  }

  lemma TargetIn(body: Body, pc: int)
    requires WellFormed(body) && 0 <= pc < |body| && Branches(body[pc])
    ensures Label(body[pc].target) in body
  {
  }

  lemma EdgesOfIs(body: Body, blocks: seq<Block>, cuts: seq<int>, names: map<string, int>, k: int)
    requires 0 <= k < |blocks| && |cuts| == |blocks| + 1
    requires body == [] ==> blocks[k].terminator == None && |blocks| == 1
    requires body != [] ==> 0 < cuts[k + 1] <= |body|
    requires blocks[k].terminator.Some? && Branches(blocks[k].terminator.value)
      ==> blocks[k].terminator.value.target in names && 0 <= names[blocks[k].terminator.value.target] < |blocks|
    requires body != [] ==> forall j :: 0 <= j < |blocks| ==> (j in SuccessorsOf(blocks, names, k) <==> Flows(body, cuts[k + 1] - 1, cuts[j]))
    ensures EdgesOf(body, cuts, k, SuccessorsOf(blocks, names, k))
  {
    hide Flows, IsTerminator;
  }

  lemma SuccessorsExact(body: Body, blocks: seq<Block>, cuts: seq<int>, names: map<string, int>, k: int)
    requires WellFormed(body) && Carved(body, blocks, cuts) && 0 <= k < |blocks|
    requires forall k :: 0 <= k < |blocks| ==> ResolvesTo(body, cuts, names, k)
    ensures blocks[k].terminator.Some? && Branches(blocks[k].terminator.value)
      ==> blocks[k].terminator.value.target in names
    ensures EdgesOf(body, cuts, k, SuccessorsOf(blocks, names, k)) && InOrder(body, cuts, k, SuccessorsOf(blocks, names, k))
  {
    hide *;
    CarvedFacts(body, blocks, cuts, k);
    TerminatorIs(body, blocks, cuts, k);
    if body != [] {
      var last := body[cuts[k + 1] - 1];
      BranchesTerminate(last);
      if Branches(last) {
        TargetIn(body, cuts[k + 1] - 1);
        var _ := TargetResolves(body, cuts, names, last.target);
      }
      forall j | 0 <= j < |blocks|
        ensures j in SuccessorsOf(blocks, names, k) <==> Flows(body, cuts[k + 1] - 1, cuts[j])
      {
        EdgeExact(body, blocks, cuts, names, k, j);
      }
    }
    EdgesOfIs(body, blocks, cuts, names, k);
    InOrderIs(body, blocks, cuts, names, k);
  }

  method WireSuccessors(body: Body, blocks: seq<Block>, names: map<string, int>, ghost cuts: seq<int>) returns (succ: seq<seq<int>>)
    requires WellFormed(body) && Carved(body, blocks, cuts)
    requires forall k :: 0 <= k < |blocks| ==> ResolvesTo(body, cuts, names, k)
    ensures |succ| == |blocks|
    ensures forall k :: 0 <= k < |succ| ==> EdgesOf(body, cuts, k, succ[k]) && InOrder(body, cuts, k, succ[k])
  {
    succ := [];
    for index := 0 to |blocks|
      invariant |succ| == index
      invariant forall k :: 0 <= k < index ==> EdgesOf(body, cuts, k, succ[k]) && InOrder(body, cuts, k, succ[k])
    {
      SuccessorsExact(body, blocks, cuts, names, index);
      succ := succ + [SuccessorsOf(blocks, names, index)];
    }
  }

  /** Lists `index` as a predecessor of each of its targets. */
  method WireOne(pred0: seq<seq<int>>, index: int, targets: seq<int>) returns (pred: seq<seq<int>>)
    requires forall t :: t in targets ==> 0 <= t < |pred0|
    ensures |pred| == |pred0|
    ensures forall i, j :: 0 <= j < |pred| ==> multiset(pred[j])[i] == multiset(pred0[j])[i] + if i == index then multiset(targets)[j] else 0
  {
    pred := pred0;
    for at := 0 to |targets|
      invariant |pred| == |pred0|
      invariant forall i, j :: 0 <= j < |pred| ==> multiset(pred[j])[i] == multiset(pred0[j])[i] + if i == index then multiset(targets[..at])[j] else 0
    {
      var t := targets[at];
      assert t in targets;
      assert targets[..at + 1] == targets[..at] + [t];
      pred := pred[t := pred[t] + [index]];
    }
    assert targets[..|targets|] == targets;
  }

  /** Every edge from a block before `n` is listed, and none else. */
  ghost predicate WiredBelow(succ: seq<seq<int>>, pred: seq<seq<int>>, n: int) {
    && |pred| == |succ|
    && forall i, j :: 0 <= j < |pred| ==> multiset(pred[j])[i] == if 0 <= i < n && i < |succ| then multiset(succ[i])[j] else 0
  }

  method WirePredecessors(succ: seq<seq<int>>) returns (pred: seq<seq<int>>)
    requires forall i, t :: 0 <= i < |succ| && t in succ[i] ==> 0 <= t < |succ|
    ensures WiredBelow(succ, pred, |succ|)
  {
    pred := seq(|succ|, _ => []);
    for index := 0 to |succ|
      invariant WiredBelow(succ, pred, index)
    {
      pred := WireOne(pred, index, succ[index]);
    }
  }

  lemma CountMember(s: seq<int>, x: int)
    ensures x in s <==> multiset(s)[x] > 0
  {
  }

  lemma WiredMembers(succ: seq<seq<int>>, pred: seq<seq<int>>, i: int, j: int)
    requires WiredBelow(succ, pred, |succ|) && 0 <= j < |pred|
    ensures i in pred[j] <==> 0 <= i < |succ| && j in succ[i]
  {
    assert multiset(pred[j])[i] == if 0 <= i < |succ| then multiset(succ[i])[j] else 0;
    hide WiredBelow;
    CountMember(pred[j], i);
    if 0 <= i < |succ| { CountMember(succ[i], j); }
  }

  /** The blocks and edges recorded for a body are exactly its own: the blocks
      are the slices between leaders, and there is an edge from one block to
      another iff control can pass from the last instruction of the first to the
      start of the second. */
  ghost predicate Faithful(body: Body, g: ControlFlowGraph, cuts: seq<int>) {
    && Carved(body, g.blocks, cuts)
    && ValidGraph(g.graph) && |g.graph.succ| == |g.blocks|
    && forall k {:trigger EdgesOf(body, cuts, k, g.graph.succ[k])} :: 0 <= k < |g.blocks| ==> EdgesOf(body, cuts, k, g.graph.succ[k])
  }

  lemma CountedIsValid(z: Graph)
    requires |z.succ| > 0 && |z.pred| == |z.succ|
    requires forall p, x :: 0 <= p < |z.succ| && (x in z.succ[p] || x in z.pred[p]) ==> 0 <= x < |z.succ|
    requires forall p, q :: 0 <= p < |z.succ| && 0 <= q < |z.succ| ==> multiset(z.pred[q])[p] == multiset(z.succ[p])[q]
    ensures ValidGraph(z) && EdgesCounted(z)
  {
    forall p, q | 0 <= p < |z.succ| && 0 <= q < |z.succ| ensures p in z.pred[q] <==> q in z.succ[p] {
      CountMember(z.pred[q], p);
      CountMember(z.succ[p], q);
    }
  }

  lemma WiredGraph(succ: seq<seq<int>>, pred: seq<seq<int>>)
    requires |succ| > 0 && WiredBelow(succ, pred, |succ|) && forall i, t :: 0 <= i < |succ| && t in succ[i] ==> 0 <= t < |succ|
    ensures ValidGraph(Graph(succ, pred)) && EdgesCounted(Graph(succ, pred))
  {
    var z := Graph(succ, pred);
    forall p, x | 0 <= p < |succ| && (x in succ[p] || x in pred[p]) ensures 0 <= x < |succ| { WiredMembers(succ, pred, x, p); }
    CountedIsValid(z);
  }

  lemma TargetsInside(body: Body, cuts: seq<int>, succ: seq<seq<int>>)
    requires |cuts| == |succ| + 1 && forall k :: 0 <= k < |succ| ==> EdgesOf(body, cuts, k, succ[k])
    ensures forall i, t :: 0 <= i < |succ| && t in succ[i] ==> 0 <= t < |succ|
  {
    forall i, t | 0 <= i < |succ| && t in succ[i] ensures 0 <= t < |succ| { assert EdgesOf(body, cuts, i, succ[i]); }
  }

  method BuildCfg(body: Body) returns (g: ControlFlowGraph, cuts: seq<int>)
    requires WellFormed(body)
    ensures Faithful(body, g, cuts) && EdgesCounted(g.graph) && |cuts| == |g.blocks| + 1 && |g.graph.succ| == |g.blocks|
    ensures forall k :: 0 <= k < |g.blocks| ==> InOrder(body, cuts, k, g.graph.succ[k])
  {
    var starts;
    starts, cuts := IdentifyBlockStarts(body);
    var blocks := BuildBlocks(body, starts, cuts);
    var names := NameBlocks(body, blocks, cuts);
    var succ := WireSuccessors(body, blocks, names, cuts);
    TargetsInside(body, cuts, succ);
    var pred := WirePredecessors(succ);
    WiredGraph(succ, pred);
    hide ValidGraph, EdgesCounted, EdgesOf, InOrder, BlockIs, WellFormed, Piece, WiredBelow;
    g := ControlFlowGraph(blocks, Graph(succ, pred));
  }

  // ----- Flattening is the inverse of slicing -----

  function FlattenBlock(b: Block): Body {
    (if Synthetic(b.name) then [] else [Label(b.name)]) + Code(b)
  }

  function Flatten(blocks: seq<Block>): Body {
    if blocks == [] then [] else Flatten(blocks[..|blocks| - 1]) + FlattenBlock(blocks[|blocks| - 1])
  }

  /** The labels that flattening leaves out. */
  function Reserved(body: Body): nat {
    if body == [] then 0
    else Reserved(body[..|body| - 1]) + if body[|body| - 1].Label? && Synthetic(body[|body| - 1].name) then 1 else 0
  }

  lemma {:induction false} ReservedSplit(a: Body, b: Body)
    ensures Reserved(a + b) == Reserved(a) + Reserved(b)
    decreases |b|
  {
    if b == [] {
      assert a + b == a;
    } else {
      ReservedSplit(a, b[..|b| - 1]);
      assert (a + b)[..|a + b| - 1] == a + b[..|b| - 1];
    }
  }

  lemma {:induction false} NoneReserved(body: Body)
    ensures Reserved(body) == 0 <==> NoReservedLabels(body)
  {
    if body != [] {
      NoneReserved(body[..|body| - 1]);
    }
  }

  lemma ReservedOne(i: Instruction)
    ensures Reserved([i]) == if i.Label? && Synthetic(i.name) then 1 else 0
  {
    assert [i][..0] == [];
  }

  /** One block flattens to its slice, unless its label uses the reserved prefix. */
  lemma FlattenOne(slice: Body, name: string)
    requires if slice != [] && slice[0].Label? then name == slice[0].name else Synthetic(name)
    requires forall i :: 1 <= i < |slice| ==> !slice[i].Label?
    ensures Reserved(slice) == 0 ==> FlattenBlock(BlockOf(slice, name)) == slice
    ensures |FlattenBlock(BlockOf(slice, name))| == |slice| - Reserved(slice)
  {
    CodeOfBlock(slice, name);
    if slice != [] {
      assert slice == [slice[0]] + slice[1..];
      ReservedSplit([slice[0]], slice[1..]);
      NoneReserved(slice[1..]);
      ReservedOne(slice[0]);
    }
    hide Reserved;
  }

  lemma FlattenPiece(body: Body, blocks: seq<Block>, cuts: seq<int>, k: int)
    requires Carved(body, blocks, cuts) && 0 <= k < |blocks|
    ensures BlockIs(body, blocks, cuts, k)
    ensures Reserved(Slice(body, cuts, k)) == 0 ==> FlattenBlock(blocks[k]) == Slice(body, cuts, k)
    ensures |FlattenBlock(blocks[k])| == |Slice(body, cuts, k)| - Reserved(Slice(body, cuts, k))
  {
    assert BlockIs(body, blocks, cuts, k);
    var slice := Slice(body, cuts, k);
    forall i | 1 <= i < |slice| ensures !slice[i].Label? {
      assert !Leader(body, cuts[k] + i);
    }
    FlattenOne(slice, BlockName(body, cuts[k]));
  }

  lemma ReservedPrefix(body: Body, lo: int, hi: int)
    requires 0 <= lo <= hi <= |body|
    ensures Reserved(body[..hi]) == Reserved(body[..lo]) + Reserved(body[lo..hi])
    ensures body[..hi] == body[..lo] + body[lo..hi]
  {
    assert body[..hi] == body[..lo] + body[lo..hi];
    ReservedSplit(body[..lo], body[lo..hi]);
  }

  lemma SliceIs(body: Body, cuts: seq<int>, k: int)
    requires 0 <= k < |cuts| - 1 && 0 <= cuts[k] <= cuts[k + 1] <= |body|
    ensures Slice(body, cuts, k) == body[cuts[k]..cuts[k + 1]]
  {
  }

  lemma FlattenLast(blocks: seq<Block>, n: int)
    requires 0 < n <= |blocks|
    ensures Flatten(blocks[..n]) == Flatten(blocks[..n - 1]) + FlattenBlock(blocks[n - 1])
  {
    assert blocks[..n][..n - 1] == blocks[..n - 1];
  }

  lemma FlattenNone(body: Body, blocks: seq<Block>, cuts: seq<int>)
    requires Carved(body, blocks, cuts)
    ensures cuts[0] == 0 && Flatten(blocks[..0]) == [] && body[..0] == [] && Reserved(body[..0]) == 0
  {
  }

  lemma {:induction false} FlattenPrefix(body: Body, blocks: seq<Block>, cuts: seq<int>, n: int)
    requires Carved(body, blocks, cuts) && 0 <= n <= |blocks|
    ensures 0 <= cuts[n] <= |body|
    ensures Reserved(body[..cuts[n]]) == 0 ==> Flatten(blocks[..n]) == body[..cuts[n]]
    ensures |Flatten(blocks[..n])| == cuts[n] - Reserved(body[..cuts[n]])
    decreases n
  {
    hide *;
    if n > 0 {
      FlattenPrefix(body, blocks, cuts, n - 1);
      FlattenPiece(body, blocks, cuts, n - 1);
      CarvedFacts(body, blocks, cuts, n - 1);
      PieceOfBlock(body, blocks, cuts, n - 1);
      SliceIs(body, cuts, n - 1);
      ReservedPrefix(body, cuts[n - 1], cuts[n]);
      FlattenLast(blocks, n);
    } else {
      FlattenNone(body, blocks, cuts);
    }
  }

  /** Flattening the blocks gives the body back, exactly when no label uses the
      prefix reserved for synthetic names. */
  lemma FlattenRoundTrip(body: Body, blocks: seq<Block>, cuts: seq<int>)
    requires Carved(body, blocks, cuts)
    ensures Flatten(blocks) == body <==> NoReservedLabels(body)
  {
    FlattenPrefix(body, blocks, cuts, |blocks|);
    assert body[..|body|] == body && blocks[..|blocks|] == blocks;
    NoneReserved(body);
  }
}
