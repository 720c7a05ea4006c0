/** Layout and relocation of a static link (tools/ccld.py:52-172, 244-254,
    396-420; cc/ccobj.py:410-425). */
module Linker {
  import opened Common

  datatype Chunk = Chunk(align: int, bytes: seq<int>)

  datatype Symbol = Symbol(section: string, offset: int, isGlobal: bool)

  datatype Relocation = Relocation(section: string, offset: int, symbol: string, relative: bool, addend: int)

  datatype Object = Object(chunks: map<string, Chunk>, bss: Option<int>, symbols: map<string, Symbol>, relocations: seq<Relocation>)

  /** An object's contribution to a section. */
  datatype Slot = Slot(owner: int, section: string)

  const TRAILER := 6

  const SECTIONS: seq<string> := ["text", "rodata", "data"]

  function DefaultAlign(section: string): int { if section == "text" then 16 else 4 }

  // ----- Layout -----

  lemma MultipleOf(q: int, a: int)
    requires a > 0
    ensures (q * a) % a == 0
  {
    var x := q * a;
    var d := q - x / a;
    assert x == x / a * a + x % a;
    assert d * a == x % a;
    assert d >= 1 ==> d * a >= a;
    assert d <= -1 ==> d * a < 0;
  }

  /** Rounds up to a multiple of the alignment. */
  function AlignUp(offset: int, alignment: int): (r: int)
    requires offset >= 0 && alignment > 0
    ensures r >= offset && r % alignment == 0 && r < offset + alignment
  {
    MultipleOf(offset / alignment, alignment);
    MultipleOf(offset / alignment + 1, alignment);
    assert offset / alignment * alignment == offset - offset % alignment;
    assert (offset / alignment + 1) * alignment == offset - offset % alignment + alignment;
    if offset % alignment == 0 then offset else offset - offset % alignment + alignment
  }

  predicate HasChunk(objects: seq<Object>, s: Slot) {
    0 <= s.owner < |objects| && s.section in objects[s.owner].chunks
  }

  function BytesOf(objects: seq<Object>, s: Slot): seq<int> {
    if HasChunk(objects, s) then objects[s.owner].chunks[s.section].bytes else []
  }

  function Rank(section: string): int {
    if section == "text" then 0 else if section == "rodata" then 1 else if section == "data" then 2 else 3
  }

  predicate Earlier(s: Slot, t: Slot) {
    Rank(s.section) < Rank(t.section) || (Rank(s.section) == Rank(t.section) && s.owner < t.owner)
  }

  /** The slot's bytes stand where the slot says. */
  ghost predicate InPlace(base: int, image: seq<int>, slots: map<Slot, int>, objects: seq<Object>, s: Slot) {
    && s in slots && HasChunk(objects, s) && Rank(s.section) < 3
    && var at, bytes := slots[s] - base, BytesOf(objects, s);
       0 <= at && at + |bytes| <= |image| && image[at..at + |bytes|] == bytes
  }

  ghost predicate InOrder(slots: map<Slot, int>, objects: seq<Object>, s: Slot, t: Slot) {
    s in slots && t in slots && Earlier(s, t) ==> slots[s] + |BytesOf(objects, s)| <= slots[t]
  }

  ghost predicate Covered(base: int, slots: map<Slot, int>, objects: seq<Object>, k: int) {
    exists s :: s in slots && slots[s] - base <= k < slots[s] - base + |BytesOf(objects, s)|
  }

  /** Everything laid out so far stands in its slot, slots follow each other, and
      the rest is zero. */
  ghost predicate LaidOut(base: int, image: seq<int>, slots: map<Slot, int>, objects: seq<Object>) {
    && (forall s :: s in slots ==> InPlace(base, image, slots, objects, s))
    && (forall s, t :: InOrder(slots, objects, s, t))
    && (forall k :: 0 <= k < |image| ==> Covered(base, slots, objects, k) || image[k] == 0)
  }

  /** Which slots exist once sections of rank below `rank`, and in that of rank
      `rank` the objects before `n`, have been laid out. */
  ghost predicate SlotsUpTo(slots: map<Slot, int>, objects: seq<Object>, rank: int, n: int) {
    forall s :: s in slots <==> HasChunk(objects, s) && Rank(s.section) < 3 && (Rank(s.section) < rank || (Rank(s.section) == rank && s.owner < n))
  }

  lemma Padding(base: int, image: seq<int>, slots: map<Slot, int>, objects: seq<Object>, zeros: seq<int>)
    requires LaidOut(base, image, slots, objects) && forall k :: 0 <= k < |zeros| ==> zeros[k] == 0
    ensures LaidOut(base, image + zeros, slots, objects)
  {
    hide Covered, InOrder;
    forall s | s in slots ensures InPlace(base, image + zeros, slots, objects, s) {
      assert InPlace(base, image, slots, objects, s);
      PlaceInLonger(base, image, slots, objects, zeros, s);
    }
    hide InPlace;
  }

  lemma PlaceInLonger(base: int, image: seq<int>, slots: map<Slot, int>, objects: seq<Object>, more: seq<int>, s: Slot)
    requires InPlace(base, image, slots, objects, s)
    ensures InPlace(base, image + more, slots, objects, s)
  {
    hide HasChunk, BytesOf, Rank;
    var at, n := slots[s] - base, |BytesOf(objects, s)|;
    assert (image + more)[at..at + n] == image[at..at + n];
  }

  lemma Append(base: int, image: seq<int>, slots: map<Slot, int>, objects: seq<Object>, s: Slot)
    requires LaidOut(base, image, slots, objects) && s !in slots && HasChunk(objects, s) && Rank(s.section) < 3
    requires forall t :: t in slots ==> Earlier(t, s) && !Earlier(s, t)
    ensures LaidOut(base, image + BytesOf(objects, s), slots[s := base + |image|], objects)
  {
    var bytes := BytesOf(objects, s);
    var image', slots' := image + bytes, slots[s := base + |image|];
    assert !Earlier(s, s);
    hide HasChunk, Rank, Earlier;
    forall t | t in slots' ensures InPlace(base, image', slots', objects, t) { AppendPlace(base, image, slots, objects, s, t); }
    forall t, u ensures InOrder(slots', objects, t, u) { AppendOrder(base, image, slots, objects, s, t, u); }
    forall k | 0 <= k < |image'| ensures Covered(base, slots', objects, k) || image'[k] == 0 { AppendCovered(base, image, slots, objects, s, k); }
    hide InPlace, InOrder, Covered, BytesOf;
  }

  lemma AppendPlace(base: int, image: seq<int>, slots: map<Slot, int>, objects: seq<Object>, s: Slot, t: Slot)
    requires s !in slots && HasChunk(objects, s) && Rank(s.section) < 3 && (t == s || InPlace(base, image, slots, objects, t))
    ensures InPlace(base, image + BytesOf(objects, s), slots[s := base + |image|], objects, t)
  {
    var image' := image + BytesOf(objects, s);
    hide HasChunk, Rank;
    if t == s {
      assert image'[|image|..|image| + |BytesOf(objects, s)|] == BytesOf(objects, s);
    } else {
      var at, bytes := slots[t] - base, BytesOf(objects, t);
      assert image'[at..at + |bytes|] == image[at..at + |bytes|];
    }
  }

  lemma AppendOrder(base: int, image: seq<int>, slots: map<Slot, int>, objects: seq<Object>, s: Slot, t: Slot, u: Slot)
    requires s !in slots && (forall x :: x in slots ==> Earlier(x, s) && !Earlier(s, x)) && !Earlier(s, s)
    requires InOrder(slots, objects, t, u) && (t in slots ==> InPlace(base, image, slots, objects, t))
    ensures InOrder(slots[s := base + |image|], objects, t, u)
  {
    hide HasChunk, Rank, Earlier;
  }

  lemma AppendCovered(base: int, image: seq<int>, slots: map<Slot, int>, objects: seq<Object>, s: Slot, k: int)
    requires s !in slots && 0 <= k < |image| + |BytesOf(objects, s)| && (k < |image| ==> Covered(base, slots, objects, k) || image[k] == 0)
    ensures var image' := image + BytesOf(objects, s); Covered(base, slots[s := base + |image|], objects, k) || image'[k] == 0
  {
    hide HasChunk, BytesOf;
    var slots' := slots[s := base + |image|];
    if k >= |image| {
      assert s in slots' && slots'[s] - base <= k < slots'[s] - base + |BytesOf(objects, s)|;
    } else if Covered(base, slots, objects, k) {
      var t :| t in slots && slots[t] - base <= k < slots[t] - base + |BytesOf(objects, t)|;
      assert t in slots' && slots'[t] == slots[t];
    }
  }

  /** The strictest alignment asked for. */
  ghost predicate Strictest(objects: seq<Object>, section: string, alignment: int) {
    && alignment >= (if section == "text" then 16 else 4)
    && (forall i :: 0 <= i < |objects| && section in objects[i].chunks ==> objects[i].chunks[section].align <= alignment)
    && (alignment == (if section == "text" then 16 else 4) || exists i :: 0 <= i < |objects| && section in objects[i].chunks && objects[i].chunks[section].align == alignment)
  }

  /** The first object that contributes to a section. */
  ghost predicate FirstIn(objects: seq<Object>, section: string, i: int) {
    0 <= i < |objects| && section in objects[i].chunks && forall j :: 0 <= j < i ==> section !in objects[j].chunks
  }

  method SectionAlign(objects: seq<Object>, section: string) returns (alignment: int, any: bool)
    ensures Strictest(objects, section, alignment) && any == (exists i :: 0 <= i < |objects| && section in objects[i].chunks)
  {
    alignment, any := DefaultAlign(section), false;
    for i := 0 to |objects|
      invariant Strictest(objects[..i], section, alignment) && any == (exists j :: 0 <= j < i && section in objects[j].chunks)
    {
      var before := alignment;
      if section in objects[i].chunks {
        any := true;
        if objects[i].chunks[section].align > alignment { alignment := objects[i].chunks[section].align; }
      }
      StrictestMore(objects, section, i, before);
    }
    assert objects[..|objects|] == objects;
  }

  lemma StrictestMore(objects: seq<Object>, section: string, n: int, alignment: int)
    requires 0 <= n < |objects| && Strictest(objects[..n], section, alignment)
    ensures section !in objects[n].chunks || objects[n].chunks[section].align <= alignment ==> Strictest(objects[..n + 1], section, alignment)
    ensures section in objects[n].chunks && objects[n].chunks[section].align > alignment ==>
      Strictest(objects[..n + 1], section, objects[n].chunks[section].align)
  {
    var before, after := objects[..n], objects[..n + 1];
    assert forall i :: 0 <= i < n ==> after[i] == before[i];
    assert after[n] == objects[n];
  }

  lemma StrictestUnique(objects: seq<Object>, section: string, a: int, b: int)
    requires Strictest(objects, section, a) && Strictest(objects, section, b)
    ensures a == b
  {
  }

  /** How many bytes these objects contribute to a section. */
  ghost function SizeOf(objects: seq<Object>, section: string): int {
    if objects == [] then 0
    else
      var last := objects[|objects| - 1];
      SizeOf(objects[..|objects| - 1], section) + (if section in last.chunks then |last.chunks[section].bytes| else 0)
  }

  /** A section laid out behind `before` bytes: it starts at the least multiple of its
      alignment that is not less, each object's bytes begin where those of the object
      before it end, and with the last of them it ends at `after`. */
  ghost predicate PackedAt(base: int, slots: map<Slot, int>, objects: seq<Object>, section: string, before: int, after: int, start: int, alignment: int) {
    && Strictest(objects, section, alignment) && before <= start < before + alignment && start % alignment == 0
    && after == start + SizeOf(objects, section)
    && forall i :: 0 <= i < |objects| && section in objects[i].chunks ==>
         Slot(i, section) in slots && slots[Slot(i, section)] == base + start + SizeOf(objects[..i], section)
  }

  /** A section that no object has takes up nothing, not even padding. */
  ghost predicate Packed(base: int, slots: map<Slot, int>, objects: seq<Object>, section: string, before: int, after: int) {
    if exists i :: 0 <= i < |objects| && section in objects[i].chunks
    then exists start, alignment :: PackedAt(base, slots, objects, section, before, after, start, alignment)
    else after == before
  }

  /** The three sections one behind the other, and nothing behind the last. */
  ghost predicate PackedImage(base: int, slots: map<Slot, int>, objects: seq<Object>, length: int) {
    exists text, rodata ::
      && Packed(base, slots, objects, "text", 0, text) && Packed(base, slots, objects, "rodata", text, rodata)
      && Packed(base, slots, objects, "data", rodata, length)
  }

  lemma SizeMore(objects: seq<Object>, section: string, n: int)
    requires 0 <= n < |objects|
    ensures SizeOf(objects[..n + 1], section) ==
      SizeOf(objects[..n], section) + (if section in objects[n].chunks then |objects[n].chunks[section].bytes| else 0)
  {
    assert objects[..n + 1][..n] == objects[..n];
  }

  lemma PackedIs(base: int, slots: map<Slot, int>, objects: seq<Object>, section: string, before: int, after: int, start: int, alignment: int, any: bool)
    requires any == (exists i :: 0 <= i < |objects| && section in objects[i].chunks)
    requires if any then PackedAt(base, slots, objects, section, before, after, start, alignment) else after == before
    ensures Packed(base, slots, objects, section, before, after)
  {
    hide PackedAt;
  }

  /** Other sections do not move a section that has been laid out. */
  lemma PackedStill(base: int, before: map<Slot, int>, after: map<Slot, int>, objects: seq<Object>, section: string, lo: int, hi: int)
    requires Packed(base, before, objects, section, lo, hi)
    requires forall s: Slot :: s.section == section && s in before ==> s in after && after[s] == before[s]
    ensures Packed(base, after, objects, section, lo, hi)
  {
    hide Strictest, SizeOf;
    if exists i :: 0 <= i < |objects| && section in objects[i].chunks {
      var start, alignment :| PackedAt(base, before, objects, section, lo, hi, start, alignment);
      assert PackedAt(base, after, objects, section, lo, hi, start, alignment);
    }
  }

  lemma PackedImageIs(base: int, slots: map<Slot, int>, objects: seq<Object>, text: int, rodata: int, length: int)
    requires Packed(base, slots, objects, "text", 0, text) && Packed(base, slots, objects, "rodata", text, rodata)
    requires Packed(base, slots, objects, "data", rodata, length)
    ensures PackedImage(base, slots, objects, length)
  {
    hide Packed;
  }

  lemma PackedImageStill(base: int, before: map<Slot, int>, after: map<Slot, int>, objects: seq<Object>, length: int)
    requires PackedImage(base, before, objects, length)
    requires forall s: Slot :: s.section != "bss" && s in before ==> s in after && after[s] == before[s]
    ensures PackedImage(base, after, objects, length)
  {
    hide Packed;
    var text, rodata :| Packed(base, before, objects, "text", 0, text) && Packed(base, before, objects, "rodata", text, rodata)
      && Packed(base, before, objects, "data", rodata, length);
    PackedStill(base, before, after, objects, "text", 0, text);
    PackedStill(base, before, after, objects, "rodata", text, rodata);
    PackedStill(base, before, after, objects, "data", rodata, length);
  }

  /** Pads to the section's alignment and appends every object's bytes. */
  method ConcatenateSection(base: int, image0: seq<int>, slots0: map<Slot, int>, objects: seq<Object>, section: string)
    returns (image: seq<int>, slots: map<Slot, int>)
    requires section in SECTIONS && LaidOut(base, image0, slots0, objects) && SlotsUpTo(slots0, objects, Rank(section), 0)
    ensures LaidOut(base, image, slots, objects) && SlotsUpTo(slots, objects, Rank(section) + 1, 0)
    ensures SectionAligned(base, slots, objects, section)
    ensures Packed(base, slots, objects, section, |image0|, |image|)
    ensures forall s: Slot :: s.section != section && s in slots0 ==> s in slots && slots[s] == slots0[s]
  {
    hide LaidOut, SlotsUpTo, Strictest, SizeOf, Packed, SectionAligned;
    image, slots := image0, slots0;
    var alignment, any := SectionAlign(objects, section);
    PositiveAlign(objects, section, alignment);
    RankOf(section);
    if any {
      var zeros := Zeros(AlignUp(|image|, alignment) - |image|);
      Padding(base, image, slots, objects, zeros);
      image := image + zeros;
    }
    ghost var start := |image|;
    NoSize(objects, section);
    for i := 0 to |objects|
      invariant LaidOut(base, image, slots, objects) && SlotsUpTo(slots, objects, Rank(section), i)
      invariant |image| == start + SizeOf(objects[..i], section)
      invariant forall j :: 0 <= j < i && section in objects[j].chunks ==>
        Slot(j, section) in slots && slots[Slot(j, section)] == base + start + SizeOf(objects[..j], section)
      invariant forall s: Slot :: s.section != section && s in slots0 ==> s in slots && slots[s] == slots0[s]
    {
      SizeMore(objects, section, i);
      SlotsMore(slots, objects, section, i, base + |image|);
      if section in objects[i].chunks {
        NextSlot(slots, objects, section, i);
        Append(base, image, slots, objects, Slot(i, section));
        assert BytesOf(objects, Slot(i, section)) == objects[i].chunks[section].bytes;
        slots := slots[Slot(i, section) := base + |image|];
        image := image + objects[i].chunks[section].bytes;
      }
      hide Rank, BytesOf, HasChunk, Earlier;
    }
    SlotsDone(slots, objects, section);
    assert objects[..|objects|] == objects;
    if !any { NoneBefore(objects, section, |objects|); }
    PackedIs(base, slots, objects, section, |image0|, |image|, start, alignment, any);
    PackedAligned(base, slots, objects, section, |image0|, |image|);
  }

  lemma NoSize(objects: seq<Object>, section: string)
    ensures SizeOf(objects[..0], section) == 0
  {
  }

  /** The section begins at a multiple of its alignment. */
  ghost predicate SectionAligned(base: int, slots: map<Slot, int>, objects: seq<Object>, section: string) {
    forall i, alignment :: FirstIn(objects, section, i) && Strictest(objects, section, alignment) ==>
      Slot(i, section) in slots && (slots[Slot(i, section)] - base) % alignment == 0
  }

  lemma {:induction false} NoneBefore(objects: seq<Object>, section: string, n: int)
    requires 0 <= n <= |objects| && forall j :: 0 <= j < n ==> section !in objects[j].chunks
    ensures SizeOf(objects[..n], section) == 0
    decreases n
  {
    if n > 0 {
      NoneBefore(objects, section, n - 1);
      SizeMore(objects, section, n - 1);
    }
    hide SizeOf;
    if n == 0 { NoSize(objects, section); }
  }

  lemma PackedAligned(base: int, slots: map<Slot, int>, objects: seq<Object>, section: string, before: int, after: int)
    requires Packed(base, slots, objects, section, before, after)
    ensures SectionAligned(base, slots, objects, section)
  {
    hide Strictest, SizeOf;
    forall i, other | FirstIn(objects, section, i) && Strictest(objects, section, other)
      ensures Slot(i, section) in slots && other > 0 && (slots[Slot(i, section)] - base) % other == 0
    {
      var start, alignment :| PackedAt(base, slots, objects, section, before, after, start, alignment);
      StrictestUnique(objects, section, alignment, other);
      PositiveAlign(objects, section, other);
      NoneBefore(objects, section, i);
    }
  }

  lemma PositiveAlign(objects: seq<Object>, section: string, alignment: int)
    requires Strictest(objects, section, alignment)
    ensures alignment > 0
  {
  }

  lemma RankOf(section: string)
    requires section in SECTIONS
    ensures 0 <= Rank(section) < 3 && forall other :: Rank(other) == Rank(section) ==> other == section
  {
  }

  lemma SlotsMore(slots: map<Slot, int>, objects: seq<Object>, section: string, n: int, at: int)
    requires 0 <= n < |objects| && SlotsUpTo(slots, objects, Rank(section), n) && Rank(section) < 3 && forall other :: Rank(other) == Rank(section) ==> other == section
    ensures section !in objects[n].chunks ==> SlotsUpTo(slots, objects, Rank(section), n + 1)
    ensures section in objects[n].chunks ==> SlotsUpTo(slots[Slot(n, section) := at], objects, Rank(section), n + 1)
  {
    hide Rank;
  }

  lemma NextSlot(slots: map<Slot, int>, objects: seq<Object>, section: string, n: int)
    requires SlotsUpTo(slots, objects, Rank(section), n)
    ensures Slot(n, section) !in slots && forall t :: t in slots ==> Earlier(t, Slot(n, section)) && !Earlier(Slot(n, section), t)
  {
    hide Rank;
  }

  lemma SlotsDone(slots: map<Slot, int>, objects: seq<Object>, section: string)
    requires SlotsUpTo(slots, objects, Rank(section), |objects|)
    ensures SlotsUpTo(slots, objects, Rank(section) + 1, 0)
  {
    hide Rank;
  }

  lemma NothingLaidOut(base: int, objects: seq<Object>)
    ensures LaidOut(base, [], map[], objects) && SlotsUpTo(map[], objects, 0, 0)
  {
    RanksPositive();
    hide Rank;
  }

  lemma RanksPositive()
    ensures forall section :: Rank(section) >= 0
  {
  }

  method LayOutSections(base: int, objects: seq<Object>) returns (image: seq<int>, slots: map<Slot, int>)
    ensures LaidOut(base, image, slots, objects) && SlotsUpTo(slots, objects, 3, 0)
    ensures forall section :: section in SECTIONS ==> SectionAligned(base, slots, objects, section)
    ensures PackedImage(base, slots, objects, |image|)
  {
    hide LaidOut, SlotsUpTo, SectionAligned, Packed, PackedImage;
    NothingLaidOut(base, objects);
    image, slots := [], map[];
    image, slots := ConcatenateSection(base, image, slots, objects, "text");
    ghost var text, textEnd := slots, |image|;
    image, slots := ConcatenateSection(base, image, slots, objects, "rodata");
    ghost var rodata, rodataEnd := slots, |image|;
    PackedStill(base, text, slots, objects, "text", 0, textEnd);
    image, slots := ConcatenateSection(base, image, slots, objects, "data");
    AlignedStill(base, text, slots, objects, "text", "rodata");
    AlignedStill(base, rodata, slots, objects, "rodata", "data");
    PackedStill(base, rodata, slots, objects, "text", 0, textEnd);
    PackedStill(base, rodata, slots, objects, "rodata", textEnd, rodataEnd);
    PackedImageIs(base, slots, objects, textEnd, rodataEnd, |image|);
  }

  lemma AlignedStill(base: int, before: map<Slot, int>, after: map<Slot, int>, objects: seq<Object>, section: string, other: string)
    requires SectionAligned(base, before, objects, section) && section != other
    requires forall s: Slot :: s.section != "data" && s.section != other && s in before ==> s in after && after[s] == before[s]
    requires section != "data"
    ensures SectionAligned(base, after, objects, section)
  {
    hide Strictest, FirstIn;
  }

  // ----- Uninitialised data -----

  function BssSize(objects: seq<Object>): int {
    if objects == [] then 0 else BssSize(objects[..|objects| - 1]) + (if objects[|objects| - 1].bss.Some? then objects[|objects| - 1].bss.value else 0)
  }

  lemma BssMore(objects: seq<Object>, n: int)
    requires 0 <= n < |objects|
    ensures BssSize(objects[..n + 1]) == BssSize(objects[..n]) + (if objects[n].bss.Some? then objects[n].bss.value else 0)
  {
    assert objects[..n + 1][..n] == objects[..n];
  }

  lemma NoBssYet(slots: map<Slot, int>, objects: seq<Object>)
    requires SlotsUpTo(slots, objects, 3, 0)
    ensures (forall i :: Slot(i, "bss") !in slots) && BssSize(objects[..0]) == 0
  {
    assert objects[..0] == [];
    hide HasChunk;
  }

  /** The first `n` objects have their uninitialised data placed. */
  ghost predicate BssUpTo(base: int, length: int, objects: seq<Object>, slots0: map<Slot, int>, slots: map<Slot, int>, n: int)
    requires 0 <= n <= |objects|
  {
    && (forall s: Slot :: s.section != "bss" ==> (s in slots <==> s in slots0) && (s in slots0 ==> slots[s] == slots0[s]))
    && (forall i :: 0 <= i < n && objects[i].bss.Some? ==>
         Slot(i, "bss") in slots && slots[Slot(i, "bss")] == base + length + TRAILER + BssSize(objects[..i]))
    && (forall i :: Slot(i, "bss") in slots <==> 0 <= i < n && objects[i].bss.Some?)
  }

  lemma BssStarts(base: int, length: int, objects: seq<Object>, slots: map<Slot, int>)
    requires forall i :: Slot(i, "bss") !in slots
    ensures BssUpTo(base, length, objects, slots, slots, 0)
  {
  }

  lemma BssStep(base: int, length: int, objects: seq<Object>, slots0: map<Slot, int>, slots: map<Slot, int>, n: int)
    requires 0 <= n < |objects| && BssUpTo(base, length, objects, slots0, slots, n)
    ensures objects[n].bss.None? ==> BssUpTo(base, length, objects, slots0, slots, n + 1)
    ensures objects[n].bss.Some? ==>
      BssUpTo(base, length, objects, slots0, slots[Slot(n, "bss") := base + length + TRAILER + BssSize(objects[..n])], n + 1)
  {
    hide BssSize;
  }

  lemma BssEnds(base: int, length: int, objects: seq<Object>, slots0: map<Slot, int>, slots: map<Slot, int>)
    requires BssUpTo(base, length, objects, slots0, slots, |objects|)
    ensures forall s: Slot :: s.section != "bss" ==> (s in slots <==> s in slots0) && (s in slots0 ==> slots[s] == slots0[s])
    ensures forall i :: 0 <= i < |objects| && objects[i].bss.Some? ==>
      Slot(i, "bss") in slots && slots[Slot(i, "bss")] == base + length + TRAILER + BssSize(objects[..i])
    ensures forall i :: Slot(i, "bss") in slots <==> 0 <= i < |objects| && objects[i].bss.Some?
  {
    hide BssSize;
  }

  /** Uninitialised data follows the image and its trailer, one object after the
      other. */
  method LayOutBss(base: int, image: seq<int>, objects: seq<Object>, slots0: map<Slot, int>) returns (slots: map<Slot, int>, size: int)
    requires SlotsUpTo(slots0, objects, 3, 0)
    ensures size == BssSize(objects)
    ensures forall s: Slot :: s.section != "bss" ==> (s in slots <==> s in slots0) && (s in slots0 ==> slots[s] == slots0[s])
    ensures forall i :: 0 <= i < |objects| && objects[i].bss.Some? ==>
      Slot(i, "bss") in slots && slots[Slot(i, "bss")] == base + |image| + TRAILER + BssSize(objects[..i])
    ensures forall i :: Slot(i, "bss") in slots <==> 0 <= i < |objects| && objects[i].bss.Some?
  {
    hide *;
    NoBssYet(slots0, objects);
    slots, size := slots0, 0;
    BssStarts(base, |image|, objects, slots0);
    for n := 0 to |objects|
      invariant size == BssSize(objects[..n]) && BssUpTo(base, |image|, objects, slots0, slots, n)
    {
      BssMore(objects, n);
      BssStep(base, |image|, objects, slots0, slots, n);
      if objects[n].bss.Some? {
        slots := slots[Slot(n, "bss") := base + |image| + TRAILER + size];
        size := size + objects[n].bss.value;
      }
    }
    BssEnds(base, |image|, objects, slots0, slots);
    assert objects[..|objects|] == objects;
  }

  // ----- Symbols -----

  datatype Addresses = Addresses(globals: map<string, int>, locals: seq<map<string, int>>)

  /** `DoesNotPack` is an exception that no message announces. */
  datatype Failure = DuplicateSymbol(name: string) | UnknownSymbol(owner: int, name: string) | TooFar(owner: int, name: string)
    | DoesNotPack(owner: int, name: string)

  datatype Outcome<T> = Done(value: T) | Failed(reason: Failure)

  /** Every symbol names a section that its object has. */
  ghost predicate SymbolsPlaced(objects: seq<Object>, slots: map<Slot, int>) {
    forall i, name :: 0 <= i < |objects| && name in objects[i].symbols ==> Slot(i, objects[i].symbols[name].section) in slots
  }

  predicate Exports(objects: seq<Object>, i: int, name: string) {
    0 <= i < |objects| && name in objects[i].symbols && objects[i].symbols[name].isGlobal
  }

  function AddressOf(objects: seq<Object>, slots: map<Slot, int>, i: int, name: string): int {
    if 0 <= i < |objects| && name in objects[i].symbols && Slot(i, objects[i].symbols[name].section) in slots
    then slots[Slot(i, objects[i].symbols[name].section)] + objects[i].symbols[name].offset
    else 0
  }

  function LocalsOf(objects: seq<Object>, slots: map<Slot, int>, i: int): map<string, int>
    requires 0 <= i < |objects|
  {
    map name | name in objects[i].symbols && !objects[i].symbols[name].isGlobal :: AddressOf(objects, slots, i, name)
  }

  function GlobalsOf(objects: seq<Object>, slots: map<Slot, int>, i: int): map<string, int>
    requires 0 <= i < |objects|
  {
    map name | name in objects[i].symbols && objects[i].symbols[name].isGlobal :: AddressOf(objects, slots, i, name)
  }

  /** Each object's local symbols, and all global ones, each with its address. */
  ghost predicate SymbolsAre(objects: seq<Object>, slots: map<Slot, int>, n: int, a: Addresses) {
    && 0 <= n <= |objects| && |a.locals| == n
    && (forall i :: 0 <= i < n ==> a.locals[i] == LocalsOf(objects, slots, i))
    && (forall name :: name in a.globals ==> exists i :: i < n && Exports(objects, i, name))
    && (forall i, name :: i < n && Exports(objects, i, name) ==> name in a.globals && a.globals[name] == AddressOf(objects, slots, i, name))
  }

  ghost predicate DefinedTwice(objects: seq<Object>, name: string) {
    exists i, j :: i < j && Exports(objects, i, name) && Exports(objects, j, name)
  }

  /** Some object exports a name that an object before it exports, and none before it
      does so. */
  ghost predicate FirstClash(objects: seq<Object>, name: string) {
    exists i, j :: j < i && Exports(objects, i, name) && Exports(objects, j, name) && OnceBelow(objects, i)
  }

  /** No name is exported twice by the first `n` objects. */
  ghost predicate OnceBelow(objects: seq<Object>, n: int) {
    forall j, k, name :: j < k < n && Exports(objects, j, name) ==> !Exports(objects, k, name)
  }

  lemma NoSymbolsYet(objects: seq<Object>, slots: map<Slot, int>)
    ensures SymbolsAre(objects, slots, 0, Addresses(map[], [])) && OnceBelow(objects, 0)
  {
  }

  lemma GlobalNames(objects: seq<Object>, slots: map<Slot, int>, i: int, name: string)
    requires 0 <= i < |objects|
    ensures name in GlobalsOf(objects, slots, i) <==> Exports(objects, i, name)
    ensures Exports(objects, i, name) ==> GlobalsOf(objects, slots, i)[name] == AddressOf(objects, slots, i, name)
  {
    hide AddressOf;
  }

  lemma ClashTwice(objects: seq<Object>, slots: map<Slot, int>, i: int, a: Addresses, name: string)
    requires 0 <= i < |objects| && SymbolsAre(objects, slots, i, a) && name in a.globals && name in GlobalsOf(objects, slots, i)
    requires OnceBelow(objects, i)
    ensures DefinedTwice(objects, name) && FirstClash(objects, name)
  {
    GlobalNames(objects, slots, i, name);
    hide GlobalsOf, LocalsOf, AddressOf, Exports, OnceBelow;
    var j :| j < i && Exports(objects, j, name);
  }

  lemma GlobalsGrow(objects: seq<Object>, slots: map<Slot, int>, i: int, a: Addresses, globals: map<string, int>)
    requires 0 <= i < |objects| && SymbolsAre(objects, slots, i, a)
    requires forall name :: name in globals <==> Exports(objects, i, name)
    requires forall name :: Exports(objects, i, name) ==> globals[name] == AddressOf(objects, slots, i, name)
    requires forall name :: !(name in globals && name in a.globals)
    ensures SymbolsAre(objects, slots, i + 1, Addresses(a.globals + globals, a.locals + [LocalsOf(objects, slots, i)]))
  {
    hide LocalsOf, AddressOf, Exports;
  }

  lemma OnceMore(objects: seq<Object>, slots: map<Slot, int>, i: int, a: Addresses, globals: map<string, int>)
    requires 0 <= i < |objects| && SymbolsAre(objects, slots, i, a) && OnceBelow(objects, i)
    requires forall name :: name in globals <==> Exports(objects, i, name)
    requires forall name :: !(name in globals && name in a.globals)
    ensures OnceBelow(objects, i + 1)
  {
    hide LocalsOf, AddressOf, Exports;
  }

  lemma SymbolsMore(objects: seq<Object>, slots: map<Slot, int>, i: int, a: Addresses)
    requires 0 <= i < |objects| && SymbolsAre(objects, slots, i, a) && OnceBelow(objects, i) && GlobalsOf(objects, slots, i).Keys * a.globals.Keys == {}
    ensures SymbolsAre(objects, slots, i + 1, Addresses(a.globals + GlobalsOf(objects, slots, i), a.locals + [LocalsOf(objects, slots, i)]))
    ensures OnceBelow(objects, i + 1)
  {
    var globals := GlobalsOf(objects, slots, i);
    forall name
      ensures name in globals <==> Exports(objects, i, name)
      ensures Exports(objects, i, name) ==> globals[name] == AddressOf(objects, slots, i, name)
      ensures !(name in globals && name in a.globals)
    {
      GlobalNames(objects, slots, i, name);
      assert name in globals && name in a.globals ==> name in globals.Keys * a.globals.Keys;
    }
    GlobalsGrow(objects, slots, i, a, globals);
    OnceMore(objects, slots, i, a, globals);
  }

  lemma OnceAll(objects: seq<Object>)
    requires OnceBelow(objects, |objects|)
    ensures forall name :: !DefinedTwice(objects, name)
  {
  }

  method AssignSymbols(objects: seq<Object>, slots: map<Slot, int>) returns (r: Outcome<Addresses>)
    ensures r.Done? ==> SymbolsAre(objects, slots, |objects|, r.value) && forall name :: !DefinedTwice(objects, name)
    ensures r.Failed? ==> r.reason.DuplicateSymbol? && DefinedTwice(objects, r.reason.name) && FirstClash(objects, r.reason.name)
  {
    hide *;
    var a := Addresses(map[], []);
    NoSymbolsYet(objects, slots);
    for i := 0 to |objects|
      invariant SymbolsAre(objects, slots, i, a) && OnceBelow(objects, i)
    {
      var globals := GlobalsOf(objects, slots, i);
      var clash := globals.Keys * a.globals.Keys;
      if clash != {} {
        var name :| name in clash;
        ClashTwice(objects, slots, i, a, name);
        return Failed(DuplicateSymbol(name));
      }
      SymbolsMore(objects, slots, i, a);
      a := Addresses(a.globals + globals, a.locals + [LocalsOf(objects, slots, i)]);
    }
    OnceAll(objects);
    r := Done(a);
  }

  /** A symbol of the object itself wins over one defined elsewhere. */
  function Resolve(a: Addresses, i: int, name: string): Option<int> {
    if 0 <= i < |a.locals| && name in a.locals[i] then Some(a.locals[i][name])
    else if name in a.globals then Some(a.globals[name]) else None
  }

  /** What an object defines is what its own relocations reach. */
  lemma ResolvesOwn(objects: seq<Object>, slots: map<Slot, int>, a: Addresses, i: int, name: string)
    requires SymbolsAre(objects, slots, |objects|, a) && 0 <= i < |objects| && name in objects[i].symbols
    ensures Resolve(a, i, name) == Some(AddressOf(objects, slots, i, name))
  {
    hide AddressOf;
    if objects[i].symbols[name].isGlobal { assert Exports(objects, i, name); }
  }

  // ----- Relocations -----

  const WORD := 0x1_0000_0000

  const HALF := 0x8000_0000

  /** Where the patched field lies in memory. */
  function PatchAddress(slots: map<Slot, int>, i: int, rel: Relocation): int {
    if Slot(i, rel.section) in slots then slots[Slot(i, rel.section)] + rel.offset else 0
  }

  predicate CanApply(slots: map<Slot, int>, a: Addresses, i: int, rel: Relocation) {
    && Resolve(a, i, rel.symbol).Some?
    && (rel.relative ==> -HALF <= Resolve(a, i, rel.symbol).value - (PatchAddress(slots, i, rel) + 4) < HALF)
  }

  lemma ProblemIs(slots: map<Slot, int>, a: Addresses, i: int, rel: Relocation)
    ensures ProblemOf(slots, a, i, rel) == if Resolve(a, i, rel.symbol).None? then Some(UnknownSymbol(i, rel.symbol))
      else if CanApply(slots, a, i, rel) then None else Some(TooFar(i, rel.symbol))
  {
  }

  /** What is wrong with one relocation, if anything. */
  function ProblemOf(slots: map<Slot, int>, a: Addresses, i: int, rel: Relocation): Option<Failure> {
    if Resolve(a, i, rel.symbol).None? then Some(UnknownSymbol(i, rel.symbol))
    else if CanApply(slots, a, i, rel) then None else Some(TooFar(i, rel.symbol))
  }

  ghost predicate ProblemAt(objects: seq<Object>, slots: map<Slot, int>, a: Addresses, i: int, k: int, f: Failure) {
    0 <= i < |objects| && 0 <= k < |objects[i].relocations| && ProblemOf(slots, a, i, objects[i].relocations[k]) == Some(f)
  }

  /** The first problem, in the order of the objects and of their relocations. */
  ghost predicate FirstProblem(objects: seq<Object>, slots: map<Slot, int>, a: Addresses, f: Failure) {
    exists i, k :: ProblemAt(objects, slots, a, i, k, f) && AppliesBefore(objects, slots, a, i, k)
  }

  ghost predicate AppliesBefore(objects: seq<Object>, slots: map<Slot, int>, a: Addresses, i: int, k: int) {
    forall j, q :: 0 <= j < |objects| && 0 <= q < |objects[j].relocations| && (j < i || (j == i && q < k)) ==>
      CanApply(slots, a, j, objects[j].relocations[q])
  }

  /** A symbol resolves if and only if its own object defines it or some object exports
      it. */
  lemma ResolvesIff(objects: seq<Object>, slots: map<Slot, int>, a: Addresses, i: int, name: string)
    requires SymbolsAre(objects, slots, |objects|, a) && 0 <= i < |objects|
    ensures Resolve(a, i, name).Some? <==> name in objects[i].symbols || exists j :: Exports(objects, j, name)
  {
    hide AddressOf;
    if name in objects[i].symbols { ResolvesOwn(objects, slots, a, i, name); }
  }

  method ValidateRelocations(objects: seq<Object>, slots: map<Slot, int>, a: Addresses) returns (problem: Option<Failure>)
    ensures problem.None? <==> forall i, k :: 0 <= i < |objects| && 0 <= k < |objects[i].relocations| ==> CanApply(slots, a, i, objects[i].relocations[k])
    ensures problem.Some? ==> FirstProblem(objects, slots, a, problem.value)
  {
    hide Resolve, PatchAddress, CanApply, ProblemOf;
    for i := 0 to |objects|
      invariant forall j, k :: 0 <= j < i && 0 <= k < |objects[j].relocations| ==> CanApply(slots, a, j, objects[j].relocations[k])
    {
      for k := 0 to |objects[i].relocations|
        invariant forall q :: 0 <= q < k ==> CanApply(slots, a, i, objects[i].relocations[q])
      {
        var rel := objects[i].relocations[k];
        CanApplyIs(slots, a, i, rel);
        ProblemIs(slots, a, i, rel);
        assert AppliesBefore(objects, slots, a, i, k);
        if Resolve(a, i, rel.symbol).None? {
          assert ProblemAt(objects, slots, a, i, k, UnknownSymbol(i, rel.symbol));
          return Some(UnknownSymbol(i, rel.symbol));
        }
        if rel.relative {
          var displacement := Resolve(a, i, rel.symbol).value - (PatchAddress(slots, i, rel) + 4);
          if displacement < -HALF || displacement >= HALF {
            assert ProblemAt(objects, slots, a, i, k, TooFar(i, rel.symbol));
            return Some(TooFar(i, rel.symbol));
          }
        }
      }
    }
    problem := None;
  }

  lemma CanApplyIs(slots: map<Slot, int>, a: Addresses, i: int, rel: Relocation)
    ensures Resolve(a, i, rel.symbol).None? ==> !CanApply(slots, a, i, rel)
    ensures Resolve(a, i, rel.symbol).Some? && !rel.relative ==> CanApply(slots, a, i, rel)
    ensures Resolve(a, i, rel.symbol).Some? && rel.relative ==>
      (CanApply(slots, a, i, rel) <==> -HALF <= Resolve(a, i, rel.symbol).value - (PatchAddress(slots, i, rel) + 4) < HALF)
  {
  }

  // ----- Four bytes -----

  /** Little-endian bytes of a 32-bit value. */
  function Little(v: int): (r: seq<int>)
    ensures |r| == 4
  {
    [v % 256, v / 256 % 256, v / 65536 % 256, v / 16777216 % 256]
  }

  function FromLittle(b: seq<int>): int
    requires |b| == 4
  {
    b[0] + 256 * b[1] + 65536 * b[2] + 16777216 * b[3]
  }

  function Signed(v: int): int { if v >= HALF then v - WORD else v }

  lemma LittleRoundTrip(v: int)
    requires 0 <= v < WORD
    ensures FromLittle(Little(v)) == v
  {
    var a, b := v / 256, v / 65536;
    assert v == 256 * a + v % 256;
    assert a == 256 * (a / 256) + a % 256 && a / 256 == b;
    assert b == 256 * (b / 256) + b % 256 && b / 256 == v / 16777216;
    assert 0 <= v / 16777216 < 256;
  }

  lemma SignedRoundTrip(v: int)
    requires -HALF <= v < HALF
    ensures Signed(v % WORD) == v && 0 <= v % WORD < WORD
  {
  }

  // ----- Patching -----

  datatype Patch = Patch(at: int, value: int)

  /** What the linker writes for one relocation. */
  function FieldOf(slots: map<Slot, int>, a: Addresses, i: int, rel: Relocation): int {
    var symbol := Resolve(a, i, rel.symbol);
    if symbol.None? then 0
    else if rel.relative then (symbol.value + rel.addend - (PatchAddress(slots, i, rel) + 4)) % WORD
    else (symbol.value + rel.addend) % WORD
  }

  function PatchOf(base: int, slots: map<Slot, int>, a: Addresses, i: int, rel: Relocation): Patch {
    Patch(PatchAddress(slots, i, rel) - base, FieldOf(slots, a, i, rel))
  }

  function ObjectPatches(base: int, objects: seq<Object>, slots: map<Slot, int>, a: Addresses, i: int, n: int): (r: seq<Patch>)
    requires 0 <= i < |objects| && 0 <= n <= |objects[i].relocations|
    ensures |r| == n
  {
    seq(n, k requires 0 <= k < n => PatchOf(base, slots, a, i, objects[i].relocations[k]))
  }

  function AllPatches(base: int, objects: seq<Object>, slots: map<Slot, int>, a: Addresses, n: int): seq<Patch>
    requires 0 <= n <= |objects|
  {
    if n == 0 then [] else AllPatches(base, objects, slots, a, n - 1) + ObjectPatches(base, objects, slots, a, n - 1, |objects[n - 1].relocations|)
  }

  function WriteField(image: seq<int>, p: Patch): (r: seq<int>)
    ensures |r| == |image|
  {
    if 0 <= p.at && p.at + 4 <= |image| then image[..p.at] + Little(p.value) + image[p.at + 4..] else image
  }

  function ApplyAll(image: seq<int>, ps: seq<Patch>): (r: seq<int>)
    ensures |r| == |image|
  {
    if ps == [] then image else WriteField(ApplyAll(image, ps[..|ps| - 1]), ps[|ps| - 1])
  }

  /** The packed value with its addend: a relative one must be a signed word, an absolute
      one is cut to a word. */
  predicate Packs(slots: map<Slot, int>, a: Addresses, i: int, rel: Relocation) {
    rel.relative && Resolve(a, i, rel.symbol).Some? ==>
      -HALF <= Resolve(a, i, rel.symbol).value + rel.addend - (PatchAddress(slots, i, rel) + 4) < HALF
  }

  ghost predicate AllPack(objects: seq<Object>, slots: map<Slot, int>, a: Addresses) {
    forall i, k :: 0 <= i < |objects| && 0 <= k < |objects[i].relocations| ==> Packs(slots, a, i, objects[i].relocations[k])
  }

  /** The first relocation whose value does not pack. */
  ghost predicate FirstUnpacked(objects: seq<Object>, slots: map<Slot, int>, a: Addresses, f: Failure) {
    exists i, k :: UnpackedAt(objects, slots, a, i, k, f)
  }

  ghost predicate UnpackedAt(objects: seq<Object>, slots: map<Slot, int>, a: Addresses, i: int, k: int, f: Failure) {
    && 0 <= i < |objects| && 0 <= k < |objects[i].relocations| && !Packs(slots, a, i, objects[i].relocations[k])
    && f == DoesNotPack(i, objects[i].relocations[k].symbol) && PacksBefore(objects, slots, a, i, k)
  }

  /** Validation leaves the addend out, so it is enough where there is none. */
  lemma AppliedPacks(slots: map<Slot, int>, a: Addresses, i: int, rel: Relocation)
    requires CanApply(slots, a, i, rel) && (rel.relative ==> rel.addend == 0)
    ensures Packs(slots, a, i, rel)
  {
    hide Resolve, PatchAddress;
  }

  ghost predicate PacksBefore(objects: seq<Object>, slots: map<Slot, int>, a: Addresses, i: int, k: int) {
    forall j, q :: 0 <= j < |objects| && 0 <= q < |objects[j].relocations| && (j < i || (j == i && q < k)) ==>
      Packs(slots, a, j, objects[j].relocations[q])
  }

  lemma PatchesStart(base: int, image: seq<int>, objects: seq<Object>, slots: map<Slot, int>, a: Addresses)
    ensures ApplyAll(image, AllPatches(base, objects, slots, a, 0)) == image && PacksBefore(objects, slots, a, 0, 0)
  {
  }

  lemma PatchesOf(base: int, objects: seq<Object>, slots: map<Slot, int>, a: Addresses, i: int)
    requires 0 <= i < |objects|
    ensures AllPatches(base, objects, slots, a, i) + ObjectPatches(base, objects, slots, a, i, 0) == AllPatches(base, objects, slots, a, i)
    ensures AllPatches(base, objects, slots, a, i) + ObjectPatches(base, objects, slots, a, i, |objects[i].relocations|) == AllPatches(base, objects, slots, a, i + 1)
  {
    hide PatchOf;
  }

  lemma PatchMore(base: int, image: seq<int>, objects: seq<Object>, slots: map<Slot, int>, a: Addresses, i: int, k: int)
    requires 0 <= i < |objects| && 0 <= k < |objects[i].relocations|
    ensures var done := AllPatches(base, objects, slots, a, i);
      WriteField(ApplyAll(image, done + ObjectPatches(base, objects, slots, a, i, k)), PatchOf(base, slots, a, i, objects[i].relocations[k]))
      == ApplyAll(image, done + ObjectPatches(base, objects, slots, a, i, k + 1))
  {
    hide WriteField, ApplyAll, AllPatches, PatchOf;
    var p := PatchOf(base, slots, a, i, objects[i].relocations[k]);
    ApplyOneMore(image, AllPatches(base, objects, slots, a, i), ObjectPatches(base, objects, slots, a, i, k), p);
    assert ObjectPatches(base, objects, slots, a, i, k) + [p] == ObjectPatches(base, objects, slots, a, i, k + 1);
  }

  lemma PacksMore(objects: seq<Object>, slots: map<Slot, int>, a: Addresses, i: int, k: int)
    requires 0 <= i < |objects| && 0 <= k < |objects[i].relocations| && PacksBefore(objects, slots, a, i, k)
    ensures Packs(slots, a, i, objects[i].relocations[k]) ==> PacksBefore(objects, slots, a, i, k + 1)
    ensures !Packs(slots, a, i, objects[i].relocations[k]) ==>
      !AllPack(objects, slots, a) && FirstUnpacked(objects, slots, a, DoesNotPack(i, objects[i].relocations[k].symbol))
  {
    hide Packs;
    assert !Packs(slots, a, i, objects[i].relocations[k]) ==> UnpackedAt(objects, slots, a, i, k, DoesNotPack(i, objects[i].relocations[k].symbol));
  }

  lemma PacksNext(objects: seq<Object>, slots: map<Slot, int>, a: Addresses, i: int)
    requires 0 <= i < |objects| && PacksBefore(objects, slots, a, i, |objects[i].relocations|)
    ensures PacksBefore(objects, slots, a, i + 1, 0)
  {
    hide Packs;
  }

  lemma PacksAll(objects: seq<Object>, slots: map<Slot, int>, a: Addresses)
    requires PacksBefore(objects, slots, a, |objects|, 0)
    ensures AllPack(objects, slots, a)
  {
    hide Packs;
  }

  method ApplyRelocations(base: int, image0: seq<int>, objects: seq<Object>, slots: map<Slot, int>, a: Addresses) returns (r: Outcome<seq<int>>)
    ensures r.Done? <==> AllPack(objects, slots, a)
    ensures r.Done? ==> r.value == ApplyAll(image0, AllPatches(base, objects, slots, a, |objects|))
    ensures r.Failed? ==> FirstUnpacked(objects, slots, a, r.reason)
  {
    hide *;
    var image := image0;
    PatchesStart(base, image0, objects, slots, a);
    for i := 0 to |objects|
      invariant image == ApplyAll(image0, AllPatches(base, objects, slots, a, i))
      invariant PacksBefore(objects, slots, a, i, 0)
    {
      PatchesOf(base, objects, slots, a, i);
      for k := 0 to |objects[i].relocations|
        invariant image == ApplyAll(image0, AllPatches(base, objects, slots, a, i) + ObjectPatches(base, objects, slots, a, i, k))
        invariant PacksBefore(objects, slots, a, i, k)
      {
        var rel := objects[i].relocations[k];
        PacksMore(objects, slots, a, i, k);
        if !Packs(slots, a, i, rel) { return Failed(DoesNotPack(i, rel.symbol)); }
        var p := PatchOf(base, slots, a, i, rel);
        PatchMore(base, image0, objects, slots, a, i, k);
        image := WriteField(image, p);
      }
      PacksNext(objects, slots, a, i);
    }
    PacksAll(objects, slots, a);
    r := Done(image);
  }

  lemma ApplyOneMore(image: seq<int>, done: seq<Patch>, some: seq<Patch>, p: Patch)
    ensures ApplyAll(image, done + (some + [p])) == WriteField(ApplyAll(image, done + some), p)
  {
    var all := done + (some + [p]);
    assert all[..|all| - 1] == done + some && all[|all| - 1] == p;
    hide WriteField;
  }

  // ----- What the patched image holds -----

  ghost predicate Inside(image: seq<int>, ps: seq<Patch>) {
    forall j :: 0 <= j < |ps| ==> 0 <= ps[j].at && ps[j].at + 4 <= |image|
  }

  predicate Apart(p: Patch, q: Patch) { p.at + 4 <= q.at || q.at + 4 <= p.at }

  ghost predicate AllApart(ps: seq<Patch>) {
    forall i, j :: 0 <= i < j < |ps| ==> Apart(ps[i], ps[j])
  }

  ghost predicate InSite(ps: seq<Patch>, k: int) {
    exists j :: 0 <= j < |ps| && ps[j].at <= k < ps[j].at + 4
  }

  lemma WriteFieldIs(image: seq<int>, p: Patch)
    requires 0 <= p.at && p.at + 4 <= |image|
    ensures WriteField(image, p)[p.at..p.at + 4] == Little(p.value)
    ensures forall k :: 0 <= k < |image| && !(p.at <= k < p.at + 4) ==> WriteField(image, p)[k] == image[k]
  {
    hide Little;
  }

  /** Each site holds its own field, and every other byte is as it was. */
  lemma {:induction false} ApplyAllIs(image: seq<int>, ps: seq<Patch>)
    requires Inside(image, ps) && AllApart(ps)
    ensures forall j :: 0 <= j < |ps| ==> ApplyAll(image, ps)[ps[j].at..ps[j].at + 4] == Little(ps[j].value)
    ensures forall k :: 0 <= k < |image| && !InSite(ps, k) ==> ApplyAll(image, ps)[k] == image[k]
    decreases |ps|
  {
    hide WriteField, Little;
    if ps != [] {
      var n := |ps| - 1;
      var front, p := ps[..n], ps[n];
      ApplyAllIs(image, front);
      var before, after := ApplyAll(image, front), ApplyAll(image, ps);
      assert after == WriteField(before, p);
      WriteFieldIs(before, p);
      hide ApplyAll;
      forall j | 0 <= j < |ps| ensures after[ps[j].at..ps[j].at + 4] == Little(ps[j].value) {
        if j < n {
          assert front[j] == ps[j] && Apart(ps[j], ps[n]);
          SameField(before, after, p, ps[j].at);
        }
      }
      forall k | 0 <= k < |image| && !InSite(ps, k) ensures after[k] == image[k] {
        assert !(ps[n].at <= k < ps[n].at + 4);
        InLonger(ps, n, k);
      }
    }
  }

  lemma InLonger(ps: seq<Patch>, n: int, k: int)
    requires 0 <= n <= |ps|
    ensures InSite(ps[..n], k) ==> InSite(ps, k)
  {
    if InSite(ps[..n], k) {
      var j :| 0 <= j < |ps[..n]| && ps[..n][j].at <= k < ps[..n][j].at + 4;
      assert ps[j] == ps[..n][j];
    }
  }

  lemma SameField(before: seq<int>, after: seq<int>, p: Patch, at: int)
    requires |before| == |after| && 0 <= at && at + 4 <= |before| && (p.at + 4 <= at || at + 4 <= p.at)
    requires forall k :: 0 <= k < |before| && !(p.at <= k < p.at + 4) ==> after[k] == before[k]
    ensures after[at..at + 4] == before[at..at + 4]
  {
  }

  // ----- The link as a whole -----

  /** Fields lie inside sections that have bytes, and fields of one section do not
      overlap. */
  ghost predicate WellPlaced(objects: seq<Object>) {
    && (forall i, k :: 0 <= i < |objects| && 0 <= k < |objects[i].relocations| ==> FieldInside(objects, i, objects[i].relocations[k]))
    && (forall i, j, k :: 0 <= i < |objects| && 0 <= j < k < |objects[i].relocations| ==> FieldsApart(objects[i].relocations[j], objects[i].relocations[k]))
  }

  predicate FieldInside(objects: seq<Object>, i: int, rel: Relocation) {
    HasChunk(objects, Slot(i, rel.section)) && Rank(rel.section) < 3 && 0 <= rel.offset && rel.offset + 4 <= |BytesOf(objects, Slot(i, rel.section))|
  }

  predicate FieldsApart(r: Relocation, q: Relocation) {
    r.section == q.section ==> r.offset + 4 <= q.offset || q.offset + 4 <= r.offset
  }

  ghost predicate Laid(base: int, image: seq<int>, slots: map<Slot, int>, objects: seq<Object>) {
    && (forall s :: s in slots && Rank(s.section) < 3 ==> InPlace(base, image, slots, objects, s))
    && (forall s: Slot, t: Slot :: Rank(s.section) < 3 && Rank(t.section) < 3 ==> InOrder(slots, objects, s, t))
    && (forall s: Slot :: HasChunk(objects, s) && Rank(s.section) < 3 ==> s in slots)
  }

  lemma PatchInside(base: int, image: seq<int>, slots: map<Slot, int>, objects: seq<Object>, a: Addresses, i: int, rel: Relocation)
    requires Laid(base, image, slots, objects) && FieldInside(objects, i, rel)
    ensures Slot(i, rel.section) in slots && PatchOf(base, slots, a, i, rel).at == slots[Slot(i, rel.section)] - base + rel.offset
    ensures 0 <= PatchOf(base, slots, a, i, rel).at && PatchOf(base, slots, a, i, rel).at + 4 <= |image|
  {
    assert InPlace(base, image, slots, objects, Slot(i, rel.section));
    hide HasChunk, BytesOf, Rank, FieldOf;
  }

  lemma EarlierOrSame(s: Slot, t: Slot)
    requires Rank(s.section) < 3 && Rank(t.section) < 3
    ensures s == t || Earlier(s, t) || Earlier(t, s)
  {
  }

  /** Different relocations patch different bytes. */
  lemma PatchesApart(base: int, image: seq<int>, slots: map<Slot, int>, objects: seq<Object>, a: Addresses, i: int, r: Relocation, j: int, q: Relocation)
    requires Laid(base, image, slots, objects) && FieldInside(objects, i, r) && FieldInside(objects, j, q) && (i == j ==> FieldsApart(r, q))
    ensures Apart(PatchOf(base, slots, a, i, r), PatchOf(base, slots, a, j, q))
  {
    PatchInside(base, image, slots, objects, a, i, r);
    PatchInside(base, image, slots, objects, a, j, q);
    var s, t := Slot(i, r.section), Slot(j, q.section);
    EarlierOrSame(s, t);
    assert InOrder(slots, objects, s, t) && InOrder(slots, objects, t, s);
    hide HasChunk, BytesOf, Rank, FieldOf, PatchOf, Laid, Earlier;
  }

  /** Where a patch of the whole list comes from. */
  lemma {:induction false} PatchOrigin(base: int, objects: seq<Object>, slots: map<Slot, int>, a: Addresses, n: int, x: int) returns (i: int, k: int)
    requires 0 <= n <= |objects| && 0 <= x < |AllPatches(base, objects, slots, a, n)|
    ensures 0 <= i < n && 0 <= k < |objects[i].relocations| && AllPatches(base, objects, slots, a, n)[x] == PatchOf(base, slots, a, i, objects[i].relocations[k])
  {
    hide PatchOf;
    var before := AllPatches(base, objects, slots, a, n - 1);
    if x < |before| {
      i, k := PatchOrigin(base, objects, slots, a, n - 1, x);
    } else {
      i, k := n - 1, x - |before|;
    }
  }

  lemma {:induction false} PatchListed(base: int, objects: seq<Object>, slots: map<Slot, int>, a: Addresses, n: int, i: int, k: int) returns (x: int)
    requires 0 <= i < n <= |objects| && 0 <= k < |objects[i].relocations|
    ensures 0 <= x < |AllPatches(base, objects, slots, a, n)| && AllPatches(base, objects, slots, a, n)[x] == PatchOf(base, slots, a, i, objects[i].relocations[k])
  {
    hide PatchOf;
    var before := AllPatches(base, objects, slots, a, n - 1);
    if i < n - 1 {
      x := PatchListed(base, objects, slots, a, n - 1, i, k);
    } else {
      x := |before| + k;
    }
  }

  lemma {:induction false} PatchesAllApart(base: int, image: seq<int>, slots: map<Slot, int>, objects: seq<Object>, a: Addresses, n: int)
    requires Laid(base, image, slots, objects) && WellPlaced(objects) && 0 <= n <= |objects|
    ensures AllApart(AllPatches(base, objects, slots, a, n)) && Inside(image, AllPatches(base, objects, slots, a, n))
  {
    hide PatchOf, Laid, FieldInside, FieldsApart, Apart;
    var ps := AllPatches(base, objects, slots, a, n);
    if n > 0 {
      var before, own := AllPatches(base, objects, slots, a, n - 1), ObjectPatches(base, objects, slots, a, n - 1, |objects[n - 1].relocations|);
      PatchesAllApart(base, image, slots, objects, a, n - 1);
      assert ps == before + own;
      hide AllPatches;
      forall x | 0 <= x < |own| ensures own[x] == PatchOf(base, slots, a, n - 1, objects[n - 1].relocations[x]) && 0 <= own[x].at && own[x].at + 4 <= |image| {
        PatchInside(base, image, slots, objects, a, n - 1, objects[n - 1].relocations[x]);
      }
      forall x, y | 0 <= x < y < |ps| ensures Apart(ps[x], ps[y]) {
        if y >= |before| {
          var rel := objects[n - 1].relocations[y - |before|];
          if x < |before| {
            var i, k := PatchOrigin(base, objects, slots, a, n - 1, x);
            PatchesApart(base, image, slots, objects, a, i, objects[i].relocations[k], n - 1, rel);
          } else {
            PatchesApart(base, image, slots, objects, a, n - 1, objects[n - 1].relocations[x - |before|], n - 1, rel);
          }
        }
      }
    }
  }

  /** The linked image. */
  function Linked(base: int, image: seq<int>, objects: seq<Object>, slots: map<Slot, int>, a: Addresses): seq<int> {
    ApplyAll(image, AllPatches(base, objects, slots, a, |objects|))
  }

  /** Every patched field holds what its relocation asks for. */
  lemma FieldIs(base: int, image: seq<int>, slots: map<Slot, int>, objects: seq<Object>, a: Addresses, i: int, k: int)
    requires Laid(base, image, slots, objects) && WellPlaced(objects) && 0 <= i < |objects| && 0 <= k < |objects[i].relocations|
    ensures var rel := objects[i].relocations[k]; var at := PatchAddress(slots, i, rel) - base; var out := Linked(base, image, objects, slots, a);
      0 <= at && at + 4 <= |out| && out[at..at + 4] == Little(FieldOf(slots, a, i, rel))
  {
    hide *;
    FieldFacts(objects, i, k);
    PatchInside(base, image, slots, objects, a, i, objects[i].relocations[k]);
    PatchParts(base, slots, a, i, objects[i].relocations[k]);
    PatchesAllApart(base, image, slots, objects, a, |objects|);
    var ps := AllPatches(base, objects, slots, a, |objects|);
    var x := PatchListed(base, objects, slots, a, |objects|, i, k);
    ApplyAllIs(image, ps);
    LinkedIs(base, image, objects, slots, a);
  }

  lemma FieldFacts(objects: seq<Object>, i: int, k: int)
    requires WellPlaced(objects) && 0 <= i < |objects| && 0 <= k < |objects[i].relocations|
    ensures FieldInside(objects, i, objects[i].relocations[k])
  {
    hide FieldInside, FieldsApart;
  }

  lemma PatchParts(base: int, slots: map<Slot, int>, a: Addresses, i: int, rel: Relocation)
    ensures PatchOf(base, slots, a, i, rel) == Patch(PatchAddress(slots, i, rel) - base, FieldOf(slots, a, i, rel))
  {
  }

  lemma LinkedIs(base: int, image: seq<int>, objects: seq<Object>, slots: map<Slot, int>, a: Addresses)
    ensures Linked(base, image, objects, slots, a) == ApplyAll(image, AllPatches(base, objects, slots, a, |objects|))
  {
  }

  /** A relative field, added to the address behind it, gives the symbol plus the
      addend. */
  lemma RelativeFieldReaches(base: int, image: seq<int>, slots: map<Slot, int>, objects: seq<Object>, a: Addresses, i: int, k: int)
    requires Laid(base, image, slots, objects) && WellPlaced(objects) && 0 <= i < |objects| && 0 <= k < |objects[i].relocations|
    requires var rel := objects[i].relocations[k]; rel.relative && CanApply(slots, a, i, rel) && Packs(slots, a, i, rel)
    ensures var rel := objects[i].relocations[k]; var at := PatchAddress(slots, i, rel); var out := Linked(base, image, objects, slots, a);
      && 0 <= at - base && at - base + 4 <= |out|
      && Resolve(a, i, rel.symbol).Some?
      && Resolve(a, i, rel.symbol).value + rel.addend == at + 4 + Signed(FromLittle(out[at - base..at - base + 4]))
  {
    var rel := objects[i].relocations[k];
    FieldIs(base, image, slots, objects, a, i, k);
    var v := Resolve(a, i, rel.symbol).value + rel.addend - (PatchAddress(slots, i, rel) + 4);
    SignedRoundTrip(v);
    LittleRoundTrip(v % WORD);
    assert FieldOf(slots, a, i, rel) == v % WORD;
    hide Laid, WellPlaced, Resolve, Little, FromLittle, Signed, Linked, PatchAddress, FieldOf;
  }

  /** An absolute field holds the symbol's address plus the addend, as a word. */
  lemma AbsoluteFieldHolds(base: int, image: seq<int>, slots: map<Slot, int>, objects: seq<Object>, a: Addresses, i: int, k: int)
    requires Laid(base, image, slots, objects) && WellPlaced(objects) && 0 <= i < |objects| && 0 <= k < |objects[i].relocations|
    requires var rel := objects[i].relocations[k]; !rel.relative && CanApply(slots, a, i, rel)
    ensures var rel := objects[i].relocations[k]; var at := PatchAddress(slots, i, rel); var out := Linked(base, image, objects, slots, a);
      && 0 <= at - base && at - base + 4 <= |out| && Resolve(a, i, rel.symbol).Some?
      && FromLittle(out[at - base..at - base + 4]) == (Resolve(a, i, rel.symbol).value + rel.addend) % WORD
  {
    var rel := objects[i].relocations[k];
    FieldIs(base, image, slots, objects, a, i, k);
    LittleRoundTrip((Resolve(a, i, rel.symbol).value + rel.addend) % WORD);
    assert FieldOf(slots, a, i, rel) == (Resolve(a, i, rel.symbol).value + rel.addend) % WORD;
    hide Laid, WellPlaced, Resolve, Little, FromLittle, Linked, PatchAddress, FieldOf;
  }

  lemma OwnSlot(objects: seq<Object>, slots: map<Slot, int>, i: int, name: string)
    requires SymbolsPlaced(objects, slots) && 0 <= i < |objects| && name in objects[i].symbols
    ensures var target := Slot(i, objects[i].symbols[name].section);
      target in slots && AddressOf(objects, slots, i, name) == slots[target] + objects[i].symbols[name].offset
  {
  }

  /** The packer recovers the addend from the assembler's placeholder, so the field
      ends up as the placeholder moved by the target's slot. */
  lemma PlaceholderMoves(base: int, image: seq<int>, slots: map<Slot, int>, objects: seq<Object>, a: Addresses, i: int, k: int, placeholder: int)
    requires Laid(base, image, slots, objects) && WellPlaced(objects) && SymbolsAre(objects, slots, |objects|, a) && SymbolsPlaced(objects, slots)
    requires 0 <= i < |objects| && 0 <= k < |objects[i].relocations|
    requires var rel := objects[i].relocations[k]; !rel.relative && rel.symbol in objects[i].symbols && rel.addend == placeholder - objects[i].symbols[rel.symbol].offset
    ensures var rel := objects[i].relocations[k]; var at := PatchAddress(slots, i, rel) - base; var out := Linked(base, image, objects, slots, a);
      var target := Slot(i, objects[i].symbols[rel.symbol].section);
      && 0 <= at && at + 4 <= |out| && target in slots
      && FromLittle(out[at..at + 4]) == (placeholder + slots[target]) % WORD
  {
    hide *;
    var rel := objects[i].relocations[k];
    OwnSlot(objects, slots, i, rel.symbol);
    ResolvesOwn(objects, slots, a, i, rel.symbol);
    CanApplyIs(slots, a, i, rel);
    AbsoluteFieldHolds(base, image, slots, objects, a, i, k);
  }

  /** A byte is in a patched field. */
  ghost predicate Patched(base: int, objects: seq<Object>, slots: map<Slot, int>, x: int) {
    exists i, k :: 0 <= i < |objects| && 0 <= k < |objects[i].relocations| && InField(base, slots, i, objects[i].relocations[k], x)
  }

  predicate InField(base: int, slots: map<Slot, int>, i: int, rel: Relocation, x: int) {
    PatchAddress(slots, i, rel) - base <= x < PatchAddress(slots, i, rel) - base + 4
  }

  lemma SiteIsPatched(base: int, objects: seq<Object>, slots: map<Slot, int>, a: Addresses, x: int)
    ensures InSite(AllPatches(base, objects, slots, a, |objects|), x) ==> Patched(base, objects, slots, x)
  {
    hide AllPatches, PatchOf, PatchAddress;
    var ps := AllPatches(base, objects, slots, a, |objects|);
    if InSite(ps, x) {
      var j :| 0 <= j < |ps| && ps[j].at <= x < ps[j].at + 4;
      var i, k := PatchOrigin(base, objects, slots, a, |objects|, j);
      PatchParts(base, slots, a, i, objects[i].relocations[k]);
      assert InField(base, slots, i, objects[i].relocations[k], x);
    }
  }

  lemma ByteInPlace(base: int, image: seq<int>, slots: map<Slot, int>, objects: seq<Object>, s: Slot, x: int)
    requires Laid(base, image, slots, objects) && Rank(s.section) < 3 && s in slots && 0 <= x < |BytesOf(objects, s)|
    ensures 0 <= slots[s] - base + x < |image| && image[slots[s] - base + x] == BytesOf(objects, s)[x]
  {
    assert InPlace(base, image, slots, objects, s);
    hide Laid, HasChunk, BytesOf, Rank;
    var at := slots[s] - base;
    assert image[at..at + |BytesOf(objects, s)|][x] == image[at + x];
  }

  /** Outside the fields, every section's bytes are the input's. */
  lemma OtherBytesKept(base: int, image: seq<int>, slots: map<Slot, int>, objects: seq<Object>, a: Addresses, s: Slot, x: int)
    requires Laid(base, image, slots, objects) && WellPlaced(objects) && HasChunk(objects, s) && Rank(s.section) < 3
    requires 0 <= x < |BytesOf(objects, s)| && s in slots && !Patched(base, objects, slots, slots[s] - base + x)
    ensures var at := slots[s] - base + x; var out := Linked(base, image, objects, slots, a);
      0 <= at < |out| && out[at] == BytesOf(objects, s)[x]
  {
    hide *;
    var at := slots[s] - base + x;
    ByteInPlace(base, image, slots, objects, s, x);
    var ps := AllPatches(base, objects, slots, a, |objects|);
    PatchesAllApart(base, image, slots, objects, a, |objects|);
    ApplyAllIs(image, ps);
    LinkedIs(base, image, objects, slots, a);
    SiteIsPatched(base, objects, slots, a, at);
  }

  // ----- Linking -----

  lemma LaidWithBss(base: int, image: seq<int>, slots0: map<Slot, int>, slots: map<Slot, int>, objects: seq<Object>)
    requires LaidOut(base, image, slots0, objects) && SlotsUpTo(slots0, objects, 3, 0)
    requires forall s: Slot :: s.section != "bss" ==> (s in slots <==> s in slots0) && (s in slots0 ==> slots[s] == slots0[s])
    ensures Laid(base, image, slots, objects)
  {
    hide HasChunk, BytesOf;
    assert Rank("bss") == 3;
    forall s | s in slots && Rank(s.section) < 3 ensures InPlace(base, image, slots, objects, s) { assert InPlace(base, image, slots0, objects, s); }
    forall s: Slot, t: Slot | Rank(s.section) < 3 && Rank(t.section) < 3 ensures InOrder(slots, objects, s, t) { assert InOrder(slots0, objects, s, t); }
  }

  /** A link that succeeds: the image, and the addresses behind it. */
  datatype Link = Link(image: seq<int>, bssSize: int, slots: map<Slot, int>, addresses: Addresses)

  /** Every section an object has gets a slot, and nothing else does. */
  ghost predicate SlotsAre(objects: seq<Object>, slots: map<Slot, int>) {
    forall s: Slot :: s in slots <==> HasSection(objects, s)
  }

  predicate HasSection(objects: seq<Object>, s: Slot) {
    if s.section == "bss" then 0 <= s.owner < |objects| && objects[s.owner].bss.Some? else HasChunk(objects, s) && Rank(s.section) < 3
  }

  /** Uninitialised data lies behind the image and its trailer, object by object. */
  ghost predicate BssPlaced(base: int, length: int, objects: seq<Object>, slots: map<Slot, int>) {
    forall i :: 0 <= i < |objects| && objects[i].bss.Some? ==>
      Slot(i, "bss") in slots && slots[Slot(i, "bss")] == base + length + TRAILER + BssSize(objects[..i])
  }

  ghost predicate AllAligned(base: int, slots: map<Slot, int>, objects: seq<Object>) {
    forall section :: section in SECTIONS ==> SectionAligned(base, slots, objects, section)
  }

  lemma StillAligned(base: int, slots0: map<Slot, int>, slots: map<Slot, int>, objects: seq<Object>, section: string)
    requires SectionAligned(base, slots0, objects, section) && section != "bss"
    requires forall s: Slot :: s.section != "bss" ==> (s in slots <==> s in slots0) && (s in slots0 ==> slots[s] == slots0[s])
    ensures SectionAligned(base, slots, objects, section)
  {
  }

  lemma AllStillAligned(base: int, slots0: map<Slot, int>, slots: map<Slot, int>, objects: seq<Object>)
    requires forall section :: section in SECTIONS ==> SectionAligned(base, slots0, objects, section)
    requires forall s: Slot :: s.section != "bss" ==> (s in slots <==> s in slots0) && (s in slots0 ==> slots[s] == slots0[s])
    ensures AllAligned(base, slots, objects)
  {
    hide SectionAligned;
    forall section | section in SECTIONS ensures SectionAligned(base, slots, objects, section) { StillAligned(base, slots0, slots, objects, section); }
  }

  lemma SlotsAreFrom(objects: seq<Object>, slots0: map<Slot, int>, slots: map<Slot, int>)
    requires SlotsUpTo(slots0, objects, 3, 0)
    requires forall s: Slot :: s.section != "bss" ==> (s in slots <==> s in slots0) && (s in slots0 ==> slots[s] == slots0[s])
    requires forall i :: Slot(i, "bss") in slots <==> 0 <= i < |objects| && objects[i].bss.Some?
    ensures SlotsAre(objects, slots)
  {
    hide HasChunk, Rank;
    forall s: Slot ensures s in slots <==> HasSection(objects, s) {
      if s.section == "bss" { assert s == Slot(s.owner, "bss"); }
    }
  }

  lemma {:induction false} BssGrows(objects: seq<Object>, i: int, j: int)
    requires 0 <= i < j <= |objects| && objects[i].bss.Some? && forall k :: 0 <= k < |objects| && objects[k].bss.Some? ==> objects[k].bss.value >= 0
    ensures BssSize(objects[..i]) >= 0 && BssSize(objects[..i]) + objects[i].bss.value <= BssSize(objects[..j])
    decreases j
  {
    hide BssSize;
    BssMore(objects, i);
    BssNotNegative(objects, i);
    if j > i + 1 {
      BssGrows(objects, i, j - 1);
      BssMore(objects, j - 1);
    }
  }

  lemma {:induction false} BssNotNegative(objects: seq<Object>, i: int)
    requires 0 <= i <= |objects| && forall k :: 0 <= k < |objects| && objects[k].bss.Some? ==> objects[k].bss.value >= 0
    ensures BssSize(objects[..i]) >= 0
    decreases i
  {
    if i > 0 {
      BssNotNegative(objects, i - 1);
      BssMore(objects, i - 1);
    }
  }

  /** Uninitialised sections overlap neither the image nor each other. */
  lemma BssApart(base: int, objects: seq<Object>, raw: seq<int>, r: Link, i: int, j: int)
    requires Correct(base, objects, raw, r) && 0 <= i < j < |objects| && objects[i].bss.Some? && objects[j].bss.Some?
    requires forall k :: 0 <= k < |objects| && objects[k].bss.Some? ==> objects[k].bss.value >= 0
    ensures Slot(i, "bss") in r.slots && Slot(j, "bss") in r.slots
    ensures base + |raw| <= r.slots[Slot(i, "bss")] && r.slots[Slot(i, "bss")] + objects[i].bss.value <= r.slots[Slot(j, "bss")]
    ensures r.slots[Slot(j, "bss")] + objects[j].bss.value <= base + |raw| + TRAILER + r.bssSize
  {
    BssGrows(objects, i, j);
    BssGrows(objects, j, |objects|);
    assert objects[..|objects|] == objects;
    hide Laid, SymbolsAre, SlotsAre, AllAligned, CanApply, Linked, BssSize;
  }

  /** A symbol in a section that its object has stands in a slot. */
  lemma SymbolsArePlaced(base: int, objects: seq<Object>, raw: seq<int>, r: Link)
    requires Correct(base, objects, raw, r)
    requires forall i, name :: 0 <= i < |objects| && name in objects[i].symbols ==> HasSection(objects, Slot(i, objects[i].symbols[name].section))
    ensures SymbolsPlaced(objects, r.slots)
  {
    hide Laid, SymbolsAre, AllAligned, CanApply, Linked, BssSize, BssPlaced, HasSection;
  }

  ghost predicate Correct(base: int, objects: seq<Object>, raw: seq<int>, r: Link) {
    && Laid(base, raw, r.slots, objects) && SymbolsAre(objects, r.slots, |objects|, r.addresses)
    && SlotsAre(objects, r.slots) && AllAligned(base, r.slots, objects) && BssPlaced(base, |raw|, objects, r.slots)
    && PackedImage(base, r.slots, objects, |raw|) && ZeroElsewhere(base, raw, r.slots, objects) && AllPack(objects, r.slots, r.addresses)
    && r.bssSize == BssSize(objects) && r.image == Linked(base, raw, objects, r.slots, r.addresses)
    && forall i, k :: 0 <= i < |objects| && 0 <= k < |objects[i].relocations| ==> CanApply(r.slots, r.addresses, i, objects[i].relocations[k])
  }

  /** Bytes that no slot covers are padding, and zero. */
  ghost predicate ZeroElsewhere(base: int, image: seq<int>, slots: map<Slot, int>, objects: seq<Object>) {
    forall k :: 0 <= k < |image| ==> image[k] == 0 || exists s :: InSlot(base, slots, objects, s, k)
  }

  ghost predicate InSlot(base: int, slots: map<Slot, int>, objects: seq<Object>, s: Slot, k: int) {
    s in slots && s.section != "bss" && slots[s] - base <= k < slots[s] - base + |BytesOf(objects, s)|
  }

  lemma ZerosStay(base: int, image: seq<int>, slots0: map<Slot, int>, slots: map<Slot, int>, objects: seq<Object>)
    requires LaidOut(base, image, slots0, objects) && SlotsUpTo(slots0, objects, 3, 0)
    requires forall s: Slot :: s.section != "bss" && s in slots0 ==> s in slots && slots[s] == slots0[s]
    ensures ZeroElsewhere(base, image, slots, objects)
  {
    assert Rank("bss") == 3;
    hide BytesOf, InPlace, InOrder, HasChunk;
    forall k | 0 <= k < |image| ensures image[k] == 0 || exists s :: InSlot(base, slots, objects, s, k) {
      if image[k] != 0 {
        var s :| s in slots0 && slots0[s] - base <= k < slots0[s] - base + |BytesOf(objects, s)|;
        assert InSlot(base, slots, objects, s, k);
      }
    }
  }

  /** A relative relocation whose addend validation does not look at: the field would have
      to hold 2^31. */
  lemma AddendUnchecked(base: int) returns (objects: seq<Object>, slots: map<Slot, int>, a: Addresses)
    ensures SlotsAre(objects, slots) && SymbolsAre(objects, slots, |objects|, a) && WellPlaced(objects)
    ensures AllApply(objects, slots, a) && !AllPack(objects, slots, a)
  {
    var rel := Relocation("text", 0, "f", true, HALF);
    objects := [Object(map["text" := Chunk(16, [0, 0, 0, 0])], None, map["f" := Symbol("text", 4, true)], [rel])];
    slots := map[Slot(0, "text") := base];
    a := Addresses(map["f" := base + 4], [map[]]);
    assert Exports(objects, 0, "f") && AddressOf(objects, slots, 0, "f") == base + 4;
    assert LocalsOf(objects, slots, 0) == map[];
    assert Resolve(a, 0, "f") == Some(base + 4) && PatchAddress(slots, 0, rel) == base;
    assert !Packs(slots, a, 0, objects[0].relocations[0]);
  }

  /** Every relocation can be applied with this layout. */
  ghost predicate AllApply(objects: seq<Object>, slots: map<Slot, int>, a: Addresses) {
    forall i, k :: 0 <= i < |objects| && 0 <= k < |objects[i].relocations| ==> CanApply(slots, a, i, objects[i].relocations[k])
  }

  lemma ProblemKinds(objects: seq<Object>, slots: map<Slot, int>, a: Addresses, f: Failure)
    requires FirstProblem(objects, slots, a, f)
    ensures f.UnknownSymbol? || f.TooFar?
    ensures !AllApply(objects, slots, a)
  {
    var i, k :| ProblemAt(objects, slots, a, i, k, f) && AppliesBefore(objects, slots, a, i, k);
    CanApplyIs(slots, a, i, objects[i].relocations[k]);
    hide CanApply, Resolve, PatchAddress;
  }

  lemma UnpackedKind(objects: seq<Object>, slots: map<Slot, int>, a: Addresses, f: Failure)
    requires FirstUnpacked(objects, slots, a, f)
    ensures f.DoesNotPack?
  {
    hide Packs;
  }

  /** Lays out, addresses and patches the objects.  `slots` is the layout even where the
      link fails, and `a` the addresses unless a name is defined twice. */
  method LinkObjects(base: int, objects: seq<Object>) returns (r: Outcome<Link>, ghost raw: seq<int>, ghost slots: map<Slot, int>, ghost a: Addresses)
    ensures Laid(base, raw, slots, objects) && SlotsAre(objects, slots) && AllAligned(base, slots, objects) && BssPlaced(base, |raw|, objects, slots)
    ensures PackedImage(base, slots, objects, |raw|) && ZeroElsewhere(base, raw, slots, objects)
    ensures (forall name :: !DefinedTwice(objects, name)) ==> SymbolsAre(objects, slots, |objects|, a)
    ensures r.Done? <==> (forall name :: !DefinedTwice(objects, name)) && AllApply(objects, slots, a) && AllPack(objects, slots, a)
    ensures r.Done? ==> Correct(base, objects, raw, r.value) && r.value.slots == slots && r.value.addresses == a
    ensures r.Failed? && r.reason.DuplicateSymbol? ==> DefinedTwice(objects, r.reason.name) && FirstClash(objects, r.reason.name)
    ensures r.Failed? && (r.reason.UnknownSymbol? || r.reason.TooFar?) ==> FirstProblem(objects, slots, a, r.reason)
    ensures r.Failed? && r.reason.DoesNotPack? ==> AllApply(objects, slots, a) && FirstUnpacked(objects, slots, a, r.reason)
  {
    hide Packs, AllPack, FirstClash, FirstProblem, FirstUnpacked, PackedImage, ZeroElsewhere, LaidOut, SlotsUpTo, Laid, SymbolsAre, AllPatches, ApplyAll, CanApply, DefinedTwice, BssSize, SectionAligned, AllAligned, SlotsAre;
    var image, slots0 := LayOutSections(base, objects);
    raw := image;
    var placed, size := LayOutBss(base, image, objects, slots0);
    slots, a := placed, Addresses(map[], []);
    LaidWithBss(base, image, slots0, slots, objects);
    SlotsAreFrom(objects, slots0, slots);
    AllStillAligned(base, slots0, slots, objects);
    PackedImageStill(base, slots0, slots, objects, |image|);
    ZerosStay(base, image, slots0, slots, objects);
    var symbols := AssignSymbols(objects, placed);
    if symbols.Failed? { r := Failed(symbols.reason); return; }
    a := symbols.value;
    var problem := ValidateRelocations(objects, placed, symbols.value);
    if problem.Some? {
      ProblemKinds(objects, slots, a, problem.value);
      r := Failed(problem.value);
      return;
    }
    var patched := ApplyRelocations(base, image, objects, placed, symbols.value);
    if patched.Failed? {
      UnpackedKind(objects, slots, a, patched.reason);
      r := Failed(patched.reason);
      return;
    }
    r := Done(Link(patched.value, size, placed, symbols.value));
  }
}
