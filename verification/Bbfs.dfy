/** The bbfs image (add_file.py:188-220, 249-276, 300-315, 446-560, 600-660,
    695-740): directory tables of 32-byte entries, and files in whole sectors.  An
    image is a sequence of bytes. */
module Bbfs {
  import opened Common

  const SECTOR := 512
  const ENTRY := 32
  const NAME := 25
  const NAME_MAX := 24
  const DIRECTORY := 2

  // ----- Entries -----

  datatype Entry = Entry(name: seq<int>, flags: int, start: int, size: int)

  predicate IsByte(b: int) { 0 <= b < 256 }

  predicate IsDirectory(e: Entry) { e.flags / DIRECTORY % 2 == 1 }

  /** Names are up to 24 bytes without a zero byte; start and size fit their fields. */
  predicate ValidName(name: seq<int>) {
    1 <= |name| <= NAME_MAX && forall k :: 0 <= k < |name| ==> 0 < name[k] < 256
  }

  predicate ValidEntry(e: Entry) {
    ValidName(e.name) && IsByte(e.flags) && 0 <= e.start < 0x1_0000 && 0 <= e.size < 0x1_0000_0000
  }

  /** A name without the zero bytes behind it. */
  function Strip(field: seq<int>): seq<int> {
    if field == [] then [] else if field[|field| - 1] == 0 then Strip(field[..|field| - 1]) else field
  }

  function EntryBytes(e: Entry): (r: seq<int>)
    requires |e.name| <= NAME
    ensures |r| == ENTRY
  {
    e.name + Zeros(NAME - |e.name|)
    + [e.flags, e.start % 256, e.start / 256 % 256, e.size % 256, e.size / 256 % 256, e.size / 65536 % 256, e.size / 16777216 % 256]
  }

  function Decode(b: seq<int>): Entry
    requires |b| == ENTRY
  {
    Entry(Strip(b[..NAME]), b[25], b[26] + 256 * b[27], b[28] + 256 * b[29] + 65536 * b[30] + 16777216 * b[31])
  }

  lemma {:induction false} StripPadded(name: seq<int>, n: int)
    requires n >= 0 && (name == [] || name[|name| - 1] != 0)
    ensures Strip(name + Zeros(n)) == name
    decreases n
  {
    var field := name + Zeros(n);
    if n == 0 {
      assert field == name;
    } else {
      assert field[..|field| - 1] == name + Zeros(n - 1);
      StripPadded(name, n - 1);
    }
  }

  lemma Bytes16(v: int)
    requires 0 <= v < 0x1_0000
    ensures v % 256 + 256 * (v / 256 % 256) == v
  {
  }

  lemma Bytes32(v: int)
    requires 0 <= v < 0x1_0000_0000
    ensures v % 256 + 256 * (v / 256 % 256) + 65536 * (v / 65536 % 256) + 16777216 * (v / 16777216 % 256) == v
  {
    var a, b := v / 256, v / 65536;
    assert v == 256 * a + v % 256;
    assert a == 256 * (a / 256) + a % 256 && a / 256 == b;
    assert b == 256 * (b / 256) + b % 256 && b / 256 == v / 16777216;
    assert 0 <= v / 16777216 < 256;
  }

  /** An entry reads back as it was written, and is not free. */
  lemma EntryRoundTrip(e: Entry)
    requires ValidEntry(e)
    ensures Decode(EntryBytes(e)) == e && EntryBytes(e)[0] != 0
  {
    var b := EntryBytes(e);
    assert b[..NAME] == e.name + Zeros(NAME - |e.name|);
    StripPadded(e.name, NAME - |e.name|);
    Bytes16(e.start);
    Bytes32(e.size);
    hide Strip, Zeros;
  }

  // ----- Writing into the image -----

  function Splice(img: seq<int>, at: int, data: seq<int>): (r: seq<int>)
    requires 0 <= at && at + |data| <= |img|
    ensures |r| == |img|
  {
    img[..at] + data + img[at + |data|..]
  }

  /** The images agree on the bytes from `lo` and below `hi`. */
  ghost predicate SameOn(img: seq<int>, img': seq<int>, lo: int, hi: int) {
    |img'| == |img| && 0 <= lo && hi <= |img| && forall k :: lo <= k < hi ==> img'[k] == img[k]
  }

  lemma SpliceOutside(img: seq<int>, at: int, data: seq<int>, lo: int, hi: int)
    requires 0 <= at && at + |data| <= |img| && 0 <= lo && hi <= |img| && (hi <= at || at + |data| <= lo)
    ensures SameOn(img, Splice(img, at, data), lo, hi)
  {
  }

  lemma SameSlice(img: seq<int>, img': seq<int>, lo: int, hi: int, a: int, b: int)
    requires SameOn(img, img', lo, hi) && lo <= a <= b <= hi
    ensures img'[a..b] == img[a..b]
  {
  }

  lemma SameThen(img: seq<int>, mid: seq<int>, last: seq<int>, lo: int, hi: int)
    requires SameOn(img, mid, lo, hi) && SameOn(mid, last, lo, hi)
    ensures SameOn(img, last, lo, hi)
  {
  }

  lemma SpliceInside(img: seq<int>, at: int, data: seq<int>)
    requires 0 <= at && at + |data| <= |img|
    ensures Splice(img, at, data)[at..at + |data|] == data
  {
  }

  // ----- Directory tables -----

  function Off(base: int, k: int): int { base + ENTRY * k }

  predicate SlotIs(img: seq<int>, base: int, k: int, e: Entry) {
    0 <= Off(base, k) && Off(base, k) + ENTRY <= |img| && img[Off(base, k)] != 0 && Decode(img[Off(base, k)..Off(base, k) + ENTRY]) == e
  }

  predicate SlotFree(img: seq<int>, base: int, k: int) {
    0 <= Off(base, k) && Off(base, k) + ENTRY <= |img| && img[Off(base, k)] == 0
  }

  /** The table at `base` with room for `n` entries holds `es`, and then free slots. */
  ghost predicate Table(img: seq<int>, base: int, n: int, es: seq<Entry>) {
    && 0 <= base && 0 <= n && base + ENTRY * n <= |img| && |es| <= n
    && (forall k :: 0 <= k < |es| ==> SlotIs(img, base, k, es[k]))
    && (forall k :: |es| <= k < n ==> SlotFree(img, base, k))
  }

  lemma SlotSame(img: seq<int>, img': seq<int>, base: int, k: int, e: Entry)
    requires 0 <= Off(base, k) && SameOn(img, img', Off(base, k), Off(base, k) + ENTRY)
    ensures SlotIs(img, base, k, e) ==> SlotIs(img', base, k, e)
    ensures SlotFree(img, base, k) ==> SlotFree(img', base, k)
  {
    var a, b := Off(base, k), Off(base, k) + ENTRY;
    SameSlice(img, img', a, b, a, b);
    assert img'[a] == img[a];
    hide Decode, Off;
  }

  lemma SamePart(img: seq<int>, img': seq<int>, base: int, n: int, k: int)
    requires SameOn(img, img', base, base + ENTRY * n) && 0 <= k < n
    ensures SameOn(img, img', Off(base, k), Off(base, k) + ENTRY)
  {
  }

  /** A table depends on nothing but its own bytes. */
  lemma TableSame(img: seq<int>, img': seq<int>, base: int, n: int, es: seq<Entry>)
    requires Table(img, base, n, es) && SameOn(img, img', base, base + ENTRY * n)
    ensures Table(img', base, n, es)
  {
    hide SlotIs, SlotFree, SameOn;
    SameLength(img, img', base, base + ENTRY * n);
    forall k | 0 <= k < |es| ensures SlotIs(img', base, k, es[k]) {
      SamePart(img, img', base, n, k);
      SlotSame(img, img', base, k, es[k]);
    }
    forall k | |es| <= k < n ensures SlotFree(img', base, k) {
      SamePart(img, img', base, n, k);
      SlotSame(img, img', base, k, Entry([], 0, 0, 0));
    }
  }

  lemma SameLength(img: seq<int>, img': seq<int>, lo: int, hi: int)
    requires SameOn(img, img', lo, hi)
    ensures |img'| == |img|
  {
  }

  /** Writing the first free slot appends an entry. */
  lemma TableAppend(img: seq<int>, base: int, n: int, es: seq<Entry>, e: Entry)
    requires Table(img, base, n, es) && |es| < n && ValidEntry(e)
    ensures Off(base, |es|) + ENTRY <= |img| && 0 <= Off(base, |es|)
    ensures Table(Splice(img, Off(base, |es|), EntryBytes(e)), base, n, es + [e])
  {
    var at, all := Off(base, |es|), es + [e];
    var img' := Splice(img, at, EntryBytes(e));
    SlotWritten(img, base, |es|, e);
    hide SlotIs, SlotFree, EntryBytes, Splice;
    forall k | 0 <= k < |all| ensures SlotIs(img', base, k, all[k]) {
      if k < |es| {
        SpliceOutside(img, at, EntryBytes(e), Off(base, k), Off(base, k) + ENTRY);
        SlotSame(img, img', base, k, es[k]);
      }
    }
    forall k | |all| <= k < n ensures SlotFree(img', base, k) {
      SpliceOutside(img, at, EntryBytes(e), Off(base, k), Off(base, k) + ENTRY);
      SlotSame(img, img', base, k, e);
    }
  }

  lemma SlotWritten(img: seq<int>, base: int, k: int, e: Entry)
    requires 0 <= Off(base, k) && Off(base, k) + ENTRY <= |img| && ValidEntry(e)
    ensures SlotIs(Splice(img, Off(base, k), EntryBytes(e)), base, k, e)
  {
    var at, b := Off(base, k), EntryBytes(e);
    EntryRoundTrip(e);
    SpliceInside(img, at, b);
    var img' := Splice(img, at, b);
    assert img'[at..at + ENTRY][0] == img'[at];
    hide Decode, EntryBytes, Splice;
  }

  lemma ZeroTable(img: seq<int>, base: int, n: int)
    requires 0 <= base && 0 <= n && base + ENTRY * n <= |img| && forall k :: base <= k < base + ENTRY * n ==> img[k] == 0
    ensures Table(img, base, n, [])
  {
  }

  // ----- The file system on the image -----

  /** The root entries, and for each one that is a directory its own entries. */
  datatype Fs = Fs(root: seq<Entry>, subs: seq<seq<Entry>>)

  /** Where the tables lie: the sector of the root, and the sectors of a table. */
  datatype Geometry = Geometry(root: int, sectors: int)

  function Slots(geo: Geometry): int { 16 * geo.sectors }

  ghost predicate SubIs(img: seq<int>, geo: Geometry, fs: Fs, j: int)
    requires 0 <= j < |fs.root| && |fs.subs| == |fs.root|
  {
    if IsDirectory(fs.root[j]) then Table(img, SECTOR * fs.root[j].start, Slots(geo), fs.subs[j]) else fs.subs[j] == []
  }

  ghost predicate Holds(img: seq<int>, geo: Geometry, fs: Fs) {
    && Table(img, SECTOR * geo.root, Slots(geo), fs.root) && |fs.subs| == |fs.root|
    && forall j :: 0 <= j < |fs.root| ==> SubIs(img, geo, fs, j)
  }

  // ----- Areas -----

  /** Everything that takes up sectors: the root table, and each entry's extent. */
  datatype Place = RootTable | InRoot(k: int) | InSub(j: int, k: int)

  predicate Exists(fs: Fs, p: Place) {
    match p
    case RootTable => true
    case InRoot(k) => 0 <= k < |fs.root|
    case InSub(j, k) => 0 <= j < |fs.root| && j < |fs.subs| && 0 <= k < |fs.subs[j]|
  }

  function EntryOf(fs: Fs, p: Place): Entry
    requires Exists(fs, p) && !p.RootTable?
  {
    if p.InRoot? then fs.root[p.k] else fs.subs[p.j][p.k]
  }

  function SectorsOf(size: int): int { (size + SECTOR - 1) / SECTOR }

  datatype Area = Area(start: int, end: int)

  function AreaOf(geo: Geometry, fs: Fs, p: Place): Area
    requires Exists(fs, p)
  {
    if p.RootTable? then Area(geo.root, geo.root + geo.sectors)
    else Area(EntryOf(fs, p).start, EntryOf(fs, p).start + SectorsOf(EntryOf(fs, p).size))
  }

  predicate Apart(a: Area, b: Area) { a.end <= b.start || b.end <= a.start }

  /** No two areas overlap. */
  ghost predicate Disjoint(geo: Geometry, fs: Fs) {
    forall p, q :: Exists(fs, p) && Exists(fs, q) && p != q ==> Apart(AreaOf(geo, fs, p), AreaOf(geo, fs, q))
  }

  ghost predicate UniqueNames(es: seq<Entry>) {
    forall i, k :: 0 <= i < k < |es| ==> es[i].name != es[k].name
  }

  ghost predicate EntryFits(geo: Geometry, e: Entry, length: int) {
    && ValidEntry(e) && SECTOR * e.start + e.size <= length
    && (IsDirectory(e) ==> e.size == SECTOR * geo.sectors)
  }

  ghost predicate EntriesFit(geo: Geometry, fs: Fs, length: int) {
    && (forall k :: 0 <= k < |fs.root| ==> EntryFits(geo, fs.root[k], length))
    && (forall j, k :: 0 <= j < |fs.subs| && 0 <= k < |fs.subs[j]| ==> EntryFits(geo, fs.subs[j][k], length) && !IsDirectory(fs.subs[j][k]))
  }

  ghost predicate NamesUnique(fs: Fs) {
    UniqueNames(fs.root) && forall j :: 0 <= j < |fs.subs| ==> UniqueNames(fs.subs[j])
  }

  /** A sound image: it holds `fs`, nothing overlaps, and names are unique within
      each directory. */
  ghost predicate Sound(img: seq<int>, geo: Geometry, fs: Fs) {
    && geo.root >= 0 && geo.sectors >= 1 && Holds(img, geo, fs) && Disjoint(geo, fs)
    && EntriesFit(geo, fs, |img|) && NamesUnique(fs)
  }

  /** The contents of a file. */
  function DataOf(img: seq<int>, e: Entry): seq<int> {
    if 0 <= SECTOR * e.start && 0 <= e.size && SECTOR * e.start + e.size <= |img| then img[SECTOR * e.start..SECTOR * e.start + e.size] else []
  }

  // ----- Adding one entry -----

  /** The directory that receives an entry: the root, or the root's `j`-th entry. */
  ghost predicate IsParent(fs: Fs, parent: Option<int>) {
    parent.Some? ==> 0 <= parent.value < |fs.root| && |fs.subs| == |fs.root| && IsDirectory(fs.root[parent.value])
  }

  function EntriesOf(fs: Fs, parent: Option<int>): seq<Entry> {
    if parent.None? then fs.root else if 0 <= parent.value < |fs.subs| then fs.subs[parent.value] else []
  }

  function BaseOf(geo: Geometry, fs: Fs, parent: Option<int>): int {
    if parent.None? then SECTOR * geo.root else if 0 <= parent.value < |fs.root| then SECTOR * fs.root[parent.value].start else 0
  }

  function ParentPlace(parent: Option<int>): Place { if parent.None? then RootTable else InRoot(parent.value) }

  function NewPlace(fs: Fs, parent: Option<int>): Place {
    if parent.None? then InRoot(|fs.root|) else InSub(parent.value, |EntriesOf(fs, parent)|)
  }

  function AddTo(fs: Fs, parent: Option<int>, e: Entry): Fs {
    if parent.None? then Fs(fs.root + [e], fs.subs + [[]])
    else if 0 <= parent.value < |fs.subs| then Fs(fs.root, fs.subs[parent.value := fs.subs[parent.value] + [e]])
    else fs
  }

  /** Nothing lies at or behind sector `next`. */
  ghost predicate EndsBy(geo: Geometry, fs: Fs, next: int) {
    forall p :: Exists(fs, p) ==> AreaOf(geo, fs, p).end <= next
  }

  /** What must hold for the entry `e` with contents `data` to be added. */
  ghost predicate CanAdd(img: seq<int>, geo: Geometry, fs: Fs, parent: Option<int>, e: Entry, data: seq<int>) {
    && Sound(img, geo, fs) && IsParent(fs, parent) && EndsBy(geo, fs, e.start)
    && EntryFits(geo, e, |img|) && |data| == e.size && (parent.Some? ==> !IsDirectory(e)) && (IsDirectory(e) ==> data == Zeros(e.size))
    && |EntriesOf(fs, parent)| < Slots(geo)
    && forall k :: 0 <= k < |EntriesOf(fs, parent)| ==> EntriesOf(fs, parent)[k].name != e.name
  }

  function SlotOff(geo: Geometry, fs: Fs, parent: Option<int>): int { Off(BaseOf(geo, fs, parent), |EntriesOf(fs, parent)|) }

  lemma ParentTable(img: seq<int>, geo: Geometry, fs: Fs, parent: Option<int>)
    requires Sound(img, geo, fs) && IsParent(fs, parent)
    ensures Table(img, BaseOf(geo, fs, parent), Slots(geo), EntriesOf(fs, parent))
    ensures Exists(fs, ParentPlace(parent))
    ensures var a := AreaOf(geo, fs, ParentPlace(parent)); SECTOR * a.start == BaseOf(geo, fs, parent) && SECTOR * a.end == BaseOf(geo, fs, parent) + ENTRY * Slots(geo)
  {
    hide Table, Disjoint, NamesUnique;
    if parent.Some? {
      assert SubIs(img, geo, fs, parent.value);
      assert EntryFits(geo, fs.root[parent.value], |img|);
    }
    hide ValidEntry;
  }

  /** The image once the entry and then the data have been written. */
  function Added(img: seq<int>, geo: Geometry, fs: Fs, parent: Option<int>, e: Entry, data: seq<int>): (r: seq<int>)
    requires |e.name| <= NAME && 0 <= SlotOff(geo, fs, parent) && SlotOff(geo, fs, parent) + ENTRY <= |img|
    requires 0 <= SECTOR * e.start && SECTOR * e.start + |data| <= |img|
    ensures |r| == |img|
  {
    Splice(Splice(img, SlotOff(geo, fs, parent), EntryBytes(e)), SECTOR * e.start, data)
  }

  lemma CanAddFacts(img: seq<int>, geo: Geometry, fs: Fs, parent: Option<int>, e: Entry, data: seq<int>)
    requires CanAdd(img, geo, fs, parent, e, data)
    ensures |e.name| <= NAME && 0 <= SlotOff(geo, fs, parent) && SlotOff(geo, fs, parent) + ENTRY <= |img|
    ensures 0 <= SECTOR * e.start && SECTOR * e.start + |data| <= |img| && ValidEntry(e) && |data| == e.size
    ensures var a := AreaOf(geo, fs, ParentPlace(parent));
      Exists(fs, ParentPlace(parent)) && SECTOR * a.start <= SlotOff(geo, fs, parent) && SlotOff(geo, fs, parent) + ENTRY <= SECTOR * a.end && a.end <= e.start
  {
    ParentTable(img, geo, fs, parent);
    hide Sound, Disjoint, IsParent, EntryFits, SlotIs, SlotFree, AreaOf;
    assert EntryFits(geo, e, |img|);
    FitsFacts(geo, e, |img|);
  }

  lemma FitsFacts(geo: Geometry, e: Entry, length: int)
    requires EntryFits(geo, e, length)
    ensures ValidEntry(e) && |e.name| <= NAME && 0 <= e.start && 0 <= e.size && SECTOR * e.start + e.size <= length
    ensures IsDirectory(e) ==> e.size == SECTOR * geo.sectors && SectorsOf(e.size) == geo.sectors
  {
  }

  /** Bytes outside the parent's table and in front of the new data are kept. */
  lemma KeptRegion(img: seq<int>, geo: Geometry, fs: Fs, parent: Option<int>, e: Entry, data: seq<int>, lo: int, hi: int)
    requires CanAdd(img, geo, fs, parent, e, data) && 0 <= lo && hi <= |img| && hi <= SECTOR * e.start
    requires Exists(fs, ParentPlace(parent))
    requires var a := AreaOf(geo, fs, ParentPlace(parent)); hi <= SECTOR * a.start || SECTOR * a.end <= lo
    ensures |e.name| <= NAME && 0 <= SlotOff(geo, fs, parent) && SlotOff(geo, fs, parent) + ENTRY <= |img|
    ensures 0 <= SECTOR * e.start && SECTOR * e.start + |data| <= |img|
    ensures SameOn(img, Added(img, geo, fs, parent, e, data), lo, hi)
  {
    CanAddFacts(img, geo, fs, parent, e, data);
    hide CanAdd, SameOn, Splice, EntryBytes, AreaOf, SlotOff;
    var mid := Splice(img, SlotOff(geo, fs, parent), EntryBytes(e));
    SpliceOutside(img, SlotOff(geo, fs, parent), EntryBytes(e), lo, hi);
    SpliceOutside(mid, SECTOR * e.start, data, lo, hi);
    SameThen(img, mid, Added(img, geo, fs, parent, e, data), lo, hi);
  }

  // ----- Areas after adding -----

  lemma ExistsAfter(fs: Fs, parent: Option<int>, e: Entry, p: Place)
    requires IsParent(fs, parent) && |fs.subs| == |fs.root|
    ensures Exists(AddTo(fs, parent, e), p) <==> Exists(fs, p) || p == NewPlace(fs, parent)
    ensures !Exists(fs, NewPlace(fs, parent))
  {
  }

  lemma EntryAfter(fs: Fs, parent: Option<int>, e: Entry, p: Place)
    requires IsParent(fs, parent) && |fs.subs| == |fs.root|
    ensures Exists(fs, p) && !p.RootTable? ==> Exists(AddTo(fs, parent, e), p) && EntryOf(AddTo(fs, parent, e), p) == EntryOf(fs, p)
    ensures var n := NewPlace(fs, parent); !n.RootTable? && Exists(AddTo(fs, parent, e), n) && EntryOf(AddTo(fs, parent, e), n) == e
  {
  }

  lemma AreaAfter(geo: Geometry, fs: Fs, parent: Option<int>, e: Entry, p: Place)
    requires IsParent(fs, parent) && |fs.subs| == |fs.root| && e.size >= 0
    ensures Exists(fs, p) ==> Exists(AddTo(fs, parent, e), p) && AreaOf(geo, AddTo(fs, parent, e), p) == AreaOf(geo, fs, p)
    ensures var n := NewPlace(fs, parent); Exists(AddTo(fs, parent, e), n) && AreaOf(geo, AddTo(fs, parent, e), n) == Area(e.start, e.start + SectorsOf(e.size))
  {
    EntryAfter(fs, parent, e, p);
    ExistsAfter(fs, parent, e, RootTable);
    hide AddTo, EntryOf, NewPlace, IsParent;
  }

  lemma DisjointAfter(geo: Geometry, fs: Fs, parent: Option<int>, e: Entry)
    requires IsParent(fs, parent) && |fs.subs| == |fs.root| && Disjoint(geo, fs) && EndsBy(geo, fs, e.start) && e.size >= 0
    ensures Disjoint(geo, AddTo(fs, parent, e)) && EndsBy(geo, AddTo(fs, parent, e), e.start + SectorsOf(e.size))
  {
    var after := AddTo(fs, parent, e);
    SectorsNotNegative(e.size);
    forall p | Exists(after, p) ensures AreaOf(geo, after, p).end <= e.start + SectorsOf(e.size) {
      ExistsAfter(fs, parent, e, p);
      AreaAfter(geo, fs, parent, e, p);
    }
    hide SectorsOf;
    forall p, q | Exists(after, p) && Exists(after, q) && p != q ensures Apart(AreaOf(geo, after, p), AreaOf(geo, after, q)) {
      ExistsAfter(fs, parent, e, p);
      ExistsAfter(fs, parent, e, q);
      AreaAfter(geo, fs, parent, e, p);
      AreaAfter(geo, fs, parent, e, q);
      hide AddTo, AreaOf, Exists, NewPlace;
    }
  }

  lemma SectorsNotNegative(size: int)
    requires size >= 0
    ensures 0 <= SectorsOf(size) && size <= SECTOR * SectorsOf(size)
  {
  }

  lemma NamesAfter(fs: Fs, parent: Option<int>, e: Entry)
    requires IsParent(fs, parent) && |fs.subs| == |fs.root| && NamesUnique(fs)
    requires forall k :: 0 <= k < |EntriesOf(fs, parent)| ==> EntriesOf(fs, parent)[k].name != e.name
    ensures NamesUnique(AddTo(fs, parent, e))
  {
    var es, after := EntriesOf(fs, parent), AddTo(fs, parent, e);
    if parent.Some? {
      assert es == fs.subs[parent.value] && UniqueNames(es);
    } else {
      assert es == fs.root;
    }
    OneMoreName(es, e);
    forall j | 0 <= j < |after.subs| ensures UniqueNames(after.subs[j]) {
      if j < |fs.subs| { assert UniqueNames(fs.subs[j]); }
    }
  }

  lemma OneMoreName(es: seq<Entry>, e: Entry)
    requires UniqueNames(es) && forall k :: 0 <= k < |es| ==> es[k].name != e.name
    ensures UniqueNames(es + [e])
  {
  }

  lemma FitAfter(geo: Geometry, fs: Fs, parent: Option<int>, e: Entry, length: int)
    requires IsParent(fs, parent) && |fs.subs| == |fs.root| && EntriesFit(geo, fs, length) && EntryFits(geo, e, length) && (parent.Some? ==> !IsDirectory(e))
    ensures EntriesFit(geo, AddTo(fs, parent, e), length)
  {
    hide EntryFits, IsDirectory;
  }

  // ----- Tables after adding -----

  lemma ParentGrows(img: seq<int>, geo: Geometry, fs: Fs, parent: Option<int>, e: Entry, data: seq<int>)
    requires CanAdd(img, geo, fs, parent, e, data)
    ensures |e.name| <= NAME && 0 <= SlotOff(geo, fs, parent) && SlotOff(geo, fs, parent) + ENTRY <= |img|
    ensures 0 <= SECTOR * e.start && SECTOR * e.start + |data| <= |img|
    ensures Table(Added(img, geo, fs, parent, e, data), BaseOf(geo, fs, parent), Slots(geo), EntriesOf(fs, parent) + [e])
  {
    CanAddFacts(img, geo, fs, parent, e, data);
    CanAddParent(img, geo, fs, parent, e, data);
    ParentTable(img, geo, fs, parent);
    hide CanAdd, Sound, Table, SameOn, Splice, EntryBytes, AreaOf, ValidEntry;
    TableInside(img, BaseOf(geo, fs, parent), Slots(geo), EntriesOf(fs, parent));
    TableAppend(img, BaseOf(geo, fs, parent), Slots(geo), EntriesOf(fs, parent), e);
    var mid := Splice(img, SlotOff(geo, fs, parent), EntryBytes(e));
    SpliceOutside(mid, SECTOR * e.start, data, BaseOf(geo, fs, parent), BaseOf(geo, fs, parent) + ENTRY * Slots(geo));
    TableSame(mid, Added(img, geo, fs, parent, e, data), BaseOf(geo, fs, parent), Slots(geo), EntriesOf(fs, parent) + [e]);
  }

  lemma CanAddParent(img: seq<int>, geo: Geometry, fs: Fs, parent: Option<int>, e: Entry, data: seq<int>)
    requires CanAdd(img, geo, fs, parent, e, data)
    ensures Sound(img, geo, fs) && IsParent(fs, parent) && |EntriesOf(fs, parent)| < Slots(geo) && |fs.subs| == |fs.root|
    ensures geo.root >= 0 && geo.sectors >= 1 && Holds(img, geo, fs) && Disjoint(geo, fs) && EntriesFit(geo, fs, |img|) && NamesUnique(fs)
    ensures EndsBy(geo, fs, e.start) && EntryFits(geo, e, |img|) && (parent.Some? ==> !IsDirectory(e)) && (IsDirectory(e) ==> data == Zeros(e.size))
    ensures forall k :: 0 <= k < |EntriesOf(fs, parent)| ==> EntriesOf(fs, parent)[k].name != e.name
  {
    hide Disjoint, EntriesFit, NamesUnique, EntryFits, EndsBy, Table, IsDirectory;
  }

  lemma TableInside(img: seq<int>, base: int, n: int, es: seq<Entry>)
    requires Table(img, base, n, es)
    ensures 0 <= base && base + ENTRY * n <= |img| && |es| <= n
  {
    hide SlotIs, SlotFree;
  }

  /** Any other table. */
  lemma OtherTableStays(img: seq<int>, geo: Geometry, fs: Fs, parent: Option<int>, e: Entry, data: seq<int>, other: Option<int>)
    requires CanAdd(img, geo, fs, parent, e, data) && IsParent(fs, other) && other != parent
    ensures |e.name| <= NAME && 0 <= SlotOff(geo, fs, parent) && SlotOff(geo, fs, parent) + ENTRY <= |img|
    ensures 0 <= SECTOR * e.start && SECTOR * e.start + |data| <= |img|
    ensures Table(Added(img, geo, fs, parent, e, data), BaseOf(geo, fs, other), Slots(geo), EntriesOf(fs, other))
  {
    CanAddFacts(img, geo, fs, parent, e, data);
    CanAddParent(img, geo, fs, parent, e, data);
    ParentTable(img, geo, fs, other);
    ParentTable(img, geo, fs, parent);
    assert Apart(AreaOf(geo, fs, ParentPlace(other)), AreaOf(geo, fs, ParentPlace(parent)));
    assert AreaOf(geo, fs, ParentPlace(other)).end <= e.start;
    hide CanAdd, Sound, Holds, Disjoint, EndsBy, Table, AreaOf, SlotOff, Splice, EntryBytes, BaseOf;
    TableInside(img, BaseOf(geo, fs, other), Slots(geo), EntriesOf(fs, other));
    var lo := BaseOf(geo, fs, other);
    KeptRegion(img, geo, fs, parent, e, data, lo, lo + ENTRY * Slots(geo));
    TableSame(img, Added(img, geo, fs, parent, e, data), lo, Slots(geo), EntriesOf(fs, other));
  }

  /** The new data, as written. */
  lemma DataWritten(img: seq<int>, geo: Geometry, fs: Fs, parent: Option<int>, e: Entry, data: seq<int>)
    requires CanAdd(img, geo, fs, parent, e, data)
    ensures |e.name| <= NAME && 0 <= SlotOff(geo, fs, parent) && SlotOff(geo, fs, parent) + ENTRY <= |img|
    ensures 0 <= SECTOR * e.start && SECTOR * e.start + |data| <= |img|
    ensures DataOf(Added(img, geo, fs, parent, e, data), e) == data
  {
    CanAddFacts(img, geo, fs, parent, e, data);
    hide CanAdd, AreaOf, Splice, EntryBytes;
    SpliceInside(Splice(img, SlotOff(geo, fs, parent), EntryBytes(e)), SECTOR * e.start, data);
  }

  /** A new directory's table is empty. */
  lemma NewTable(img: seq<int>, geo: Geometry, fs: Fs, parent: Option<int>, e: Entry, data: seq<int>)
    requires CanAdd(img, geo, fs, parent, e, data) && IsDirectory(e)
    ensures |e.name| <= NAME && 0 <= SlotOff(geo, fs, parent) && SlotOff(geo, fs, parent) + ENTRY <= |img|
    ensures 0 <= SECTOR * e.start && SECTOR * e.start + |data| <= |img|
    ensures Table(Added(img, geo, fs, parent, e, data), SECTOR * e.start, Slots(geo), [])
  {
    CanAddFacts(img, geo, fs, parent, e, data);
    CanAddParent(img, geo, fs, parent, e, data);
    FitsFacts(geo, e, |img|);
    DataWritten(img, geo, fs, parent, e, data);
    var after := Added(img, geo, fs, parent, e, data);
    hide CanAdd, Sound, Holds, Disjoint, EndsBy, Table, AreaOf, SlotOff, Splice, EntryBytes, Added;
    var lo := SECTOR * e.start;
    forall k | lo <= k < lo + e.size ensures after[k] == 0 { assert after[lo..lo + e.size][k - lo] == data[k - lo]; }
    ZeroTable(after, lo, Slots(geo));
  }

  // ----- What adding keeps -----

  lemma RootAfter(img: seq<int>, geo: Geometry, fs: Fs, parent: Option<int>, e: Entry, data: seq<int>, after: seq<int>)
    requires CanAdd(img, geo, fs, parent, e, data)
    requires |e.name| <= NAME && 0 <= SlotOff(geo, fs, parent) && SlotOff(geo, fs, parent) + ENTRY <= |img|
    requires 0 <= SECTOR * e.start && SECTOR * e.start + |data| <= |img| && after == Added(img, geo, fs, parent, e, data)
    ensures Table(after, SECTOR * geo.root, Slots(geo), AddTo(fs, parent, e).root)
  {
    CanAddParent(img, geo, fs, parent, e, data);
    hide CanAdd, Table, SlotOff;
    if parent.None? {
      ParentGrows(img, geo, fs, parent, e, data);
    } else {
      OtherTableStays(img, geo, fs, parent, e, data, None);
    }
    hide Added;
  }

  lemma SubAfter(img: seq<int>, geo: Geometry, fs: Fs, parent: Option<int>, e: Entry, data: seq<int>, after: seq<int>, j: int)
    requires CanAdd(img, geo, fs, parent, e, data)
    requires |e.name| <= NAME && 0 <= SlotOff(geo, fs, parent) && SlotOff(geo, fs, parent) + ENTRY <= |img|
    requires 0 <= SECTOR * e.start && SECTOR * e.start + |data| <= |img| && after == Added(img, geo, fs, parent, e, data)
    requires 0 <= j < |AddTo(fs, parent, e).root| && |AddTo(fs, parent, e).subs| == |AddTo(fs, parent, e).root|
    ensures SubIs(after, geo, AddTo(fs, parent, e), j)
  {
    CanAddParent(img, geo, fs, parent, e, data);
    hide CanAdd, Table, SlotOff, Added;
    if parent.None? && j == |fs.root| {
      if IsDirectory(e) { NewTable(img, geo, fs, parent, e, data); }
    } else {
      assert SubIs(img, geo, fs, j);
      if IsDirectory(fs.root[j]) {
        if parent == Some(j) {
          ParentGrows(img, geo, fs, parent, e, data);
        } else {
          OtherTableStays(img, geo, fs, parent, e, data, Some(j));
        }
      }
    }
    hide IsDirectory;
  }

  /** Adding an entry keeps the image sound: nothing overlaps, names stay unique,
      every table holds what it should. */
  lemma AddSound(img: seq<int>, geo: Geometry, fs: Fs, parent: Option<int>, e: Entry, data: seq<int>)
    requires CanAdd(img, geo, fs, parent, e, data)
    ensures |e.name| <= NAME && 0 <= SlotOff(geo, fs, parent) && SlotOff(geo, fs, parent) + ENTRY <= |img|
    ensures 0 <= SECTOR * e.start && SECTOR * e.start + |data| <= |img|
    ensures Sound(Added(img, geo, fs, parent, e, data), geo, AddTo(fs, parent, e))
    ensures EndsBy(geo, AddTo(fs, parent, e), e.start + SectorsOf(e.size))
  {
    hide *;
    CanAddFacts(img, geo, fs, parent, e, data);
    CanAddParent(img, geo, fs, parent, e, data);
    FitsFacts(geo, e, |img|);
    var after, fs' := Added(img, geo, fs, parent, e, data), AddTo(fs, parent, e);
    RootAfter(img, geo, fs, parent, e, data, after);
    SameSizes(fs, parent, e);
    forall j | 0 <= j < |fs'.root| ensures SubIs(after, geo, fs', j) { SubAfter(img, geo, fs, parent, e, data, after, j); }
    DisjointAfter(geo, fs, parent, e);
    NamesAfter(fs, parent, e);
    FitAfter(geo, fs, parent, e, |img|);
    SoundIs(after, geo, fs');
  }

  lemma SameSizes(fs: Fs, parent: Option<int>, e: Entry)
    requires |fs.subs| == |fs.root|
    ensures |AddTo(fs, parent, e).subs| == |AddTo(fs, parent, e).root|
  {
  }

  lemma SoundIs(img: seq<int>, geo: Geometry, fs: Fs)
    requires geo.root >= 0 && geo.sectors >= 1 && Disjoint(geo, fs) && EntriesFit(geo, fs, |img|) && NamesUnique(fs)
    requires Table(img, SECTOR * geo.root, Slots(geo), fs.root) && |fs.subs| == |fs.root|
    requires forall j :: 0 <= j < |fs.root| ==> SubIs(img, geo, fs, j)
    ensures Sound(img, geo, fs)
  {
    hide Disjoint, EntriesFit, NamesUnique, Table, SubIs;
  }

  /** Every file that was there keeps its entry and reads back byte for byte. */
  lemma FilesKept(img: seq<int>, geo: Geometry, fs: Fs, parent: Option<int>, e: Entry, data: seq<int>, p: Place)
    requires CanAdd(img, geo, fs, parent, e, data) && Exists(fs, p) && !p.RootTable? && !IsDirectory(EntryOf(fs, p))
    ensures |e.name| <= NAME && 0 <= SlotOff(geo, fs, parent) && SlotOff(geo, fs, parent) + ENTRY <= |img|
    ensures 0 <= SECTOR * e.start && SECTOR * e.start + |data| <= |img|
    ensures Exists(AddTo(fs, parent, e), p) && EntryOf(AddTo(fs, parent, e), p) == EntryOf(fs, p)
    ensures DataOf(Added(img, geo, fs, parent, e, data), EntryOf(fs, p)) == DataOf(img, EntryOf(fs, p))
  {
    hide CanAdd, Sound, Holds, Disjoint, EndsBy, EntriesFit, NamesUnique, EntryFits, AreaOf, EntryOf, Exists, AddTo, SlotOff, Added, IsParent, SameOn, DataOf, IsDirectory, ParentPlace, ValidEntry;
    CanAddFacts(img, geo, fs, parent, e, data);
    CanAddParent(img, geo, fs, parent, e, data);
    EntryAfter(fs, parent, e, p);
    var f := EntryOf(fs, p);
    FileArea(geo, fs, p, |img|);
    NotTheParent(fs, parent, p);
    AreasApart(geo, fs, p, ParentPlace(parent));
    EndsBefore(geo, fs, p, e.start);
    var after := Added(img, geo, fs, parent, e, data);
    KeptRegion(img, geo, fs, parent, e, data, SECTOR * f.start, SECTOR * f.start + f.size);
    SameData(img, after, f);
  }

  lemma FileArea(geo: Geometry, fs: Fs, p: Place, length: int)
    requires EntriesFit(geo, fs, length) && Exists(fs, p) && !p.RootTable? && |fs.subs| == |fs.root|
    ensures var f := EntryOf(fs, p); var a := AreaOf(geo, fs, p);
      a.start == f.start && 0 <= f.start && 0 <= f.size && SECTOR * f.start + f.size <= length && f.size <= SECTOR * (a.end - a.start)
  {
    var f := EntryOf(fs, p);
    assert EntryFits(geo, f, length);
    FitsFacts(geo, f, length);
    SectorsNotNegative(f.size);
    hide EntryFits, SectorsOf;
  }

  lemma NotTheParent(fs: Fs, parent: Option<int>, p: Place)
    requires IsParent(fs, parent) && Exists(fs, p) && !p.RootTable? && !IsDirectory(EntryOf(fs, p))
    ensures p != ParentPlace(parent)
  {
  }

  lemma AreasApart(geo: Geometry, fs: Fs, p: Place, q: Place)
    requires Disjoint(geo, fs) && Exists(fs, p) && Exists(fs, q) && p != q
    ensures AreaOf(geo, fs, p).end <= AreaOf(geo, fs, q).start || AreaOf(geo, fs, q).end <= AreaOf(geo, fs, p).start
  {
    assert Apart(AreaOf(geo, fs, p), AreaOf(geo, fs, q));
    hide AreaOf;
  }

  lemma EndsBefore(geo: Geometry, fs: Fs, p: Place, next: int)
    requires EndsBy(geo, fs, next) && Exists(fs, p)
    ensures AreaOf(geo, fs, p).end <= next
  {
    hide AreaOf;
  }

  lemma SameData(img: seq<int>, after: seq<int>, f: Entry)
    requires 0 <= f.start && 0 <= f.size && SameOn(img, after, SECTOR * f.start, SECTOR * f.start + f.size)
    ensures DataOf(after, f) == DataOf(img, f)
  {
    SameSlice(img, after, SECTOR * f.start, SECTOR * f.start + f.size, SECTOR * f.start, SECTOR * f.start + f.size);
  }

  // ----- Looking up -----

  /** The entry of that name in a directory. */
  method FindEntry(img: seq<int>, base: int, n: int, name: seq<int>, ghost es: seq<Entry>) returns (found: Option<Entry>)
    requires Table(img, base, n, es) && UniqueNames(es)
    ensures found.None? <==> forall k :: 0 <= k < |es| ==> es[k].name != name
    ensures found.Some? ==> found.value in es && found.value.name == name
    ensures forall k :: 0 <= k < |es| && es[k].name == name ==> found == Some(es[k])
  {
    hide Decode, Off;
    for k := 0 to n
      invariant forall j :: 0 <= j < k && j < |es| ==> es[j].name != name
    {
      SlotAt(img, base, n, es, k);
      if img[Off(base, k)] != 0 {
        var e := Decode(img[Off(base, k)..Off(base, k) + ENTRY]);
        if e.name == name { return Some(e); }
      }
    }
    found := None;
  }

  lemma SlotAt(img: seq<int>, base: int, n: int, es: seq<Entry>, k: int)
    requires Table(img, base, n, es) && 0 <= k < n
    ensures 0 <= Off(base, k) && Off(base, k) + ENTRY <= |img|
    ensures img[Off(base, k)] == 0 <==> k >= |es|
    ensures k < |es| ==> Decode(img[Off(base, k)..Off(base, k) + ENTRY]) == es[k]
  {
    assert if k < |es| then SlotIs(img, base, k, es[k]) else SlotFree(img, base, k);
    hide Decode, Off;
  }

  datatype FreeSlot = Free(offset: int) | Taken | Full

  /** Slot `k` is used, under this name. */
  predicate NamedAt(img: seq<int>, base: int, k: int, name: seq<int>) {
    0 <= Off(base, k) && Off(base, k) + ENTRY <= |img| && img[Off(base, k)] != 0 && Decode(img[Off(base, k)..Off(base, k) + ENTRY]).name == name
  }

  /** The first `n` slots are used, under other names. */
  ghost predicate OthersBefore(img: seq<int>, base: int, n: int, name: seq<int>) {
    forall j :: 0 <= j < n ==> !SlotFree(img, base, j) && !NamedAt(img, base, j, name)
  }

  /** What the search answers, in any table: it ends at the first slot that is free or
      has the name. */
  ghost predicate FoundSlot(img: seq<int>, base: int, n: int, name: seq<int>, r: FreeSlot) {
    match r
    case Free(offset) => exists k :: 0 <= k < n && offset == Off(base, k) && SlotFree(img, base, k) && OthersBefore(img, base, k, name)
    case Taken => exists k :: 0 <= k < n && NamedAt(img, base, k, name) && OthersBefore(img, base, k, name)
    case Full => OthersBefore(img, base, n, name)
  }

  lemma SlotInside(img: seq<int>, base: int, n: int, k: int)
    requires 0 <= base && 0 <= k < n && base + ENTRY * n <= |img|
    ensures 0 <= Off(base, k) && Off(base, k) + ENTRY <= |img|
  {
  }

  lemma TableRoom(img: seq<int>, base: int, n: int, es: seq<Entry>)
    requires Table(img, base, n, es)
    ensures 0 <= base && 0 <= n && base + ENTRY * n <= |img|
  {
    hide SlotIs, SlotFree;
  }

  method FindFreeEntry(img: seq<int>, base: int, n: int, name: seq<int>) returns (r: FreeSlot)
    requires 0 <= base && 0 <= n && base + ENTRY * n <= |img|
    ensures FoundSlot(img, base, n, name, r)
  {
    hide Decode, Off;
    for k := 0 to n
      invariant OthersBefore(img, base, k, name)
    {
      SlotInside(img, base, n, k);
      if img[Off(base, k)] == 0 {
        assert SlotFree(img, base, k);
        return Free(Off(base, k));
      }
      if Decode(img[Off(base, k)..Off(base, k) + ENTRY]).name == name {
        assert NamedAt(img, base, k, name);
        return Taken;
      }
    }
    r := Full;
  }

  /** A name that is there is noticed if and only if no slot in front of it is free. */
  lemma NoticedIff(img: seq<int>, base: int, n: int, name: seq<int>, r: FreeSlot, k: int)
    requires FoundSlot(img, base, n, name, r) && 0 <= k < n && NamedAt(img, base, k, name) && forall j :: 0 <= j < k ==> !NamedAt(img, base, j, name)
    ensures r.Taken? <==> forall j :: 0 <= j < k ==> !SlotFree(img, base, j)
  {
    hide Off, Decode;
    match r
    case Free(offset) =>
      var f :| 0 <= f < n && offset == Off(base, f) && SlotFree(img, base, f) && OthersBefore(img, base, f, name);
      assert f < k;
    case Taken =>
      var f :| 0 <= f < n && NamedAt(img, base, f, name) && OthersBefore(img, base, f, name);
    case Full =>
      assert false;
  }

  /** Behind a free slot the name `a` is overlooked. */
  lemma OverlookedName(r: FreeSlot)
    requires FoundSlot(Zeros(32) + EntryBytes(Entry([97], 0, 1, 1)), 0, 2, [97], r)
    ensures NamedAt(Zeros(32) + EntryBytes(Entry([97], 0, 1, 1)), 0, 1, [97]) && r == Free(0)
  {
    var e := Entry([97], 0, 1, 1);
    var img := Zeros(32) + EntryBytes(e);
    EntryRoundTrip(e);
    assert img[32..64] == EntryBytes(e);
    assert SlotFree(img, 0, 0) && NamedAt(img, 0, 1, [97]);
    hide Decode, EntryBytes, Zeros;
    NoticedIff(img, 0, 2, [97], r, 1);
    assert !OthersBefore(img, 0, 2, [97]);
    assert forall f :: 0 < f && OthersBefore(img, 0, f, [97]) ==> !SlotFree(img, 0, 0);
  }

  /** In a table without holes: taken if and only if the name is there, full only when
      every slot is used. */
  lemma FoundInTable(img: seq<int>, base: int, n: int, name: seq<int>, es: seq<Entry>, r: FreeSlot)
    requires Table(img, base, n, es) && FoundSlot(img, base, n, name, r)
    ensures r.Taken? <==> exists k :: 0 <= k < |es| && es[k].name == name
    ensures r.Free? ==> |es| < n && r.offset == Off(base, |es|)
    ensures r.Full? ==> |es| == n
  {
    hide Decode, Off;
    forall k | 0 <= k < n
      ensures SlotFree(img, base, k) <==> k >= |es|
      ensures k < |es| ==> (NamedAt(img, base, k, name) <==> es[k].name == name)
      ensures NamedAt(img, base, k, name) ==> k < |es|
    {
      SlotAt(img, base, n, es, k);
    }
    if |es| < n { assert SlotFree(img, base, |es|); }
    hide Table;
    match r
    case Free(offset) =>
      var f :| 0 <= f < n && offset == Off(base, f) && SlotFree(img, base, f) && OthersBefore(img, base, f, name);
      assert f == |es|;
    case Taken =>
    case Full =>
  }

  // ----- The next free sector -----

  function EntryEnd(e: Entry): int { e.start + SectorsOf(e.size) }

  /** The root table, and the entries of the first `n` root entries, end by `next`. */
  ghost predicate EndsUpTo(geo: Geometry, fs: Fs, n: int, next: int) {
    && geo.root + geo.sectors <= next
    && (forall k :: 0 <= k < n && k < |fs.root| ==> EntryEnd(fs.root[k]) <= next)
    && (forall j, k :: 0 <= j < n && j < |fs.subs| && 0 <= k < |fs.subs[j]| ==> EntryEnd(fs.subs[j][k]) <= next)
  }

  /** Something ends exactly there. */
  ghost predicate Attained(geo: Geometry, fs: Fs, next: int) {
    exists p :: Exists(fs, p) && AreaOf(geo, fs, p).end == next
  }

  lemma EndsAll(geo: Geometry, fs: Fs, next: int)
    requires |fs.subs| == |fs.root| && EndsUpTo(geo, fs, |fs.root|, next)
    ensures EndsBy(geo, fs, next)
  {
    hide SectorsOf;
  }

  lemma AttainedBy(geo: Geometry, fs: Fs, p: Place, next: int)
    requires Exists(fs, p) && AreaOf(geo, fs, p).end == next
    ensures Attained(geo, fs, next)
  {
  }

  method ComputeNextDataSector(img: seq<int>, geo: Geometry, ghost fs: Fs) returns (next: int)
    requires Sound(img, geo, fs)
    ensures EndsBy(geo, fs, next) && Attained(geo, fs, next)
  {
    hide Sound, Holds, Table, Decode, Off, Attained, SectorsOf, SlotIs, SlotFree;
    next := geo.root + geo.sectors;
    AttainedBy(geo, fs, RootTable, next);
    SoundFacts(img, geo, fs);
    var base := SECTOR * geo.root;
    for k := 0 to Slots(geo)
      invariant EndsUpTo(geo, fs, k, next) && Attained(geo, fs, next)
    {
      SlotAt(img, base, Slots(geo), fs.root, k);
      if img[Off(base, k)] != 0 {
        var e := Decode(img[Off(base, k)..Off(base, k) + ENTRY]);
        var before := next;
        if EntryEnd(e) > next {
          next := EntryEnd(e);
          AttainedBy(geo, fs, InRoot(k), next);
        }
        assert SubIs(img, geo, fs, k);
        if IsDirectory(e) {
          next := LastOfTable(img, geo, e.start, next, fs, k);
        }
        hide EntryEnd, IsDirectory;
      }
    }
    TableInside(img, base, Slots(geo), fs.root);
    EndsAll(geo, fs, next);
  }

  lemma SoundFacts(img: seq<int>, geo: Geometry, fs: Fs)
    requires Sound(img, geo, fs)
    ensures geo.root >= 0 && geo.sectors >= 1 && Table(img, SECTOR * geo.root, Slots(geo), fs.root) && |fs.subs| == |fs.root|
    ensures forall j :: 0 <= j < |fs.root| ==> SubIs(img, geo, fs, j)
    ensures Disjoint(geo, fs) && EntriesFit(geo, fs, |img|) && NamesUnique(fs)
  {
    hide Table, SubIs, Disjoint, EntriesFit, NamesUnique;
  }

  /** The same for the entries of one subdirectory. */
  method LastOfTable(img: seq<int>, geo: Geometry, start: int, next0: int, ghost fs: Fs, ghost j: int) returns (next: int)
    requires 0 <= j < |fs.root| && |fs.subs| == |fs.root| && start == fs.root[j].start
    requires Table(img, SECTOR * start, Slots(geo), fs.subs[j]) && Attained(geo, fs, next0)
    ensures next >= next0 && Attained(geo, fs, next) && forall k :: 0 <= k < |fs.subs[j]| ==> EntryEnd(fs.subs[j][k]) <= next
  {
    hide Table, Decode, Off, Attained, SectorsOf, SlotIs, SlotFree;
    var base := SECTOR * start;
    next := next0;
    TableInside(img, base, Slots(geo), fs.subs[j]);
    for k := 0 to Slots(geo)
      invariant next >= next0 && Attained(geo, fs, next)
      invariant forall q :: 0 <= q < k && q < |fs.subs[j]| ==> EntryEnd(fs.subs[j][q]) <= next
    {
      SlotAt(img, base, Slots(geo), fs.subs[j], k);
      if img[Off(base, k)] != 0 {
        var e := Decode(img[Off(base, k)..Off(base, k) + ENTRY]);
        if EntryEnd(e) > next {
          next := EntryEnd(e);
          AttainedBy(geo, fs, InSub(j, k), next);
        }
      }
    }
  }

  // ----- Writing in place -----

  method WriteBytes(image: array<int>, at: int, data: seq<int>)
    requires 0 <= at && at + |data| <= image.Length
    modifies image
    ensures image[..] == Splice(old(image[..]), at, data)
  {
    for k := 0 to |data|
      invariant forall q :: 0 <= q < image.Length ==> image[q] == if at <= q < at + k then data[q - at] else old(image[q])
    {
      image[at + k] := data[k];
    }
  }

  /** Name, flags, start sector and size, each in its field. */
  method WriteEntry(image: array<int>, at: int, e: Entry)
    requires 0 <= at && at + ENTRY <= image.Length && |e.name| <= NAME
    modifies image
    ensures image[..] == Splice(old(image[..]), at, EntryBytes(e))
  {
    ghost var was := image[..];
    var name := e.name + Zeros(NAME - |e.name|);
    var rest := [e.flags, e.start % 256, e.start / 256 % 256, e.size % 256, e.size / 256 % 256, e.size / 65536 % 256, e.size / 16777216 % 256];
    WriteBytes(image, at, name);
    WriteBytes(image, at + NAME, rest);
    SpliceTwice(was, at, name, rest);
    assert EntryBytes(e) == name + rest;
  }

  lemma SpliceTwice(img: seq<int>, at: int, a: seq<int>, b: seq<int>)
    requires 0 <= at && at + |a| + |b| <= |img|
    ensures Splice(Splice(img, at, a), at + |a|, b) == Splice(img, at, a + b)
  {
  }

  // ----- The tool -----

  datatype NewFile = NewFile(name: seq<int>, data: seq<int>)

  /** A file as it stands in a directory. */
  datatype FileOnDisk = FileOnDisk(name: seq<int>, data: seq<int>, executable: bool)

  /** Files become executable as the call says. */
  function OnDisk(f: NewFile, executable: bool): FileOnDisk { FileOnDisk(f.name, f.data, executable) }

  datatype Status = Done | NameTooLong | EmptyFile | NoSuchDirectory | AlreadyExists | DirectoryFull | PastEnd | OutOfRange

  /** Every file of `fs` is there in `after`, with the same bytes. */
  ghost predicate Kept(img: seq<int>, fs: Fs, img': seq<int>, after: Fs) {
    forall p :: Exists(fs, p) && !p.RootTable? && !IsDirectory(EntryOf(fs, p)) ==> KeptAt(img, fs, img', after, p)
  }

  ghost predicate KeptAt(img: seq<int>, fs: Fs, img': seq<int>, after: Fs, p: Place) {
    && Exists(fs, p) && !p.RootTable? && Exists(after, p) && EntryOf(after, p) == EntryOf(fs, p)
    && DataOf(img', EntryOf(fs, p)) == DataOf(img, EntryOf(fs, p))
  }

  lemma KeptSelf(img: seq<int>, fs: Fs)
    ensures Kept(img, fs, img, fs)
  {
  }

  lemma KeptThen(img: seq<int>, fs: Fs, mid: seq<int>, between: Fs, last: seq<int>, after: Fs)
    requires Kept(img, fs, mid, between) && Kept(mid, between, last, after)
    ensures Kept(img, fs, last, after)
  {
    hide DataOf, Exists, EntryOf, IsDirectory;
    forall p | Exists(fs, p) && !p.RootTable? && !IsDirectory(EntryOf(fs, p)) ensures KeptAt(img, fs, last, after, p) {
      assert KeptAt(img, fs, mid, between, p);
      assert KeptAt(mid, between, last, after, p);
    }
  }

  /** The directory has the file, with its flag, size and contents. */
  ghost predicate Stored(img: seq<int>, fs: Fs, parent: Option<int>, f: FileOnDisk) {
    exists k :: StoredAt(img, fs, parent, f, k)
  }

  ghost predicate StoredAt(img: seq<int>, fs: Fs, parent: Option<int>, f: FileOnDisk, k: int) {
    0 <= k < |EntriesOf(fs, parent)| && IsFile(img, EntriesOf(fs, parent)[k], f)
  }

  ghost predicate IsFile(img: seq<int>, e: Entry, f: FileOnDisk) {
    e.flags == (if f.executable then 1 else 0) && e.name == f.name && e.size == |f.data| && DataOf(img, e) == f.data
  }

  lemma StoredStill(img: seq<int>, fs: Fs, img': seq<int>, after: Fs, parent: Option<int>, f: FileOnDisk)
    requires Stored(img, fs, parent, f) && Kept(img, fs, img', after) && IsParent(fs, parent)
    ensures Stored(img', after, parent, f)
  {
    var k :| StoredAt(img, fs, parent, f, k);
    var p := if parent.None? then InRoot(k) else InSub(parent.value, k);
    assert Exists(fs, p) && EntryOf(fs, p) == EntriesOf(fs, parent)[k];
    assert KeptAt(img, fs, img', after, p);
    assert Exists(after, p) && EntriesOf(after, parent)[k] == EntryOf(fs, p);
    hide DataOf, Exists, EntryOf, IsDirectory, EntriesOf;
    assert StoredAt(img', after, parent, f, k);
  }

  /** What one more entry does to a sound image. */
  lemma AddKeeps(img: seq<int>, geo: Geometry, fs: Fs, parent: Option<int>, e: Entry, data: seq<int>)
    requires CanAdd(img, geo, fs, parent, e, data)
    ensures |e.name| <= NAME && 0 <= SlotOff(geo, fs, parent) && SlotOff(geo, fs, parent) + ENTRY <= |img|
    ensures 0 <= SECTOR * e.start && SECTOR * e.start + |data| <= |img|
    ensures Kept(img, fs, Added(img, geo, fs, parent, e, data), AddTo(fs, parent, e))
    ensures forall x :: e.flags == (if x then 1 else 0) ==> Stored(Added(img, geo, fs, parent, e, data), AddTo(fs, parent, e), parent, FileOnDisk(e.name, data, x))
  {
    CanAddFacts(img, geo, fs, parent, e, data);
    CanAddParent(img, geo, fs, parent, e, data);
    DataWritten(img, geo, fs, parent, e, data);
    LastEntry(fs, parent, e);
    hide CanAdd, Sound, Holds, Disjoint, EndsBy, EntriesFit, NamesUnique, EntryFits, AreaOf, AddTo, SlotOff, Added, IsParent, DataOf, IsDirectory, EntriesOf;
    var after, fs' := Added(img, geo, fs, parent, e, data), AddTo(fs, parent, e);
    forall p | Exists(fs, p) && !p.RootTable? && !IsDirectory(EntryOf(fs, p)) ensures KeptAt(img, fs, after, fs', p) {
      FilesKept(img, geo, fs, parent, e, data, p);
      hide EntryOf, Exists;
    }
    forall x | e.flags == (if x then 1 else 0) ensures Stored(after, fs', parent, FileOnDisk(e.name, data, x)) {
      assert StoredAt(after, fs', parent, FileOnDisk(e.name, data, x), |EntriesOf(fs, parent)|);
    }
  }

  lemma LastEntry(fs: Fs, parent: Option<int>, e: Entry)
    requires IsParent(fs, parent) && |fs.subs| == |fs.root|
    ensures EntriesOf(AddTo(fs, parent, e), parent) == EntriesOf(fs, parent) + [e]
  {
  }

  /** The parent stays the parent, in the same place. */
  lemma ParentStays(geo: Geometry, fs: Fs, parent: Option<int>, e: Entry)
    requires IsParent(fs, parent) && |fs.subs| == |fs.root|
    ensures IsParent(AddTo(fs, parent, e), parent) && BaseOf(geo, AddTo(fs, parent, e), parent) == BaseOf(geo, fs, parent)
  {
  }

  lemma CanAddIs(img: seq<int>, geo: Geometry, fs: Fs, parent: Option<int>, e: Entry, data: seq<int>)
    requires Sound(img, geo, fs) && IsParent(fs, parent) && EndsBy(geo, fs, e.start)
    requires ValidName(e.name) && IsByte(e.flags) && 0 <= e.start < 0x1_0000 && 0 <= e.size < 0x1_0000_0000 && SECTOR * e.start + e.size <= |img|
    requires IsDirectory(e) ==> e.size == SECTOR * geo.sectors && data == Zeros(e.size)
    requires |data| == e.size && (parent.Some? ==> !IsDirectory(e)) && |EntriesOf(fs, parent)| < Slots(geo)
    requires !exists k :: 0 <= k < |EntriesOf(fs, parent)| && EntriesOf(fs, parent)[k].name == e.name
    ensures CanAdd(img, geo, fs, parent, e, data)
  {
    hide Sound, IsParent, EndsBy, IsDirectory, ValidName;
  }

  lemma NextNotNegative(geo: Geometry, fs: Fs, next: int)
    requires EndsBy(geo, fs, next) && geo.root >= 0 && geo.sectors >= 1
    ensures next >= 1
  {
    assert AreaOf(geo, fs, RootTable).end <= next;
  }

  lemma FlagsOfFile(executable: bool)
    ensures var flags := if executable then 1 else 0; IsByte(flags) && forall e: Entry :: e.flags == flags ==> !IsDirectory(e)
  {
  }

  /** `after` is `fs` with `n` more entries at the end of one directory. */
  ghost predicate Extends(fs: Fs, after: Fs, parent: Option<int>, n: int) {
    && |fs.subs| == |fs.root| && |after.subs| == |after.root| && fs.root <= after.root
    && |after.root| == |fs.root| + (if parent.None? then n else 0)
    && (parent.Some? ==> 0 <= parent.value < |fs.root| && |after.subs[parent.value]| == |fs.subs[parent.value]| + n)
    && (forall j :: 0 <= j < |fs.root| ==> fs.subs[j] <= after.subs[j] && (parent == Some(j) || after.subs[j] == fs.subs[j]))
    && (forall j :: |fs.root| <= j < |after.root| ==> after.subs[j] == [])
  }

  lemma ExtendsSelf(fs: Fs, parent: Option<int>)
    requires |fs.subs| == |fs.root| && IsParent(fs, parent)
    ensures Extends(fs, fs, parent, 0)
  {
  }

  lemma ExtendsMore(fs: Fs, now: Fs, parent: Option<int>, n: int, e: Entry)
    requires Extends(fs, now, parent, n) && IsParent(now, parent) && n >= 0
    ensures Extends(fs, AddTo(now, parent, e), parent, n + 1)
  {
    hide IsDirectory;
  }

  /** Every directory still starts with the entries it had. */
  ghost predicate Grows(fs: Fs, after: Fs) {
    && |fs.subs| == |fs.root| && |after.subs| == |after.root| && fs.root <= after.root
    && forall j :: 0 <= j < |fs.root| ==> fs.subs[j] <= after.subs[j]
  }

  lemma ExtendsGrows(fs: Fs, after: Fs, parent: Option<int>, n: int)
    requires Extends(fs, after, parent, n)
    ensures Grows(fs, after)
  {
  }

  lemma GrowsThen(fs: Fs, between: Fs, after: Fs)
    requires Grows(fs, between) && Grows(between, after)
    ensures Grows(fs, after)
  {
  }

  /** A batch of files on a copy of the image. */
  ghost predicate Batch(img: seq<int>, geo: Geometry, fs: Fs, cur: seq<int>, now: Fs, parent: Option<int>, files: seq<NewFile>, executable: bool, n: int, next: int) {
    && |cur| == |img| && Sound(cur, geo, now) && EndsBy(geo, now, next) && IsParent(now, parent) && Extends(fs, now, parent, n)
    && BaseOf(geo, now, parent) == BaseOf(geo, fs, parent) && Kept(img, fs, cur, now)
    && forall i :: 0 <= i < n && i < |files| ==> Stored(cur, now, parent, OnDisk(files[i], executable))
  }

  lemma BatchMore(img: seq<int>, geo: Geometry, fs: Fs, cur: seq<int>, now: Fs, parent: Option<int>, files: seq<NewFile>, executable: bool, n: int, e: Entry)
    requires Batch(img, geo, fs, cur, now, parent, files, executable, n, e.start) && 0 <= n < |files|
    requires CanAdd(cur, geo, now, parent, e, files[n].data) && e.flags == (if executable then 1 else 0) && e.name == files[n].name
    ensures |e.name| <= NAME && 0 <= SlotOff(geo, now, parent) && SlotOff(geo, now, parent) + ENTRY <= |cur|
    ensures 0 <= SECTOR * e.start && SECTOR * e.start + |files[n].data| <= |cur|
    ensures Batch(img, geo, fs, Added(cur, geo, now, parent, e, files[n].data), AddTo(now, parent, e), parent, files, executable, n + 1, e.start + SectorsOf(e.size))
  {
    AddSound(cur, geo, now, parent, e, files[n].data);
    AddKeeps(cur, geo, now, parent, e, files[n].data);
    CanAddParent(cur, geo, now, parent, e, files[n].data);
    ParentStays(geo, now, parent, e);
    ExtendsMore(fs, now, parent, n, e);
    var last, after := Added(cur, geo, now, parent, e, files[n].data), AddTo(now, parent, e);
    hide CanAdd, Sound, EndsBy, IsParent, BaseOf, Kept, Stored, Added, AddTo, SlotOff, IsDirectory, SectorsOf, Holds, Disjoint, EntriesFit, NamesUnique, EntryFits, EntriesOf, Extends;
    KeptThen(img, fs, cur, now, last, after);
    forall i | 0 <= i < n + 1 ensures Stored(last, after, parent, OnDisk(files[i], executable)) {
      if i < n {
        StoredStill(cur, now, last, after, parent, OnDisk(files[i], executable));
      } else {
        assert FileOnDisk(e.name, files[n].data, executable) == OnDisk(files[n], executable);
      }
    }
  }

  lemma BatchStarts(img: seq<int>, geo: Geometry, fs: Fs, parent: Option<int>, files: seq<NewFile>, executable: bool, next: int)
    requires Sound(img, geo, fs) && EndsBy(geo, fs, next) && IsParent(fs, parent)
    ensures Batch(img, geo, fs, img, fs, parent, files, executable, 0, next)
  {
    KeptSelf(img, fs);
    SoundGeometry(img, geo, fs);
    ExtendsSelf(fs, parent);
    hide Sound, EndsBy, IsParent, Kept, Extends;
  }

  lemma BatchFacts(img: seq<int>, geo: Geometry, fs: Fs, cur: seq<int>, now: Fs, parent: Option<int>, files: seq<NewFile>, executable: bool, n: int, next: int)
    requires Batch(img, geo, fs, cur, now, parent, files, executable, n, next)
    ensures |cur| == |img| && Sound(cur, geo, now) && EndsBy(geo, now, next) && IsParent(now, parent) && next >= 1
    ensures Table(cur, BaseOf(geo, fs, parent), Slots(geo), EntriesOf(now, parent)) && BaseOf(geo, now, parent) == BaseOf(geo, fs, parent)
    ensures Kept(img, fs, cur, now) && Extends(fs, now, parent, n) && forall i :: 0 <= i < n && i < |files| ==> Stored(cur, now, parent, OnDisk(files[i], executable))
    ensures |EntriesOf(now, parent)| < Slots(geo) ==>
      0 <= Off(BaseOf(geo, fs, parent), |EntriesOf(now, parent)|) && Off(BaseOf(geo, fs, parent), |EntriesOf(now, parent)|) + ENTRY <= |cur|
  {
    ParentTable(cur, geo, now, parent);
    SoundGeometry(cur, geo, now);
    NextNotNegative(geo, now, next);
    TableInside(cur, BaseOf(geo, fs, parent), Slots(geo), EntriesOf(now, parent));
    hide Sound, EndsBy, IsParent, Kept, Stored, Table, BaseOf, EntriesOf, AreaOf, Extends;
  }

  lemma SoundGeometry(img: seq<int>, geo: Geometry, fs: Fs)
    requires Sound(img, geo, fs)
    ensures geo.root >= 0 && geo.sectors >= 1 && |fs.subs| == |fs.root|
  {
    hide Table, Disjoint, EntriesFit, NamesUnique;
  }

  /** The root's directory of a given name. */
  method FindSubdirectory(img: seq<int>, geo: Geometry, name: seq<int>, ghost fs: Fs) returns (start: Option<int>, ghost j: int)
    requires Sound(img, geo, fs)
    ensures start.None? <==> forall k :: 0 <= k < |fs.root| && fs.root[k].name == name ==> !IsDirectory(fs.root[k])
    ensures start.Some? ==> 0 <= j < |fs.root| && fs.root[j].name == name && IsParent(fs, Some(j)) && start.value == fs.root[j].start
  {
    hide Table, Disjoint, EntriesFit, Holds, IsDirectory;
    SoundFacts(img, geo, fs);
    var found := FindEntry(img, SECTOR * geo.root, Slots(geo), name, fs.root);
    j := 0;
    start := None;
    if found.Some? && IsDirectory(found.value) {
      start := Some(found.value.start);
      j :| 0 <= j < |fs.root| && fs.root[j] == found.value;
    }
  }

  /** Names as the host gives them: some bytes, none of them zero. */
  predicate HostName(name: seq<int>) { |name| >= 1 && forall k :: 0 <= k < |name| ==> 0 < name[k] < 256 }

  /** A name that fits, and contents unless the file may be empty. */
  ghost predicate Admitted(f: NewFile, allowEmpty: bool) { |f.name| <= NAME_MAX && (f.data != [] || allowEmpty) }

  /** The first file that is not admitted decides the answer. */
  ghost predicate NamesAnswer(files: seq<NewFile>, allowEmpty: bool, r: Status) {
    if forall i :: 0 <= i < |files| ==> Admitted(files[i], allowEmpty) then r == Done
    else exists n :: FirstRefused(files, allowEmpty, n) && r == if |files[n].name| > NAME_MAX then NameTooLong else EmptyFile
  }

  ghost predicate FirstRefused(files: seq<NewFile>, allowEmpty: bool, n: int) {
    0 <= n < |files| && !Admitted(files[n], allowEmpty) && forall i :: 0 <= i < n ==> Admitted(files[i], allowEmpty)
  }

  /** No name is too long, and no file is empty unless that is allowed. */
  method CheckNames(files: seq<NewFile>, allowEmpty: bool) returns (r: Status)
    requires forall i :: 0 <= i < |files| ==> HostName(files[i].name)
    ensures r.Done? <==> forall i :: 0 <= i < |files| ==> ValidName(files[i].name) && (files[i].data != [] || allowEmpty)
    ensures NamesAnswer(files, allowEmpty, r)
  {
    for n := 0 to |files|
      invariant forall i :: 0 <= i < n ==> ValidName(files[i].name) && Admitted(files[i], allowEmpty)
    {
      assert HostName(files[n].name);
      assert !Admitted(files[n], allowEmpty) ==> FirstRefused(files, allowEmpty, n);
      if |files[n].name| > NAME_MAX { return NameTooLong; }
      if files[n].data == [] && !allowEmpty { return EmptyFile; }
    }
    r := Done;
  }

  /** `after` is the image with the entry and its data. */
  ghost predicate AddedIs(before: seq<int>, geo: Geometry, fs: Fs, parent: Option<int>, e: Entry, data: seq<int>, after: seq<int>) {
    && |e.name| <= NAME && 0 <= SlotOff(geo, fs, parent) && SlotOff(geo, fs, parent) + ENTRY <= |before|
    && 0 <= SECTOR * e.start && SECTOR * e.start + |data| <= |before| && after == Added(before, geo, fs, parent, e, data)
  }

  lemma AddedIsSplices(before: seq<int>, geo: Geometry, fs: Fs, parent: Option<int>, e: Entry, data: seq<int>, off: int, mid: seq<int>, after: seq<int>)
    requires off == SlotOff(geo, fs, parent) && 0 <= off && off + ENTRY <= |before| && |e.name| <= NAME && mid == Splice(before, off, EntryBytes(e))
    requires 0 <= SECTOR * e.start && SECTOR * e.start + |data| <= |before| && after == Splice(mid, SECTOR * e.start, data)
    ensures AddedIs(before, geo, fs, parent, e, data, after)
  {
    hide SlotOff, Splice, EntryBytes;
  }

  lemma SlotOffIs(geo: Geometry, fs: Fs, parent: Option<int>)
    ensures SlotOff(geo, fs, parent) == Off(BaseOf(geo, fs, parent), |EntriesOf(fs, parent)|)
  {
  }

  lemma ShortName(name: seq<int>)
    requires ValidName(name)
    ensures |name| <= NAME
  {
  }

  lemma CanAddMeans(img: seq<int>, geo: Geometry, fs: Fs, parent: Option<int>, e: Entry, data: seq<int>)
    requires CanAdd(img, geo, fs, parent, e, data)
    ensures e.start < 0x1_0000 && e.size < 0x1_0000_0000 && SECTOR * e.start + e.size <= |img| && |EntriesOf(fs, parent)| < Slots(geo)
    ensures !exists k :: 0 <= k < |EntriesOf(fs, parent)| && EntriesOf(fs, parent)[k].name == e.name
  {
    hide Sound, IsParent, EndsBy, IsDirectory, ValidName;
  }

  /** The answer to one entry: its name is taken, the directory is full, a number does
      not fit its field, the data would not fit the image, or it is done. */
  ghost function Verdict(geo: Geometry, entries: seq<Entry>, e: Entry, length: int): Status {
    if exists k :: 0 <= k < |entries| && entries[k].name == e.name then AlreadyExists
    else if |entries| >= Slots(geo) then DirectoryFull
    else if e.start >= 0x1_0000 || e.size >= 0x1_0000_0000 then OutOfRange
    else if SECTOR * e.start + e.size > length then PastEnd
    else Done
  }

  /** Writes one entry and its data into the image; an image left half written on
      failure is thrown away by the caller. */
  method AddOne(image: array<int>, geo: Geometry, base: int, e: Entry, data: seq<int>, ghost fs: Fs, ghost parent: Option<int>) returns (r: Status)
    requires Sound(image[..], geo, fs) && EndsBy(geo, fs, e.start) && IsParent(fs, parent) && base == BaseOf(geo, fs, parent)
    requires ValidName(e.name) && IsByte(e.flags) && e.size == |data|
    requires (parent.Some? ==> !IsDirectory(e)) && (IsDirectory(e) ==> e.size == SECTOR * geo.sectors && data == Zeros(e.size))
    modifies image
    ensures r.Done? <==> CanAdd(old(image[..]), geo, fs, parent, e, data)
    ensures r.Done? ==> AddedIs(old(image[..]), geo, fs, parent, e, data, image[..])
    ensures r == Verdict(geo, EntriesOf(fs, parent), e, image.Length)
  {
    hide Sound, EndsBy, IsParent, BaseOf, EntriesOf, ValidName, IsDirectory, Table, Off, Splice, EntryBytes, CanAdd, AddedIs, SlotOff, Zeros;
    ghost var img := image[..];
    ParentTable(img, geo, fs, parent);
    SoundGeometry(img, geo, fs);
    NextNotNegative(geo, fs, e.start);
    ShortName(e.name);
    SlotOffIs(geo, fs, parent);
    TableInside(img, base, Slots(geo), EntriesOf(fs, parent));
    TableRoom(img, base, Slots(geo), EntriesOf(fs, parent));
    var slot := FindFreeEntry(image[..], base, Slots(geo), e.name);
    FoundInTable(img, base, Slots(geo), e.name, EntriesOf(fs, parent), slot);
    if CanAdd(img, geo, fs, parent, e, data) { CanAddMeans(img, geo, fs, parent, e, data); }
    if slot.Taken? { return AlreadyExists; }
    if slot.Full? { return DirectoryFull; }
    if e.start >= 0x1_0000 || e.size >= 0x1_0000_0000 { return OutOfRange; }
    SlotAt(img, base, Slots(geo), EntriesOf(fs, parent), |EntriesOf(fs, parent)|);
    WriteEntry(image, slot.offset, e);
    ghost var mid := image[..];
    if SECTOR * e.start + e.size > image.Length { return PastEnd; }
    CanAddIs(img, geo, fs, parent, e, data);
    WriteBytes(image, SECTOR * e.start, data);
    AddedIsSplices(img, geo, fs, parent, e, data, slot.offset, mid, image[..]);
    r := Done;
  }

  lemma BatchNext(img: seq<int>, geo: Geometry, fs: Fs, cur: seq<int>, now: Fs, parent: Option<int>, files: seq<NewFile>, executable: bool, n: int, e: Entry, last: seq<int>)
    requires Batch(img, geo, fs, cur, now, parent, files, executable, n, e.start) && 0 <= n < |files|
    requires CanAdd(cur, geo, now, parent, e, files[n].data) && e.flags == (if executable then 1 else 0) && e.name == files[n].name
    requires AddedIs(cur, geo, now, parent, e, files[n].data, last)
    ensures Batch(img, geo, fs, last, AddTo(now, parent, e), parent, files, executable, n + 1, e.start + SectorsOf(e.size))
  {
    BatchMore(img, geo, fs, cur, now, parent, files, executable, n, e);
    hide Batch, CanAdd, Added, AddTo, SlotOff, IsDirectory, SectorsOf;
  }

  // ----- When a whole batch can be added -----

  function SectorsFor(files: seq<NewFile>): int {
    if files == [] then 0 else SectorsFor(files[..|files| - 1]) + SectorsOf(|files[|files| - 1].data|)
  }

  /** The entry of the `i`-th file when the first one starts at `first`. */
  function FileEntry(files: seq<NewFile>, flags: int, first: int, i: int): Entry
    requires 0 <= i < |files|
  {
    Entry(files[i].name, flags, first + SectorsFor(files[..i]), |files[i].data|)
  }

  function FileEntries(files: seq<NewFile>, flags: int, first: int, n: int): (r: seq<Entry>)
    requires 0 <= n <= |files|
    ensures |r| == n
  {
    seq(n, i requires 0 <= i < n => FileEntry(files, flags, first, i))
  }

  /** A file has numbers that its entry can hold, and ends inside the image. */
  predicate InImage(e: Entry, length: int) {
    e.start < 0x1_0000 && e.size < 0x1_0000_0000 && SECTOR * e.start + e.size <= length
  }

  /** The first `n` files have slots, new names, and room. */
  ghost predicate FilesFit(geo: Geometry, entries: seq<Entry>, files: seq<NewFile>, flags: int, first: int, length: int, n: int) {
    && 0 <= n <= |files| && (n > 0 ==> |entries| + n <= Slots(geo))
    && (forall i :: 0 <= i < n ==> InImage(FileEntry(files, flags, first, i), length))
    && (forall i, k :: 0 <= i < n && 0 <= k < |entries| ==> entries[k].name != files[i].name)
    && (forall i, j :: 0 <= i < j < n ==> files[i].name != files[j].name)
  }

  lemma CanAddIff(img: seq<int>, geo: Geometry, fs: Fs, parent: Option<int>, e: Entry, data: seq<int>)
    requires Sound(img, geo, fs) && IsParent(fs, parent) && EndsBy(geo, fs, e.start) && e.start >= 0 && !IsDirectory(e)
    requires ValidName(e.name) && IsByte(e.flags) && |data| == e.size
    ensures CanAdd(img, geo, fs, parent, e, data) <==>
      && InImage(e, |img|) && |EntriesOf(fs, parent)| < Slots(geo)
      && forall k :: 0 <= k < |EntriesOf(fs, parent)| ==> EntriesOf(fs, parent)[k].name != e.name
  {
    hide Sound, IsParent, EndsBy, IsDirectory, ValidName, EntriesOf;
  }

  /** With `n` files added, the next one can be added if and only if it fits too. */
  lemma FitsMore(geo: Geometry, entries: seq<Entry>, now: seq<Entry>, files: seq<NewFile>, flags: int, first: int, length: int, n: int)
    requires 0 <= n < |files| && FilesFit(geo, entries, files, flags, first, length, n) && now == entries + FileEntries(files, flags, first, n)
    ensures FilesFit(geo, entries, files, flags, first, length, n + 1) <==>
      && InImage(FileEntry(files, flags, first, n), length) && |now| < Slots(geo)
      && forall k :: 0 <= k < |now| ==> now[k].name != files[n].name
  {
    hide InImage, SectorsFor;
    var added := FileEntries(files, flags, first, n);
    forall i | 0 <= i < n ensures now[|entries| + i].name == files[i].name {
      assert now[|entries| + i] == added[i] == FileEntry(files, flags, first, i);
    }
    forall k | 0 <= k < |entries| ensures now[k] == entries[k] {}
    forall k | 0 <= k < |now| ensures k >= |entries| ==> now[k].name == files[k - |entries|].name {
      if k >= |entries| { assert now[|entries| + (k - |entries|)].name == files[k - |entries|].name; }
    }
  }

  lemma FitsLess(geo: Geometry, entries: seq<Entry>, files: seq<NewFile>, flags: int, first: int, length: int, m: int, n: int)
    requires FilesFit(geo, entries, files, flags, first, length, n) && 0 <= m <= n
    ensures FilesFit(geo, entries, files, flags, first, length, m)
  {
    hide InImage, FileEntry;
  }

  lemma FileEntriesMore(files: seq<NewFile>, flags: int, first: int, n: int)
    requires 0 <= n < |files|
    ensures FileEntries(files, flags, first, n + 1) == FileEntries(files, flags, first, n) + [FileEntry(files, flags, first, n)]
    ensures SectorsFor(files[..n + 1]) == SectorsFor(files[..n]) + SectorsOf(|files[n].data|)
  {
    assert files[..n + 1][..n] == files[..n];
    hide SectorsOf;
  }

  lemma NoEntriesYet(geo: Geometry, entries: seq<Entry>, files: seq<NewFile>, flags: int, first: int, length: int)
    ensures FilesFit(geo, entries, files, flags, first, length, 0) && entries + FileEntries(files, flags, first, 0) == entries && SectorsFor(files[..0]) == 0
  {
  }

  /** The entries that stand in the directory behind those it had: one for each file, in
      order, executable as the call says, each starting behind the sectors of the files
      before it, with the contents of the file. */
  ghost predicate Appended(img: seq<int>, fs: Fs, after: Fs, parent: Option<int>, files: seq<NewFile>, executable: bool, first: int) {
    && EntriesOf(fs, parent) <= EntriesOf(after, parent) && |EntriesOf(after, parent)| == |EntriesOf(fs, parent)| + |files|
    && forall i {:trigger AppendedAt(img, fs, after, parent, files, executable, first, i)} :: 0 <= i < |files| ==>
         AppendedAt(img, fs, after, parent, files, executable, first, i)
  }

  ghost predicate AppendedAt(img: seq<int>, fs: Fs, after: Fs, parent: Option<int>, files: seq<NewFile>, executable: bool, first: int, i: int)
    requires 0 <= i < |files| && |EntriesOf(after, parent)| == |EntriesOf(fs, parent)| + |files|
  {
    EntryFor(img, EntriesOf(after, parent)[|EntriesOf(fs, parent)| + i], files[i], executable, first + SectorsFor(files[..i]))
  }

  ghost predicate EntryFor(img: seq<int>, e: Entry, f: NewFile, executable: bool, start: int) {
    && e.name == f.name && e.flags == (if executable then 1 else 0) && e.start == start && e.size == |f.data|
    && DataOf(img, e) == f.data
  }

  /** The byte lies in one of the first `n` files. */
  ghost predicate InFile(files: seq<NewFile>, first: int, n: int, b: int) {
    exists i :: 0 <= i < n && i < |files| && InExtent(files, first, i, b)
  }

  ghost predicate InExtent(files: seq<NewFile>, first: int, i: int, b: int)
    requires 0 <= i < |files|
  {
    var start := SECTOR * (first + SectorsFor(files[..i]));
    start <= b < start + |files[i].data|
  }

  /** Outside the new entries, which start at byte `slots`, and the new files, no byte
      has changed. */
  ghost predicate Elsewhere(img: seq<int>, img': seq<int>, slots: int, files: seq<NewFile>, first: int, n: int) {
    |img'| == |img| && forall b :: 0 <= b < |img| && !(slots <= b < slots + ENTRY * n) && !InFile(files, first, n, b) ==> img'[b] == img[b]
  }

  lemma SpliceElsewhere(img: seq<int>, at: int, data: seq<int>, b: int)
    requires 0 <= at && at + |data| <= |img| && 0 <= b < |img| && !(at <= b < at + |data|)
    ensures Splice(img, at, data)[b] == img[b]
  {
  }

  lemma ElsewhereMore(img: seq<int>, cur: seq<int>, last: seq<int>, geo: Geometry, fs: Fs, parent: Option<int>, slots: int, files: seq<NewFile>, flags: int, first: int, n: int)
    requires Elsewhere(img, cur, slots, files, first, n) && 0 <= n < |files|
    requires SlotOff(geo, fs, parent) == slots + ENTRY * n
    requires AddedIs(cur, geo, fs, parent, FileEntry(files, flags, first, n), files[n].data, last)
    ensures Elsewhere(img, last, slots, files, first, n + 1)
  {
    var e := FileEntry(files, flags, first, n);
    var at := SlotOff(geo, fs, parent);
    var mid := Splice(cur, at, EntryBytes(e));
    assert last == Splice(mid, SECTOR * e.start, files[n].data);
    hide SlotOff, EntryBytes, Splice, SectorsFor;
    forall b | 0 <= b < |img| && !(slots <= b < slots + ENTRY * (n + 1)) && !InFile(files, first, n + 1, b) ensures last[b] == img[b] {
      assert !InExtent(files, first, n, b);
      assert !(SECTOR * e.start <= b < SECTOR * e.start + |files[n].data|);
      SpliceElsewhere(cur, at, EntryBytes(e), b);
      SpliceElsewhere(mid, SECTOR * e.start, files[n].data, b);
      assert !InFile(files, first, n, b);
    }
  }

  lemma ElsewhereSelf(img: seq<int>, slots: int, files: seq<NewFile>, first: int)
    ensures Elsewhere(img, img, slots, files, first, 0)
  {
  }

  /** The first file that does not fit decides the answer. */
  ghost predicate FilesAnswer(geo: Geometry, entries: seq<Entry>, files: seq<NewFile>, flags: int, first: int, length: int, r: Status) {
    if FilesFit(geo, entries, files, flags, first, length, |files|) then r == Done
    else exists n :: 0 <= n < |files| && FirstMisfit(geo, entries, files, flags, first, length, n, r)
  }

  ghost predicate FirstMisfit(geo: Geometry, entries: seq<Entry>, files: seq<NewFile>, flags: int, first: int, length: int, n: int, r: Status)
    requires 0 <= n < |files|
  {
    && FilesFit(geo, entries, files, flags, first, length, n) && r != Done
    && r == Verdict(geo, entries + FileEntries(files, flags, first, n), FileEntry(files, flags, first, n), length)
  }

  /** What has been appended, from the entries and from what is stored. */
  lemma AppendedIs(img: seq<int>, geo: Geometry, fs: Fs, after: Fs, parent: Option<int>, files: seq<NewFile>, executable: bool, first: int)
    requires Sound(img, geo, after) && IsParent(after, parent)
    requires EntriesOf(after, parent) == EntriesOf(fs, parent) + FileEntries(files, if executable then 1 else 0, first, |files|)
    requires forall i :: 0 <= i < |files| ==> Stored(img, after, parent, OnDisk(files[i], executable))
    ensures Appended(img, fs, after, parent, files, executable, first)
  {
    UniqueIn(img, geo, after, parent);
    hide Sound, EntriesOf, Stored, IsParent, AppendedAt, FileEntries, UniqueNames;
    forall i | 0 <= i < |files| ensures AppendedAt(img, fs, after, parent, files, executable, first, i) {
      AppendedHere(img, fs, after, parent, files, executable, first, i);
    }
  }

  lemma AppendedHere(img: seq<int>, fs: Fs, after: Fs, parent: Option<int>, files: seq<NewFile>, executable: bool, first: int, i: int)
    requires UniqueNames(EntriesOf(after, parent)) && 0 <= i < |files|
    requires EntriesOf(after, parent) == EntriesOf(fs, parent) + FileEntries(files, if executable then 1 else 0, first, |files|)
    requires Stored(img, after, parent, OnDisk(files[i], executable))
    ensures AppendedAt(img, fs, after, parent, files, executable, first, i)
  {
    hide EntriesOf, Stored, SectorsFor, UniqueNames, DataOf;
    var flags := if executable then 1 else 0;
    var n := |EntriesOf(fs, parent)|;
    assert EntriesOf(after, parent)[n + i] == FileEntries(files, flags, first, |files|)[i];
    StoredHere(img, after, parent, OnDisk(files[i], executable), n + i);
  }

  lemma StoredHere(img: seq<int>, fs: Fs, parent: Option<int>, f: FileOnDisk, k: int)
    requires Stored(img, fs, parent, f) && UniqueNames(EntriesOf(fs, parent))
    requires 0 <= k < |EntriesOf(fs, parent)| && EntriesOf(fs, parent)[k].name == f.name
    ensures DataOf(img, EntriesOf(fs, parent)[k]) == f.data
  {
    hide DataOf, EntriesOf;
    var j :| StoredAt(img, fs, parent, f, j);
  }

  method AddAll(image: array<int>, geo: Geometry, base: int, files: seq<NewFile>, executable: bool, next0: int,
                ghost img: seq<int>, ghost fs: Fs, ghost parent: Option<int>) returns (r: Status, ghost after: Fs, ghost last: int)
    requires Batch(img, geo, fs, image[..], fs, parent, files, executable, 0, next0) && base == BaseOf(geo, fs, parent)
    requires forall i :: 0 <= i < |files| ==> ValidName(files[i].name)
    modifies image
    ensures r.Done? ==> Batch(img, geo, fs, image[..], after, parent, files, executable, |files|, last)
    ensures FilesAnswer(geo, EntriesOf(fs, parent), files, if executable then 1 else 0, next0, |img|, r)
    ensures r.Done? ==> EntriesOf(after, parent) == EntriesOf(fs, parent) + FileEntries(files, if executable then 1 else 0, next0, |files|)
    ensures r.Done? ==> Elsewhere(old(image[..]), image[..], Off(base, |EntriesOf(fs, parent)|), files, next0, |files|)
  {
    hide *;
    after, last := fs, next0;
    var next := next0;
    var flags := if executable then 1 else 0;
    FlagsOfFile(executable);
    ghost var entries0 := EntriesOf(fs, parent);
    ghost var was, slots := image[..], Off(base, |entries0|);
    NoEntriesYet(geo, entries0, files, flags, next0, |img|);
    ElsewhereSelf(was, slots, files, next0);
    for n := 0 to |files|
      invariant Batch(img, geo, fs, image[..], after, parent, files, executable, n, next) && last == next
      invariant FilesFit(geo, entries0, files, flags, next0, |img|, n) && next == next0 + SectorsFor(files[..n])
      invariant EntriesOf(after, parent) == entries0 + FileEntries(files, flags, next0, n)
      invariant Elsewhere(was, image[..], slots, files, next0, n)
    {
      ghost var cur := image[..];
      BatchFacts(img, geo, fs, cur, after, parent, files, executable, n, next);
      var e := Entry(files[n].name, flags, next, |files[n].data|);
      EntryIs(files, flags, next0, n, e);
      CanAddIff(cur, geo, after, parent, e, files[n].data);
      FitsMore(geo, entries0, EntriesOf(after, parent), files, flags, next0, |img|, n);
      if FilesFit(geo, entries0, files, flags, next0, |img|, |files|) { FitsLess(geo, entries0, files, flags, next0, |img|, n + 1, |files|); }
      r := AddOne(image, geo, base, e, files[n].data, after, parent);
      if !r.Done? {
        MisfitIs(geo, entries0, files, flags, next0, |img|, n, r);
        return;
      }
      SlotOffIs(geo, after, parent);
      OffIs(base, |entries0|, n);
      ElsewhereMore(was, cur, image[..], geo, after, parent, slots, files, flags, next0, n);
      SoundGeometry(cur, geo, after);
      LastEntry(after, parent, e);
      FileEntriesMore(files, flags, next0, n);
      assert entries0 + FileEntries(files, flags, next0, n) + [e] == entries0 + (FileEntries(files, flags, next0, n) + [e]);
      BatchNext(img, geo, fs, cur, after, parent, files, executable, n, e, image[..]);
      after := AddTo(after, parent, e);
      next := next + SectorsOf(|files[n].data|);
      last := next;
    }
    r := Done;
    AllFitIs(geo, entries0, files, flags, next0, |img|);
  }

  lemma OffIs(base: int, k: int, n: int)
    ensures Off(base, k + n) == Off(base, k) + ENTRY * n
  {
  }

  lemma AllFitIs(geo: Geometry, entries: seq<Entry>, files: seq<NewFile>, flags: int, first: int, length: int)
    requires FilesFit(geo, entries, files, flags, first, length, |files|)
    ensures FilesAnswer(geo, entries, files, flags, first, length, Done)
  {
  }

  lemma MisfitIs(geo: Geometry, entries: seq<Entry>, files: seq<NewFile>, flags: int, first: int, length: int, n: int, r: Status)
    requires 0 <= n < |files| && FilesFit(geo, entries, files, flags, first, length, n) && r != Done
    requires !FilesFit(geo, entries, files, flags, first, length, |files|)
    requires r == Verdict(geo, entries + FileEntries(files, flags, first, n), FileEntry(files, flags, first, n), length)
    ensures FilesAnswer(geo, entries, files, flags, first, length, r)
  {
    hide FilesFit, Verdict, FileEntry, FileEntries;
    assert FirstMisfit(geo, entries, files, flags, first, length, n, r);
  }

  lemma EntryIs(files: seq<NewFile>, flags: int, first: int, n: int, e: Entry)
    requires 0 <= n < |files| && e == Entry(files[n].name, flags, first + SectorsFor(files[..n]), |files[n].data|)
    ensures e == FileEntry(files, flags, first, n)
  {
  }

  lemma RootIsParent(fs: Fs, geo: Geometry)
    ensures IsParent(fs, None) && BaseOf(geo, fs, None) == SECTOR * geo.root
  {
  }

  lemma SubBase(geo: Geometry, fs: Fs, j: int)
    requires 0 <= j < |fs.root|
    ensures BaseOf(geo, fs, Some(j)) == SECTOR * fs.root[j].start
  {
  }

  // ----- From an empty directory, over any sequence of additions -----

  /** An image whose root table is all zeros is sound and holds nothing. */
  lemma EmptyIsSound(img: seq<int>, geo: Geometry)
    requires geo.root >= 0 && geo.sectors >= 1 && SECTOR * (geo.root + geo.sectors) <= |img|
    requires forall k :: SECTOR * geo.root <= k < SECTOR * (geo.root + geo.sectors) ==> img[k] == 0
    ensures Sound(img, geo, Fs([], []))
  {
    ZeroTable(img, SECTOR * geo.root, Slots(geo));
  }

  /** The file of that name in that directory has that size and those bytes. */
  ghost predicate Readable(img: seq<int>, fs: Fs, directory: Option<seq<int>>, f: FileOnDisk) {
    if directory.None? then Stored(img, fs, None, f)
    else exists j :: 0 <= j < |fs.root| && InDirectory(img, fs, directory.value, j, f)
  }

  ghost predicate InDirectory(img: seq<int>, fs: Fs, name: seq<int>, j: int, f: FileOnDisk)
    requires 0 <= j < |fs.root|
  {
    fs.root[j].name == name && IsParent(fs, Some(j)) && Stored(img, fs, Some(j), f)
  }

  lemma GrowsParent(fs: Fs, after: Fs, j: int)
    requires Grows(fs, after) && IsParent(fs, Some(j))
    ensures IsParent(after, Some(j)) && 0 <= j < |fs.root| <= |after.root| && after.root[j] == fs.root[j]
  {
    hide IsDirectory;
  }

  lemma ReadableStays(img: seq<int>, fs: Fs, img': seq<int>, after: Fs, directory: Option<seq<int>>, f: FileOnDisk)
    requires Readable(img, fs, directory, f) && Kept(img, fs, img', after) && Grows(fs, after)
    ensures Readable(img', after, directory, f)
  {
    hide Kept, Stored, IsParent, Grows;
    if directory.None? {
      assert IsParent(fs, None) by { IsParentRoot(fs); }
      StoredStill(img, fs, img', after, None, f);
    } else {
      var j :| 0 <= j < |fs.root| && InDirectory(img, fs, directory.value, j, f);
      StoredStill(img, fs, img', after, Some(j), f);
      GrowsParent(fs, after, j);
      assert InDirectory(img', after, directory.value, j, f);
    }
  }

  lemma IsParentRoot(fs: Fs)
    ensures IsParent(fs, None)
  {
  }

  /** What one call of the tool asks for. */
  datatype Request = AddFilesTo(directory: Option<seq<int>>, files: seq<NewFile>, executable: bool, allowEmpty: bool) | MakeDirectoryNamed(name: seq<int>)

  predicate HostNames(q: Request) {
    if q.AddFilesTo? then forall i :: 0 <= i < |q.files| ==> HostName(q.files[i].name) else HostName(q.name)
  }

  /** What a successful request has brought about. */
  ghost predicate Served(img: seq<int>, fs: Fs, q: Request) {
    match q
    case AddFilesTo(directory, files, executable, _) => forall i :: 0 <= i < |files| ==> Readable(img, fs, directory, OnDisk(files[i], executable))
    case MakeDirectoryNamed(name) => exists j :: DirectoryAt(fs, name, j)
  }

  ghost predicate DirectoryAt(fs: Fs, name: seq<int>, j: int) {
    0 <= j < |fs.root| && fs.root[j].name == name && IsParent(fs, Some(j))
  }

  lemma ServedStays(img: seq<int>, fs: Fs, img': seq<int>, after: Fs, q: Request)
    requires Served(img, fs, q) && Kept(img, fs, img', after) && Grows(fs, after)
    ensures Served(img', after, q)
  {
    hide Kept, Readable, Grows, IsParent;
    match q
    case AddFilesTo(directory, files, executable, _) =>
      forall i | 0 <= i < |files| ensures Readable(img', after, directory, OnDisk(files[i], executable)) {
        ReadableStays(img, fs, img', after, directory, OnDisk(files[i], executable));
      }
    case MakeDirectoryNamed(name) =>
      var j :| DirectoryAt(fs, name, j);
      GrowsParent(fs, after, j);
      assert DirectoryAt(after, name, j);
  }

  lemma FilesServed(img: seq<int>, fs: Fs, parent: Option<int>, q: Request)
    requires q.AddFilesTo? && (q.files != [] ==> IsParent(fs, parent)) && forall i :: 0 <= i < |q.files| ==> Stored(img, fs, parent, OnDisk(q.files[i], q.executable))
    requires q.files != [] && q.directory.None? ==> parent.None?
    requires q.files != [] && q.directory.Some? ==> parent.Some? && 0 <= parent.value < |fs.root| && fs.root[parent.value].name == q.directory.value
    ensures Served(img, fs, q)
  {
    hide Stored, IsParent;
    forall i | 0 <= i < |q.files| ensures Readable(img, fs, q.directory, OnDisk(q.files[i], q.executable)) {
      if q.directory.Some? { assert InDirectory(img, fs, q.directory.value, parent.value, OnDisk(q.files[i], q.executable)); }
    }
  }

  /** A lookup by name gives the bytes that were stored. */
  lemma StoredIsFound(img: seq<int>, fs: Fs, parent: Option<int>, f: FileOnDisk, found: Option<Entry>)
    requires Stored(img, fs, parent, f) && forall k :: 0 <= k < |EntriesOf(fs, parent)| && EntriesOf(fs, parent)[k].name == f.name ==> found == Some(EntriesOf(fs, parent)[k])
    ensures found.Some? && IsFile(img, found.value, f)
  {
    var k :| StoredAt(img, fs, parent, f, k);
    hide DataOf, IsDirectory, EntriesOf;
  }

  lemma UniqueIn(img: seq<int>, geo: Geometry, fs: Fs, parent: Option<int>)
    requires Sound(img, geo, fs) && IsParent(fs, parent)
    ensures UniqueNames(EntriesOf(fs, parent))
  {
    hide Holds, Disjoint, EntriesFit, UniqueNames, IsDirectory;
  }

  /** There is one directory of each name. */
  lemma SameDirectory(fs: Fs, i: int, j: int)
    requires UniqueNames(fs.root) && 0 <= i < |fs.root| && 0 <= j < |fs.root| && fs.root[i].name == fs.root[j].name
    ensures i == j
  {
  }

  /** Every file can be added: names are proper and not too long, no file is empty unless
      that is allowed, the directory is there, and all fit behind `first`. */
  ghost predicate AllCanBeAdded(geo: Geometry, fs: Fs, directory: Option<seq<int>>, files: seq<NewFile>, executable: bool, allowEmpty: bool,
                                first: int, length: int)
  {
    && (forall i :: 0 <= i < |files| ==> ValidName(files[i].name) && (files[i].data != [] || allowEmpty))
    && var flags := if executable then 1 else 0;
    if directory.None? then FilesFit(geo, fs.root, files, flags, first, length, |files|)
    else exists j :: 0 <= j < |fs.root| && DirectoryAt(fs, directory.value, j) && FilesFit(geo, EntriesOf(fs, Some(j)), files, flags, first, length, |files|)
  }

  lemma AllCanIff(geo: Geometry, fs: Fs, directory: Option<seq<int>>, files: seq<NewFile>, executable: bool, allowEmpty: bool, first: int, length: int,
                  parent: Option<int>)
    requires UniqueNames(fs.root) && forall i :: 0 <= i < |files| ==> ValidName(files[i].name) && (files[i].data != [] || allowEmpty)
    requires if directory.None? then parent.None? else parent.Some? && DirectoryAt(fs, directory.value, parent.value)
    ensures AllCanBeAdded(geo, fs, directory, files, executable, allowEmpty, first, length)
      <==> FilesFit(geo, EntriesOf(fs, parent), files, if executable then 1 else 0, first, length, |files|)
  {
    hide FilesFit, ValidName, IsParent, UniqueNames;
    var flags := if executable then 1 else 0;
    if directory.Some? {
      forall j | 0 <= j < |fs.root| && DirectoryAt(fs, directory.value, j) ensures j == parent.value { SameDirectory(fs, j, parent.value); }
    }
  }

  lemma NoSuchParent(geo: Geometry, fs: Fs, directory: Option<seq<int>>, files: seq<NewFile>, executable: bool, allowEmpty: bool, first: int, length: int)
    requires directory.Some? && forall k :: 0 <= k < |fs.root| && fs.root[k].name == directory.value ==> !IsDirectory(fs.root[k])
    ensures !AllCanBeAdded(geo, fs, directory, files, executable, allowEmpty, first, length)
  {
    hide FilesFit, ValidName;
  }

  lemma DirectoryIs(fs: Fs, name: seq<int>, j: int)
    requires 0 <= j < |fs.root| && fs.root[j].name == name && IsParent(fs, Some(j))
    ensures DirectoryAt(fs, name, j)
  {
  }

  lemma NamesRefused(geo: Geometry, fs: Fs, directory: Option<seq<int>>, files: seq<NewFile>, executable: bool, allowEmpty: bool, first: int, length: int)
    requires !forall i :: 0 <= i < |files| ==> ValidName(files[i].name) && (files[i].data != [] || allowEmpty)
    ensures !AllCanBeAdded(geo, fs, directory, files, executable, allowEmpty, first, length)
  {
    hide FilesFit, ValidName;
  }

  lemma RootUnique(img: seq<int>, geo: Geometry, fs: Fs)
    requires Sound(img, geo, fs)
    ensures UniqueNames(fs.root)
  {
    hide Holds, Disjoint, EntriesFit, UniqueNames;
  }

  /** No root entry of that name is a directory. */
  ghost predicate NoDirectory(fs: Fs, name: seq<int>) {
    forall k :: 0 <= k < |fs.root| && fs.root[k].name == name ==> !IsDirectory(fs.root[k])
  }

  /** `parent` is the directory that the call names. */
  ghost predicate ParentFor(fs: Fs, directory: Option<seq<int>>, parent: Option<int>) {
    if directory.None? then parent.None? else parent.Some? && DirectoryAt(fs, directory.value, parent.value)
  }

  /** The answer to a call that adds files: names and contents are looked at first, then
      the directory, then the files in their order. */
  ghost predicate AddAnswer(geo: Geometry, fs: Fs, directory: Option<seq<int>>, parent: Option<int>, files: seq<NewFile>, executable: bool,
                            allowEmpty: bool, first: int, length: int, r: Status)
  {
    if files == [] then r == Done
    else if exists i :: 0 <= i < |files| && !Admitted(files[i], allowEmpty) then NamesAnswer(files, allowEmpty, r)
    else if directory.Some? && NoDirectory(fs, directory.value) then r == NoSuchDirectory
    else ParentFor(fs, directory, parent) && FilesAnswer(geo, EntriesOf(fs, parent), files, if executable then 1 else 0, first, length, r)
  }

  lemma AnswersEarly(geo: Geometry, fs: Fs, directory: Option<seq<int>>, parent: Option<int>, files: seq<NewFile>, executable: bool,
                     allowEmpty: bool, first: int, length: int, r: Status)
    requires files != [] && NamesAnswer(files, allowEmpty, r)
    ensures r != Done ==> AddAnswer(geo, fs, directory, parent, files, executable, allowEmpty, first, length, r)
    ensures r == Done && directory.Some? && NoDirectory(fs, directory.value) ==>
      AddAnswer(geo, fs, directory, parent, files, executable, allowEmpty, first, length, NoSuchDirectory)
  {
    hide NoDirectory, Admitted, FilesAnswer;
  }

  lemma NoFilesAnswer(geo: Geometry, fs: Fs, directory: Option<seq<int>>, parent: Option<int>, executable: bool, allowEmpty: bool, first: int, length: int)
    ensures AddAnswer(geo, fs, directory, parent, [], executable, allowEmpty, first, length, Done)
  {
  }

  lemma AnswersLate(geo: Geometry, fs: Fs, directory: Option<seq<int>>, parent: Option<int>, files: seq<NewFile>, executable: bool,
                    allowEmpty: bool, first: int, length: int, r: Status)
    requires files != [] && NamesAnswer(files, allowEmpty, Done) && ParentFor(fs, directory, parent)
    requires FilesAnswer(geo, EntriesOf(fs, parent), files, if executable then 1 else 0, first, length, r)
    ensures AddAnswer(geo, fs, directory, parent, files, executable, allowEmpty, first, length, r)
  {
    hide FilesAnswer, Admitted, IsDirectory;
    if directory.Some? { assert DirectoryAt(fs, directory.value, parent.value); }
  }

  lemma ParentForIs(fs: Fs, directory: Option<seq<int>>, parent: Option<int>)
    requires if directory.None? then parent.None? else parent.Some? && DirectoryAt(fs, directory.value, parent.value)
    ensures ParentFor(fs, directory, parent)
  {
  }

  lemma AnswerDone(geo: Geometry, entries: seq<Entry>, files: seq<NewFile>, flags: int, first: int, length: int, r: Status)
    requires FilesAnswer(geo, entries, files, flags, first, length, r)
    ensures r.Done? <==> FilesFit(geo, entries, files, flags, first, length, |files|)
  {
    hide FilesFit, Verdict, FileEntry, FileEntries;
  }

  // ----- One call as a step -----

  datatype Moment = Moment(image: seq<int>, fs: Fs)

  function NewDirectory(geo: Geometry, name: seq<int>, first: int): Entry { Entry(name, DIRECTORY, first, SECTOR * geo.sectors) }

  /** The call can be served when everything new starts at sector `first`. */
  ghost predicate Accepted(geo: Geometry, before: Moment, q: Request, first: int) {
    match q
    case AddFilesTo(directory, files, executable, allowEmpty) =>
      files == [] || AllCanBeAdded(geo, before.fs, directory, files, executable, allowEmpty, first, |before.image|)
    case MakeDirectoryNamed(name) =>
      geo.sectors >= 0 && |name| <= NAME_MAX && CanAdd(before.image, geo, before.fs, None, NewDirectory(geo, name, first), Zeros(SECTOR * geo.sectors))
  }

  /** What a served call has changed, and that it has changed nothing else. */
  ghost predicate Brings(geo: Geometry, before: Moment, q: Request, parent: Option<int>, first: int, after: Moment) {
    match q
    case AddFilesTo(directory, files, executable, _) =>
      if files == [] then after == before
      else
        && ParentFor(before.fs, directory, parent) && Extends(before.fs, after.fs, parent, |files|)
        && Appended(after.image, before.fs, after.fs, parent, files, executable, first)
        && Elsewhere(before.image, after.image, SlotOff(geo, before.fs, parent), files, first, |files|)
    case MakeDirectoryNamed(name) =>
      && geo.sectors >= 0 && after.fs == AddTo(before.fs, None, NewDirectory(geo, name, first))
      && AddedIs(before.image, geo, before.fs, None, NewDirectory(geo, name, first), Zeros(SECTOR * geo.sectors), after.image)
  }

  /** One call is served exactly when it can be, and leaves everything as it was
      otherwise. */
  ghost predicate Performs(geo: Geometry, before: Moment, q: Request, done: bool, after: Moment) {
    exists parent, first :: PerformsAt(geo, before, q, parent, first, done, after)
  }

  ghost predicate PerformsAt(geo: Geometry, before: Moment, q: Request, parent: Option<int>, first: int, done: bool, after: Moment) {
    && EndsBy(geo, before.fs, first) && Attained(geo, before.fs, first)
    && (done <==> Accepted(geo, before, q, first))
    && (if done then Brings(geo, before, q, parent, first, after) else after == before)
  }

  /** Each call takes one moment to the next. */
  ghost predicate Chain(geo: Geometry, moments: seq<Moment>, qs: seq<Request>, done: seq<bool>) {
    && |moments| == |qs| + 1 && |done| == |qs|
    && forall i {:trigger LinkAt(geo, moments, qs, done, i)} :: 0 <= i < |qs| ==> LinkAt(geo, moments, qs, done, i)
  }

  ghost predicate LinkAt(geo: Geometry, moments: seq<Moment>, qs: seq<Request>, done: seq<bool>, i: int)
    requires 0 <= i < |qs| && |moments| == |qs| + 1 && |done| == |qs|
  {
    Performs(geo, moments[i], qs[i], done[i], moments[i + 1])
  }

  lemma ChainGrows(geo: Geometry, moments: seq<Moment>, qs: seq<Request>, done: seq<bool>, q: Request, ok: bool, next: Moment)
    requires Chain(geo, moments, qs, done) && Performs(geo, moments[|qs|], q, ok, next)
    ensures Chain(geo, moments + [next], qs + [q], done + [ok])
  {
    hide Performs;
    forall i | 0 <= i < |qs + [q]| ensures LinkAt(geo, moments + [next], qs + [q], done + [ok], i) {
      if i < |qs| { assert LinkAt(geo, moments, qs, done, i); }
    }
  }

  lemma ChainStarts(geo: Geometry, start: Moment)
    ensures Chain(geo, [start], [], [])
  {
  }

  lemma FilesPerformed(geo: Geometry, before: Moment, q: Request, parent: Option<int>, first: int, done: bool, after: Moment)
    requires q.AddFilesTo? && EndsBy(geo, before.fs, first) && Attained(geo, before.fs, first)
    requires done <==> q.files == [] || AllCanBeAdded(geo, before.fs, q.directory, q.files, q.executable, q.allowEmpty, first, |before.image|)
    requires !done || q.files == [] ==> after == before
    requires done && q.files != [] ==> ParentFor(before.fs, q.directory, parent) && Extends(before.fs, after.fs, parent, |q.files|)
    requires done && q.files != [] ==> Appended(after.image, before.fs, after.fs, parent, q.files, q.executable, first)
    requires done && q.files != [] ==> Elsewhere(before.image, after.image, SlotOff(geo, before.fs, parent), q.files, first, |q.files|)
    ensures Performs(geo, before, q, done, after)
  {
    hide ParentFor, Extends, Appended, Elsewhere, AllCanBeAdded, EndsBy, Attained;
    assert PerformsAt(geo, before, q, parent, first, done, after);
  }

  lemma DirectoryPerformed(geo: Geometry, before: Moment, q: Request, first: int, done: bool, after: Moment)
    requires q.MakeDirectoryNamed? && EndsBy(geo, before.fs, first) && Attained(geo, before.fs, first) && SECTOR * geo.sectors >= 0
    requires done <==> |q.name| <= NAME_MAX && CanAdd(before.image, geo, before.fs, None, NewDirectory(geo, q.name, first), Zeros(SECTOR * geo.sectors))
    requires !done ==> after == before
    requires done ==> after.fs == AddTo(before.fs, None, NewDirectory(geo, q.name, first))
    requires done ==> AddedIs(before.image, geo, before.fs, None, NewDirectory(geo, q.name, first), Zeros(SECTOR * geo.sectors), after.image)
    ensures Performs(geo, before, q, done, after)
  {
    hide CanAdd, AddedIs, AddTo, EndsBy, Attained;
    assert PerformsAt(geo, before, q, None, first, done, after);
  }

  class Disk {
    var saved: seq<int>

    constructor (image: seq<int>)
      ensures saved == image
    {
      saved := image;
    }

    /** An image with nothing on it. */
    constructor Formatted(geo: Geometry, length: nat)
      requires geo.root >= 0 && geo.sectors >= 1 && SECTOR * (geo.root + geo.sectors) <= length
      ensures |saved| == length && Sound(saved, geo, Fs([], []))
    {
      saved := Zeros(length);
      EmptyIsSound(Zeros(length), geo);
    }

    /** Adds the files to a copy of the image; the copy is saved only if all could be
        added.  `first` is the sector behind everything that is there. */
    method AddFiles(geo: Geometry, directory: Option<seq<int>>, files: seq<NewFile>, executable: bool, allowEmpty: bool, ghost fs: Fs)
      returns (r: Status, ghost parent: Option<int>, ghost after: Fs, ghost first: int)
      requires Sound(saved, geo, fs) && forall i :: 0 <= i < |files| ==> HostName(files[i].name)
      modifies this
      ensures EndsBy(geo, fs, first) && Attained(geo, fs, first)
      ensures r.Done? <==> files == [] || AllCanBeAdded(geo, fs, directory, files, executable, allowEmpty, first, |old(saved)|)
      ensures AddAnswer(geo, fs, directory, parent, files, executable, allowEmpty, first, |old(saved)|, r)
      ensures !r.Done? || files == [] ==> saved == old(saved) && after == fs
      ensures r.Done? ==> |saved| == |old(saved)| && Sound(saved, geo, after) && Kept(old(saved), fs, saved, after) && Extends(fs, after, parent, |files|)
      ensures r.Done? && files != [] ==> Appended(saved, fs, after, parent, files, executable, first)
      ensures r.Done? && files != [] ==> Elsewhere(old(saved), saved, SlotOff(geo, fs, parent), files, first, |files|)
      ensures r.Done? && files != [] ==> IsParent(after, parent) && forall i :: 0 <= i < |files| ==> Stored(saved, after, parent, OnDisk(files[i], executable))
      ensures r.Done? && files != [] ==> ParentFor(fs, directory, parent)
    {
      hide *;
      r, parent, after := Done, None, fs;
      KeptSelf(saved, fs);
      SoundGeometry(saved, geo, fs);
      RootIsParent(fs, geo);
      ExtendsSelf(fs, None);
      var next := ComputeNextDataSector(saved, geo, fs);
      first := next;
      if files == [] {
        NoFilesAnswer(geo, fs, directory, parent, executable, allowEmpty, first, |saved|);
        return;
      }
      r := CheckNames(files, allowEmpty);
      AnswersEarly(geo, fs, directory, parent, files, executable, allowEmpty, first, |saved|, r);
      if !r.Done? { NamesRefused(geo, fs, directory, files, executable, allowEmpty, first, |saved|); return; }
      var base := SECTOR * geo.root;
      if directory.Some? {
        var start;
        ghost var j;
        start, j := FindSubdirectory(saved, geo, directory.value, fs);
        if start.None? {
          NoSuchParent(geo, fs, directory, files, executable, allowEmpty, first, |saved|);
          NoDirectoryIs(fs, directory.value);
          r := NoSuchDirectory;
          return;
        }
        base := SECTOR * start.value;
        parent := Some(j);
        SubBase(geo, fs, j);
        DirectoryIs(fs, directory.value, j);
      }
      RootUnique(saved, geo, fs);
      ParentForIs(fs, directory, parent);
      SlotOffIs(geo, fs, parent);
      AllCanIff(geo, fs, directory, files, executable, allowEmpty, first, |saved|, parent);
      ghost var img := saved;
      BatchStarts(saved, geo, fs, parent, files, executable, next);
      var image := new int[|saved|](k requires 0 <= k < |saved| reads this => saved[k]);
      assert image[..] == saved;
      ghost var last;
      r, after, last := AddAll(image, geo, base, files, executable, next, img, fs, parent);
      AnswersLate(geo, fs, directory, parent, files, executable, allowEmpty, first, |img|, r);
      AnswerDone(geo, EntriesOf(fs, parent), files, if executable then 1 else 0, first, |img|, r);
      if r.Done? {
        BatchFacts(img, geo, fs, image[..], after, parent, files, executable, |files|, last);
        AppendedIs(image[..], geo, fs, after, parent, files, executable, first);
        saved := image[..];
      } else {
        after := fs;
      }
    }

    /** Adds an empty directory to the root. */
    method MakeDirectory(geo: Geometry, name: seq<int>, ghost fs: Fs) returns (r: Status, ghost after: Fs, ghost first: int)
      requires Sound(saved, geo, fs) && HostName(name)
      modifies this
      ensures EndsBy(geo, fs, first) && Attained(geo, fs, first)
      ensures r.Done? <==> |name| <= NAME_MAX && CanAdd(old(saved), geo, fs, None, NewDirectory(geo, name, first), Zeros(SECTOR * geo.sectors))
      ensures r == if |name| > NAME_MAX then NameTooLong else Verdict(geo, fs.root, NewDirectory(geo, name, first), |old(saved)|)
      ensures !r.Done? ==> saved == old(saved) && after == fs
      ensures r.Done? ==> after == AddTo(fs, None, NewDirectory(geo, name, first))
      ensures r.Done? ==> AddedIs(old(saved), geo, fs, None, NewDirectory(geo, name, first), Zeros(SECTOR * geo.sectors), saved)
      ensures r.Done? ==> |saved| == |old(saved)| && Sound(saved, geo, after) && Kept(old(saved), fs, saved, after)
      ensures r.Done? ==> Extends(fs, after, None, 1) && IsParent(after, Some(|fs.root|))
      ensures r.Done? ==> |after.root| == |fs.root| + 1 && after.root[|fs.root|] == Entry(name, DIRECTORY, first, SECTOR * geo.sectors)
      ensures r.Done? ==> EntriesOf(after, Some(|fs.root|)) == []
    {
      hide *;
      r, after := Done, fs;
      HostIsValid(name);
      var next := ComputeNextDataSector(saved, geo, fs);
      first := next;
      if |name| > NAME_MAX { r := NameTooLong; return; }
      ghost var img := saved;
      SoundGeometry(saved, geo, fs);
      RootIsParent(fs, geo);
      var image := new int[|saved|](k requires 0 <= k < |saved| reads this => saved[k]);
      assert image[..] == saved;
      var e := Entry(name, DIRECTORY, next, SECTOR * geo.sectors);
      DirectoryBytes(geo);
      DirectoryFlags(e);
      NewDirectoryIs(geo, name, next, fs);
      r := AddOne(image, geo, SECTOR * geo.root, e, Zeros(SECTOR * geo.sectors), fs, None);
      if r.Done? {
        DirectoryAdded(img, geo, fs, e, Zeros(SECTOR * geo.sectors), image[..]);
        after := AddTo(fs, None, e);
        saved := image[..];
      }
    }

    /** One call of the tool. */
    method Perform(geo: Geometry, q: Request, ghost fs: Fs) returns (done: bool, ghost after: Fs)
      requires Sound(saved, geo, fs) && HostNames(q)
      modifies this
      ensures Sound(saved, geo, after) && Kept(old(saved), fs, saved, after) && Grows(fs, after)
      ensures done ==> Served(saved, after, q)
      ensures Performs(geo, Moment(old(saved), fs), q, done, Moment(saved, after))
    {
      hide *;
      SoundGeometry(saved, geo, fs);
      RootIsParent(fs, geo);
      KeptSelf(saved, fs);
      ExtendsSelf(fs, None);
      ExtendsGrows(fs, fs, None, 0);
      HostNamesAre(q);
      DirectoryBytes(geo);
      ghost var before := Moment(saved, fs);
      var r;
      if q.AddFilesTo? {
        ghost var parent, first;
        r, parent, after, first := AddFiles(geo, q.directory, q.files, q.executable, q.allowEmpty, fs);
        if r.Done? {
          ExtendsGrows(fs, after, parent, |q.files|);
          ParentNamed(fs, after, parent);
          if q.files != [] { ParentForGives(fs, q.directory, parent); }
          FilesServed(saved, after, parent, q);
        }
        FilesPerformed(geo, before, q, parent, first, r.Done?, Moment(saved, after));
      } else {
        ghost var first;
        r, after, first := MakeDirectory(geo, q.name, fs);
        if r.Done? {
          ExtendsGrows(fs, after, None, 1);
          DirectoryServed(saved, after, q, |fs.root|);
        }
        DirectoryPerformed(geo, before, q, first, r.Done?, Moment(saved, after));
      }
      done := r.Done?;
    }

    /** Any sequence of calls: each one takes the image as the call before it left it, the
        image stays sound, and what any successful call has stored so far is there at the
        end, whatever came after it. */
    method PerformAll(geo: Geometry, qs: seq<Request>, ghost fs0: Fs) returns (done: seq<bool>, ghost fs: Fs, ghost moments: seq<Moment>)
      requires Sound(saved, geo, fs0) && forall i :: 0 <= i < |qs| ==> HostNames(qs[i])
      modifies this
      ensures |done| == |qs| && Sound(saved, geo, fs) && Kept(old(saved), fs0, saved, fs) && Grows(fs0, fs)
      ensures forall i :: 0 <= i < |qs| && done[i] ==> Served(saved, fs, qs[i])
      ensures Chain(geo, moments, qs, done) && |moments| == |qs| + 1 && moments[0] == Moment(old(saved), fs0) && moments[|qs|] == Moment(saved, fs)
    {
      hide *;
      done, fs := [], fs0;
      moments := [Moment(saved, fs)];
      ChainStarts(geo, Moment(saved, fs));
      SoundGeometry(saved, geo, fs);
      RootIsParent(fs, geo);
      KeptSelf(saved, fs);
      ExtendsSelf(fs, None);
      ExtendsGrows(fs, fs, None, 0);
      for n := 0 to |qs|
        invariant |done| == n && Sound(saved, geo, fs) && Kept(old(saved), fs0, saved, fs) && Grows(fs0, fs)
        invariant forall i :: 0 <= i < n && done[i] ==> Served(saved, fs, qs[i])
        invariant Chain(geo, moments, qs[..n], done) && |moments| == n + 1 && moments[0] == Moment(old(saved), fs0) && moments[n] == Moment(saved, fs)
      {
        ghost var img, before := saved, fs;
        var ok;
        ok, fs := Perform(geo, qs[n], fs);
        KeptThen(old(saved), fs0, img, before, saved, fs);
        GrowsThen(fs0, before, fs);
        forall i | 0 <= i < n && done[i] ensures Served(saved, fs, qs[i]) { ServedStays(img, before, saved, fs, qs[i]); }
        ChainGrows(geo, moments, qs[..n], done, qs[n], ok, Moment(saved, fs));
        assert qs[..n + 1] == qs[..n] + [qs[n]];
        done, moments := done + [ok], moments + [Moment(saved, fs)];
      }
      assert qs[..|qs|] == qs;
    }

    /** Finds a file by directory and name and reads its bytes. */
    method ReadBack(geo: Geometry, directory: Option<seq<int>>, name: seq<int>, ghost fs: Fs) returns (data: Option<seq<int>>)
      requires Sound(saved, geo, fs)
      ensures forall f: FileOnDisk :: f.name == name && Readable(saved, fs, directory, f) ==> data == Some(f.data)
    {
      hide *;
      data := None;
      ghost var parent: Option<int> := None;
      var base := SECTOR * geo.root;
      RootIsParent(fs, geo);
      SoundGeometry(saved, geo, fs);
      if directory.Some? {
        var start;
        ghost var j;
        start, j := FindSubdirectory(saved, geo, directory.value, fs);
        if start.None? { NoneReadable(saved, fs, directory.value); return; }
        base := SECTOR * start.value;
        parent := Some(j);
        SubBase(geo, fs, j);
      }
      ParentTable(saved, geo, fs, parent);
      UniqueIn(saved, geo, fs, parent);
      var found := FindEntry(saved, base, Slots(geo), name, EntriesOf(fs, parent));
      if found.Some? && !IsDirectory(found.value) {
        data := Some(DataOf(saved, found.value));
      }
      forall f: FileOnDisk | f.name == name && Readable(saved, fs, directory, f) ensures data == Some(f.data) {
        ReadableIsStored(saved, geo, fs, directory, parent, f);
        StoredIsFound(saved, fs, parent, f, found);
        FileIs(saved, found.value, f);
      }
    }
  }

  lemma NoDirectoryIs(fs: Fs, name: seq<int>)
    requires forall k :: 0 <= k < |fs.root| && fs.root[k].name == name ==> !IsDirectory(fs.root[k])
    ensures NoDirectory(fs, name)
  {
  }

  lemma NewDirectoryIs(geo: Geometry, name: seq<int>, first: int, fs: Fs)
    ensures NewDirectory(geo, name, first) == Entry(name, DIRECTORY, first, SECTOR * geo.sectors) && EntriesOf(fs, None) == fs.root
  {
  }

  lemma ParentForGives(fs: Fs, directory: Option<seq<int>>, parent: Option<int>)
    requires ParentFor(fs, directory, parent)
    ensures directory.None? ==> parent.None?
    ensures directory.Some? ==> parent.Some? && 0 <= parent.value < |fs.root| && fs.root[parent.value].name == directory.value
  {
  }

  lemma HostNamesAre(q: Request)
    ensures HostNames(q) == if q.AddFilesTo? then forall i :: 0 <= i < |q.files| ==> HostName(q.files[i].name) else HostName(q.name)
  {
  }

  /** An old directory keeps its name. */
  lemma ParentNamed(fs: Fs, after: Fs, parent: Option<int>)
    requires Grows(fs, after)
    ensures parent.Some? && 0 <= parent.value < |fs.root| ==> |fs.root| <= |after.root| && after.root[parent.value].name == fs.root[parent.value].name
  {
  }

  lemma DirectoryServed(img: seq<int>, fs: Fs, q: Request, j: int)
    requires q.MakeDirectoryNamed? && 0 <= j < |fs.root| && fs.root[j].name == q.name && IsParent(fs, Some(j))
    ensures Served(img, fs, q)
  {
    assert DirectoryAt(fs, q.name, j);
    hide IsParent;
  }

  lemma NoneReadable(img: seq<int>, fs: Fs, name: seq<int>)
    requires forall k :: 0 <= k < |fs.root| && fs.root[k].name == name ==> !IsDirectory(fs.root[k])
    ensures forall f: FileOnDisk :: !Readable(img, fs, Some(name), f)
  {
    hide IsDirectory, Stored;
    forall f: FileOnDisk, j | 0 <= j < |fs.root| ensures !InDirectory(img, fs, name, j, f) {}
  }

  lemma ReadableIsStored(img: seq<int>, geo: Geometry, fs: Fs, directory: Option<seq<int>>, parent: Option<int>, f: FileOnDisk)
    requires Sound(img, geo, fs) && Readable(img, fs, directory, f) && directory.Some? == parent.Some?
    requires parent.Some? ==> 0 <= parent.value < |fs.root| && fs.root[parent.value].name == directory.value
    ensures Stored(img, fs, parent, f)
  {
    hide Stored, UniqueNames;
    if directory.Some? {
      var j :| 0 <= j < |fs.root| && InDirectory(img, fs, directory.value, j, f);
      UniqueIn(img, geo, fs, None) by { IsParentRoot(fs); }
      SameDirectory(fs, j, parent.value);
      hide Sound;
    }
  }

  lemma FileIs(img: seq<int>, e: Entry, f: FileOnDisk)
    requires IsFile(img, e, f)
    ensures !IsDirectory(e) && DataOf(img, e) == f.data
  {
    hide DataOf;
  }

  lemma DirectoryBytes(geo: Geometry)
    requires geo.sectors >= 1
    ensures SECTOR * geo.sectors >= 0
  {
  }

  lemma HostIsValid(name: seq<int>)
    requires HostName(name)
    ensures |name| <= NAME_MAX ==> ValidName(name)
  {
  }

  lemma DirectoryFlags(e: Entry)
    requires e.flags == DIRECTORY
    ensures IsDirectory(e) && IsByte(e.flags)
  {
  }

  lemma DirectoryAdded(img: seq<int>, geo: Geometry, fs: Fs, e: Entry, data: seq<int>, last: seq<int>)
    requires CanAdd(img, geo, fs, None, e, data) && IsDirectory(e) && AddedIs(img, geo, fs, None, e, data, last)
    ensures var after := AddTo(fs, None, e);
      && |last| == |img| && Sound(last, geo, after) && Kept(img, fs, last, after)
      && Extends(fs, after, None, 1) && |after.root| == |fs.root| + 1 && after.root[|fs.root|] == e
      && IsParent(after, Some(|fs.root|)) && EntriesOf(after, Some(|fs.root|)) == []
  {
    AddSound(img, geo, fs, None, e, data);
    AddKeeps(img, geo, fs, None, e, data);
    CanAddParent(img, geo, fs, None, e, data);
    ExtendsSelf(fs, None);
    ExtendsMore(fs, fs, None, 0, e);
    hide CanAdd, Sound, Holds, Disjoint, EndsBy, EntriesFit, NamesUnique, EntryFits, Kept, Stored, Added, IsDirectory, SlotOff;
  }
}
