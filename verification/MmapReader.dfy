/** Reading the hot-stat file back: the linear probe the format describes
    (crates/vrift-ipc/src/lib.rs:999-1011) and the child ranges of the directory index, against the
    entry list the builder was given. */
module MmapReader {
  import opened Bytes
  import opened ProbeTable
  import opened MmapImage
  import opened MmapBuilder
  import opened Utf8
  import Bloom

  function HeaderOf(b: Bytes): Header
    requires |b| >= HEADER_SIZE
  {
    Header(ReadU32(b, 0), ReadU32(b, 4), ReadU32(b, 8), ReadU32(b, 12), ReadU32(b, 16), ReadU32(b, 20),
           ReadU32(b, 24), ReadU32(b, 28), ReadU32(b, 32), ReadU32(b, 36))
  }

  lemma {:induction false} HeaderRoundTrip(b: Bytes, h: Header)
    requires |b| >= HEADER_SIZE && b[..HEADER_SIZE] == HeaderBytes(h)
    ensures HeaderOf(b) == h
  {
    var hb := HeaderBytes(h);
    FieldsOfHeader(h);
    ReadInPrefix(b, 0, h.magic);
    ReadInPrefix(b, 4, h.version);
    ReadInPrefix(b, 8, h.entryCount);
    ReadInPrefix(b, 12, h.bloomOffset);
    ReadInPrefix(b, 16, h.tableOffset);
    ReadInPrefix(b, 20, h.tableCapacity);
    ReadInPrefix(b, 24, h.dirIndexOffset);
    ReadInPrefix(b, 28, h.dirIndexCapacity);
    ReadInPrefix(b, 32, h.childrenOffset);
    ReadInPrefix(b, 36, h.childrenCount);
  }

  lemma {:induction false} ReadInPrefix(b: Bytes, at: nat, x: u32)
    requires at + 4 <= HEADER_SIZE <= |b| && b[..HEADER_SIZE][at..at + 4] == ToLE(x, 4)
    ensures ReadU32(b, at) == x
  {
    assert b[at..at + 4] == b[..HEADER_SIZE][at..at + 4];
    ReadBackU32(b, at, x);
  }

  lemma {:induction false} FieldsOfHeader(h: Header)
    ensures var b := HeaderBytes(h);
            && b[0..4] == ToLE(h.magic, 4) && b[4..8] == ToLE(h.version, 4) && b[8..12] == ToLE(h.entryCount, 4)
            && b[12..16] == ToLE(h.bloomOffset, 4) && b[16..20] == ToLE(h.tableOffset, 4)
            && b[20..24] == ToLE(h.tableCapacity, 4) && b[24..28] == ToLE(h.dirIndexOffset, 4)
            && b[28..32] == ToLE(h.dirIndexCapacity, 4) && b[32..36] == ToLE(h.childrenOffset, 4)
            && b[36..40] == ToLE(h.childrenCount, 4)
  {
  }

  // ---------------------------------------------------------------- the reader

  /** The sections a header names lie inside the file. */
  predicate Fits(b: Bytes, h: Header) {
    && h.tableCapacity > 0 && h.tableOffset + h.tableCapacity * STAT_SIZE <= |b|
    && h.dirIndexCapacity > 0 && h.dirIndexOffset + h.dirIndexCapacity * DIR_SIZE <= |b|
    && h.childrenOffset + h.childrenCount * CHILD_SIZE <= |b|
  }

  function StatRecord(b: Bytes, h: Header, slot: nat): StatEntry
    requires Fits(b, h) && slot < h.tableCapacity
  {
    StatOf(Records(b, h.tableOffset, h.tableCapacity, STAT_SIZE)[slot])
  }

  /** The stat of a path hash. */
  function LookupStat(b: Bytes, h: Header, hash: nat): Option<StatEntry>
    requires Fits(b, h)
  {
    match Find(TableAt(b, h.tableOffset, h.tableCapacity, STAT_SIZE), hash, 0)
    case None => None
    case Some(s) => Some(StatRecord(b, h, s))
  }

  /** The children of a directory hash. */
  function ListDir(b: Bytes, h: Header, hash: nat): Option<seq<Child>>
    requires Fits(b, h)
  {
    match Find(TableAt(b, h.dirIndexOffset, h.dirIndexCapacity, DIR_SIZE), hash, 0)
    case None => None
    case Some(s) =>
      var d := DirOf(Records(b, h.dirIndexOffset, h.dirIndexCapacity, DIR_SIZE)[s]);
      if d.childrenStart + d.childrenCount > h.childrenCount then None
      else Some(ChildrenIn(Records(b, h.childrenOffset, h.childrenCount, CHILD_SIZE), d.childrenStart, d.childrenCount))
  }

  function ChildrenIn(pool: seq<Bytes>, start: nat, count: nat): (cs: seq<Child>)
    requires start + count <= |pool| && forall i :: 0 <= i < |pool| ==> |pool[i]| == CHILD_SIZE
    ensures |cs| == count
  {
    seq(count, j requires 0 <= j < count => ChildOf(pool[start + j]))
  }

  // ---------------------------------------------------------------- the pool is tiled

  /** Entries that have a parent directory, among the first `n`. */
  function Parented(fns: PathFns, es: Entries, n: nat): nat
    requires n <= |es|
  {
    if n == 0 then 0
    else Parented(fns, es, n - 1) + (if ParentKey(fns, es[n - 1].0).Some? then 1 else 0)
  }

  function KidCount(fns: PathFns, es: Entries, order: seq<Bytes>, n: nat, k: nat): nat
    requires n <= |es| && k <= |order|
  {
    if k == 0 then 0 else KidCount(fns, es, order, n, k - 1) + |KidsOf(fns, es, order[k - 1], n)|
  }

  lemma {:induction false} KidCountStep(fns: PathFns, es: Entries, order: seq<Bytes>, n: nat, k: nat)
    requires 0 < n <= |es| && k <= |order|
    requires forall i, j :: 0 <= i < j < |order| ==> order[i] != order[j]
    ensures var p := ParentKey(fns, es[n - 1].0);
            KidCount(fns, es, order, n, k)
            == KidCount(fns, es, order, n - 1, k) + (if p.Some? && p.value in order[..k] then 1 else 0)
    decreases k
  {
    if k > 0 {
      KidCountStep(fns, es, order, n, k - 1);
      assert order[..k] == order[..k - 1] + [order[k - 1]];
      assert order[k - 1] !in order[..k - 1];
    }
  }

  lemma {:induction false} KidCountIsParented(fns: PathFns, es: Entries, order: seq<Bytes>, n: nat)
    requires n <= |es|
    requires forall i, j :: 0 <= i < j < |order| ==> order[i] != order[j]
    requires forall i :: 0 <= i < n ==> var p := ParentKey(fns, es[i].0); p.Some? ==> p.value in order
    ensures KidCount(fns, es, order, n, |order|) == Parented(fns, es, n)
    decreases n
  {
    if n == 0 {
      NoKidsYet(fns, es, order, |order|);
    } else {
      KidCountIsParented(fns, es, order, n - 1);
      KidCountStep(fns, es, order, n, |order|);
      assert order[..|order|] == order;
    }
  }

  lemma {:induction false} NoKidsYet(fns: PathFns, es: Entries, order: seq<Bytes>, k: nat)
    requires k <= |order|
    ensures KidCount(fns, es, order, 0, k) == 0
  {
    if k > 0 {
      NoKidsYet(fns, es, order, k - 1);
    }
  }

  lemma {:induction false} StartIsKidCount(fns: PathFns, es: Entries, m: DirMap, order: seq<Bytes>, k: nat)
    requires IsGrouping(fns, es, |es|, m) && AllIn(m, order) && k <= |order|
    ensures Start(m, order, k) == KidCount(fns, es, order, |es|, k) >= k
  {
    if k > 0 {
      StartIsKidCount(fns, es, m, order, k - 1);
    }
  }

  lemma {:induction false} ParentedAtMost(fns: PathFns, es: Entries, n: nat)
    requires n <= |es|
    ensures Parented(fns, es, n) <= n
  {
    if n > 0 {
      ParentedAtMost(fns, es, n - 1);
    }
  }

  lemma {:induction false} ParentIsInOrder(fns: PathFns, es: Entries, m: DirMap, order: seq<Bytes>, i: nat)
    requires IsGrouping(fns, es, |es|, m) && IsOrder(m, order) && i < |es|
    ensures var p := ParentKey(fns, es[i].0); p.Some? ==> p.value in order
  {
    var p := ParentKey(fns, es[i].0);
    if p.Some? {
      KidsAreComplete(fns, es, p.value, |es|, i);
    }
  }

  /** In every iteration order the child ranges follow one another without gap or overlap, and
      together they are as long as the number of entries that have a parent. */
  lemma {:induction false} RangesTileThePool(fns: PathFns, es: Entries, m: DirMap, order: seq<Bytes>)
    requires IsGrouping(fns, es, |es|, m) && IsOrder(m, order)
    ensures Start(m, order, 0) == 0
    ensures forall k :: 0 <= k < |order| ==>
              Start(m, order, k + 1) == Start(m, order, k) + |KidsOf(fns, es, order[k], |es|)|
    ensures Start(m, order, |order|) == Parented(fns, es, |es|) <= |es|
    ensures |order| <= |es|
  {
    forall i | 0 <= i < |es|
      ensures var p := ParentKey(fns, es[i].0); p.Some? ==> p.value in order
    {
      ParentIsInOrder(fns, es, m, order, i);
    }
    KidCountIsParented(fns, es, order, |es|);
    StartIsKidCount(fns, es, m, order, |order|);
    ParentedAtMost(fns, es, |es|);
  }

  /** Record `Start(k) + j` of the pool is the `j`-th child of the `k`-th directory. */
  lemma {:induction false} PoolAt(es: Entries, slots: seq<nat>, m: DirMap, order: seq<Bytes>, n: nat, k: nat, j: nat)
    requires AllIn(m, order) && MapValid(m, |es|) && |slots| == |es| && k < n <= |order| && j < |m[order[k]]|
    ensures Start(m, order, k) + j < |Pool(es, slots, m, order, n)|
    ensures Pool(es, slots, m, order, n)[Start(m, order, k) + j] == ChildBytes(MakeChild(es, slots, m[order[k]][j]))
    decreases n
  {
    if n > k + 1 {
      PoolAt(es, slots, m, order, n - 1, k, j);
    }
  }

  // ---------------------------------------------------------------- reading an image

  /** The header the builder writes for `n` entries in `dirs` directories with `kids` children. */
  function ImageHeader(n: nat, dirs: nat, kids: nat): Header {
    NewHeader(U32(n), TableCapacity(n), DirCapacity(dirs), U32(kids))
  }

  /** The header read from an image is the one the builder wrote. */
  lemma {:induction false} HeaderIsRead(b: Bytes, es: Entries, bloom: Bytes, dirs: nat, kids: nat)
    requires HasPreamble(b, es, bloom, dirs, kids)
    ensures |b| >= HEADER_SIZE && HeaderOf(b) == ImageHeader(|es|, dirs, kids)
  {
    HeaderRoundTrip(b, ImageHeader(|es|, dirs, kids));
  }

  /** It names the sections where the builder put them, up to the end of the file. */
  lemma {:induction false} HeaderNamesSections(b: Bytes, es: Entries, dirs: nat, kids: nat)
    requires |es| < 0x1_0000_0000 && kids < 0x1_0000_0000
    requires |b| == FileSize(TableCapacity(|es|), DirCapacity(dirs), kids)
    ensures var h := ImageHeader(|es|, dirs, kids);
            && h.entryCount == |es|
            && h.tableOffset == STAT_OFFSET && h.tableCapacity == TableCapacity(|es|)
            && h.dirIndexOffset == DirOffset(es) && h.dirIndexCapacity == DirCapacity(dirs)
            && h.childrenOffset == PoolOffset(es, dirs) && h.childrenCount == kids
            && h.childrenOffset + kids * CHILD_SIZE == |b|
            && Fits(b, h)
  {
    SectionsTileTheFile(U32(|es|), TableCapacity(|es|), DirCapacity(dirs), kids);
  }

  ghost predicate NonZeroHashes(es: Entries) {
    forall i :: 0 <= i < |es| ==> es[i].1.pathHash != 0
  }

  lemma {:induction false} StatSlotHash(es: Entries, i: nat)
    requires i < |es|
    ensures StatSlots(es)[i].hash == es[i].1.pathHash && StatSlots(es)[i].body == StatBytes(es[i].1)
  {
    var b := StatBytes(es[i].1);
    assert b[..8] == b[0..8] == ToLE(es[i].1.pathHash, 8);
    ReadBackU64(b, 0, es[i].1.pathHash);
  }

  lemma {:induction false} StatSlotsAreUsed(es: Entries)
    requires NonZeroHashes(es)
    ensures AllUsed(StatSlots(es)) && AllEmpty(EmptyTable(TableCapacity(|es|), STAT_SIZE))
  {
    EmptyTableIsEmpty(TableCapacity(|es|), STAT_SIZE);
    forall i | 0 <= i < |es|
      ensures !StatSlots(es)[i].IsFree()
    {
      StatSlotHash(es, i);
    }
  }

  /** No earlier entry has the path hash of entry `i`. */
  ghost predicate FirstOfItsHash(es: Entries, i: nat)
    requires i < |es|
  {
    forall j :: 0 <= j < i ==> es[j].1.pathHash != es[i].1.pathHash
  }

  /** Where the table keeps entry `i`, and that its hash leads there. */
  lemma {:induction false} SlotOfEntry(es: Entries, i: nat)
    requires NonZeroHashes(es) && i < |es| && i < MMAP_MAX_ENTRIES
    ensures var f := StatFill(es);
            && i < |f.slots| && f.slots[i] < |f.table| == TableCapacity(|es|)
            && f.table[f.slots[i]].body == StatBytes(es[i].1)
            && (FirstOfItsHash(es, i) ==> Find(f.table, es[i].1.pathHash, 0) == Some(f.slots[i]))
  {
    StatSlotsAreUsed(es);
    var rs := StatSlots(es);
    var empty := EmptyTable(TableCapacity(|es|), STAT_SIZE);
    EveryRecordHasItsSlot(empty, rs);
    assert StatFill(es) == Fill(empty, rs, |rs|) && |rs| == |es| && |empty| == TableCapacity(|es|) > i;
    assert HasSlot(Fill(empty, rs, |rs|), rs, i);
    StatSlotHash(es, i);
    if FirstOfItsHash(es, i) {
      forall j | 0 <= j < i
        ensures rs[j].hash != rs[i].hash
      {
        StatSlotHash(es, j);
      }
      FindsFirstAdded(empty, rs, i);
    }
  }

  lemma {:induction false} HashNotInTable(es: Entries, hash: nat)
    requires NonZeroHashes(es)
    requires forall i :: 0 <= i < |es| && i < MMAP_MAX_ENTRIES ==> es[i].1.pathHash != hash
    ensures Find(StatFill(es).table, hash, 0) == None
  {
    StatSlotsAreUsed(es);
    var rs := StatSlots(es);
    forall i | 0 <= i < |rs| && i < TableCapacity(|es|)
      ensures rs[i].hash != hash
    {
      StatSlotHash(es, i);
    }
    NeverAddedNeverFound(EmptyTable(TableCapacity(|es|), STAT_SIZE), rs, hash);
  }

  /** The stat table a reader with header `h` sees is the one filled from the entries. */
  ghost predicate ServesStats(b: Bytes, h: Header, es: Entries) {
    && Fits(b, h) && h.tableCapacity == TableCapacity(|es|)
    && TableAt(b, h.tableOffset, h.tableCapacity, STAT_SIZE) == StatFill(es).table
  }

  /** The directory index and child pool it sees are those of the directory map in some order. */
  ghost predicate ServesDirs(b: Bytes, h: Header, fns: PathFns, es: Entries, m: DirMap, order: seq<Bytes>) {
    && Fits(b, h) && AllIn(m, order) && MapValid(m, |es|) && h.dirIndexCapacity == DirCapacity(|order|)
    && TableAt(b, h.dirIndexOffset, h.dirIndexCapacity, DIR_SIZE) == DirFill(fns, m, order, |order|).table
    && Records(b, h.childrenOffset, h.childrenCount, CHILD_SIZE) == Pool(es, StatFill(es).slots, m, order, |order|)
  }

  /** Every image the builder writes is served through the header it holds. */
  lemma {:induction false} ImageIsServed(b: Bytes, fns: PathFns, es: Entries, bloom: Bytes, m: DirMap,
                                         order: seq<Bytes>)
    requires IsImage(b, fns, es, bloom, m, order) && |es| < 0x1_0000_0000
    ensures |b| >= HEADER_SIZE && ServesStats(b, HeaderOf(b), es) && ServesDirs(b, HeaderOf(b), fns, es, m, order)
  {
    var kids := Start(m, order, |order|);
    RangesTileThePool(fns, es, m, order);
    HeaderIsRead(b, es, bloom, |order|, kids);
    HeaderNamesSections(b, es, |order|, kids);
  }

  /** The stat index recorded for an entry is the slot that holds its own record. */
  lemma {:induction false} RecordIsStat(b: Bytes, h: Header, es: Entries, i: nat)
    requires ServesStats(b, h, es) && NonZeroHashes(es) && i < |es| && i < MMAP_MAX_ENTRIES
    ensures var s := StatFill(es).slots[i];
            s < h.tableCapacity && U32(s) == s && StatRecord(b, h, s) == es[i].1
  {
    SlotOfEntry(es, i);
    StatAtSlot(b, h, StatFill(es).slots[i], es[i].1);
  }

  lemma {:induction false} StatAtSlot(b: Bytes, h: Header, s: nat, e: StatEntry)
    requires Fits(b, h) && s < h.tableCapacity
    requires TableAt(b, h.tableOffset, h.tableCapacity, STAT_SIZE)[s].body == StatBytes(e)
    ensures StatRecord(b, h, s) == e
  {
    StatRoundTrip(e);
  }

  lemma {:induction false} DirAtSlot(b: Bytes, h: Header, s: nat, d: DirEntry)
    requires Fits(b, h) && s < h.dirIndexCapacity
    requires TableAt(b, h.dirIndexOffset, h.dirIndexCapacity, DIR_SIZE)[s].body == DirBytes(d)
    ensures DirOf(Records(b, h.dirIndexOffset, h.dirIndexCapacity, DIR_SIZE)[s]) == d
  {
    DirRoundTrip(d);
  }

  /** The stat found for a path hash is that of the entry added first under it, for the first 65536
      entries of any list. */
  lemma {:induction false} StatIsFound(b: Bytes, h: Header, es: Entries, i: nat)
    requires ServesStats(b, h, es) && NonZeroHashes(es)
    requires i < |es| && i < MMAP_MAX_ENTRIES && FirstOfItsHash(es, i)
    ensures LookupStat(b, h, es[i].1.pathHash) == Some(es[i].1)
  {
    RecordIsStat(b, h, es, i);
    SlotOfEntry(es, i);
  }

  /** A hash that none of the first 65536 entries has is never found: in particular not the hash of
      an entry beyond them. */
  lemma {:induction false} StatIsNotFound(b: Bytes, h: Header, es: Entries, hash: nat)
    requires ServesStats(b, h, es) && NonZeroHashes(es)
    requires forall i :: 0 <= i < |es| && i < MMAP_MAX_ENTRIES ==> es[i].1.pathHash != hash
    ensures LookupStat(b, h, hash) == None
  {
    HashNotInTable(es, hash);
  }

  ghost predicate Serves(b: Bytes, h: Header, es: Entries, i: nat)
    requires Fits(b, h) && i < |es|
  {
    LookupStat(b, h, es[i].1.pathHash) == Some(es[i].1)
  }

  /** With distinct hashes, the file serves every entry exactly when there are at most 65536. */
  lemma {:induction false} ServesEveryEntryExactly(b: Bytes, h: Header, es: Entries)
    requires ServesStats(b, h, es) && NonZeroHashes(es)
    requires forall i :: 0 <= i < |es| ==> FirstOfItsHash(es, i)
    ensures (forall i :: 0 <= i < |es| ==> Serves(b, h, es, i)) <==> |es| <= MMAP_MAX_ENTRIES
  {
    if |es| <= MMAP_MAX_ENTRIES {
      forall i | 0 <= i < |es|
        ensures Serves(b, h, es, i)
      {
        StatIsFound(b, h, es, i);
      }
    } else {
      assert FirstOfItsHash(es, MMAP_MAX_ENTRIES);
      StatIsNotFound(b, h, es, es[MMAP_MAX_ENTRIES].1.pathHash);
      assert !Serves(b, h, es, MMAP_MAX_ENTRIES);
    }
  }

  /** Past 65536 entries, the recorded stat index is 0, the slot of one of the others. */
  lemma {:induction false} OverflowIndexIsWrong(es: Entries, i: nat)
    requires NonZeroHashes(es) && MMAP_MAX_ENTRIES <= i < |es|
    ensures var slots := StatFill(es).slots; slots[i] == 0 && 0 in slots[..MMAP_MAX_ENTRIES]
  {
    StatSlotsAreUsed(es);
    EveryRecordHasItsSlot(EmptyTable(TableCapacity(|es|), STAT_SIZE), StatSlots(es));
  }

  // ---------------------------------------------------------------- listing a directory

  /** Directory hashes do not collide and none is the free mark. */
  ghost predicate GoodDirHashes(fns: PathFns, order: seq<Bytes>) {
    && (forall k :: 0 <= k < |order| ==> fns.hash(order[k]) != 0)
    && (forall j, k :: 0 <= j < k < |order| ==> fns.hash(order[j]) != fns.hash(order[k]))
  }

  lemma {:induction false} DirSlotHash(fns: PathFns, m: DirMap, order: seq<Bytes>, k: nat)
    requires AllIn(m, order) && k < |order|
    ensures DirSlots(fns, m, order)[k].hash == fns.hash(order[k])
    ensures DirSlots(fns, m, order)[k].body == DirBytes(DirRecord(fns, m, order, k))
  {
    var d := DirRecord(fns, m, order, k);
    var b := DirBytes(d);
    assert b[..8] == b[0..8] == ToLE(d.parentHash, 8);
    ReadBackU64(b, 0, d.parentHash);
  }

  /** The index record of a directory is found by its hash. */
  lemma {:induction false} DirIsFound(fns: PathFns, m: DirMap, order: seq<Bytes>, k: nat)
    requires AllIn(m, order) && k < |order| && k < MMAP_MAX_ENTRIES && GoodDirHashes(fns, order)
    ensures var f := DirFill(fns, m, order, |order|);
            && k < |f.slots| && f.slots[k] < |f.table|
            && f.table[f.slots[k]].body == DirBytes(DirRecord(fns, m, order, k))
            && Find(f.table, fns.hash(order[k]), 0) == Some(f.slots[k])
  {
    var rs := DirSlots(fns, m, order);
    var empty := EmptyTable(DirCapacity(|order|), DIR_SIZE);
    EmptyTableIsEmpty(DirCapacity(|order|), DIR_SIZE);
    forall j | 0 <= j < |order|
      ensures rs[j].hash == fns.hash(order[j])
    {
      DirSlotHash(fns, m, order, j);
    }
    assert AllUsed(rs);
    assert IsFirst(rs, k);
    DirSlotHash(fns, m, order, k);
    EveryRecordHasItsSlot(empty, rs);
    assert HasSlot(DirFill(fns, m, order, |order|), rs, k);
    FindsFirstAdded(empty, rs, k);
  }

  /** What a listing must show of an entry: its name as the field keeps it, and the slot of its stat
      record. */
  function ListedChild(fns: PathFns, es: Entries, slots: seq<nat>, i: nat): Child
    requires i < |es| && |slots| == |es|
  {
    Child(ListedName(fns.nameOf(es[i].0)), U32(slots[i]), es[i].1.IsDir())
  }

  /** What the listing of a directory must be: its entries, in entry order. */
  function Listing(fns: PathFns, es: Entries, slots: seq<nat>, ks: seq<Kid>): (cs: seq<Child>)
    requires KidsValid(ks, |es|) && |slots| == |es|
    ensures |cs| == |ks|
  {
    seq(|ks|, j requires 0 <= j < |ks| => ListedChild(fns, es, slots, ks[j].idx))
  }

  lemma {:induction false} PoolChild(fns: PathFns, es: Entries, slots: seq<nat>, m: DirMap, order: seq<Bytes>, k: nat,
                                     j: nat)
    requires AllIn(m, order) && MapValid(m, |es|) && k < |order| && |slots| == |es| && j < |m[order[k]]|
    requires m[order[k]][j].name == fns.nameOf(es[m[order[k]][j].idx].0)
    ensures Start(m, order, k) + j < Start(m, order, |order|)
    ensures var r := Pool(es, slots, m, order, |order|)[Start(m, order, k) + j];
            |r| == CHILD_SIZE && ChildOf(r) == ListedChild(fns, es, slots, m[order[k]][j].idx)
  {
    PoolAt(es, slots, m, order, |order|, k, j);
    ChildRoundTrip(MakeChild(es, slots, m[order[k]][j]));
  }

  lemma {:induction false} ChildrenMatch(pool: seq<Bytes>, start: nat, fns: PathFns, es: Entries, slots: seq<nat>,
                                         ks: seq<Kid>)
    requires KidsValid(ks, |es|) && |slots| == |es| && start + |ks| <= |pool|
    requires forall i :: 0 <= i < |pool| ==> |pool[i]| == CHILD_SIZE
    requires forall j :: 0 <= j < |ks| ==> ChildOf(pool[start + j]) == ListedChild(fns, es, slots, ks[j].idx)
    ensures ChildrenIn(pool, start, |ks|) == Listing(fns, es, slots, ks)
  {
  }

  lemma {:induction false} PoolIsListing(fns: PathFns, es: Entries, slots: seq<nat>, m: DirMap, order: seq<Bytes>,
                                         k: nat, pool: seq<Bytes>)
    requires AllIn(m, order) && MapValid(m, |es|) && k < |order| && |slots| == |es|
    requires pool == Pool(es, slots, m, order, |order|)
    requires forall i :: 0 <= i < |pool| ==> |pool[i]| == CHILD_SIZE
    requires m[order[k]] == KidsOf(fns, es, order[k], |es|)
    ensures Start(m, order, k) + |m[order[k]]| <= |pool|
    ensures ChildrenIn(pool, Start(m, order, k), |m[order[k]]|) == Listing(fns, es, slots, m[order[k]])
  {
    var ks, start := m[order[k]], Start(m, order, k);
    StartIsMonotone(m, order, k + 1, |order|);
    forall j | 0 <= j < |ks|
      ensures start + j < |pool| && ChildOf(pool[start + j]) == ListedChild(fns, es, slots, ks[j].idx)
    {
      KidsOfExactly(fns, es, order[k], |es|);
      PoolChild(fns, es, slots, m, order, k, j);
    }
    ChildrenMatch(pool, start, fns, es, slots, ks);
  }

  lemma {:induction false} ListDirAt(b: Bytes, h: Header, hash: nat, s: nat, d: DirEntry)
    requires Fits(b, h) && s < h.dirIndexCapacity
    requires Find(TableAt(b, h.dirIndexOffset, h.dirIndexCapacity, DIR_SIZE), hash, 0) == Some(s)
    requires DirOf(Records(b, h.dirIndexOffset, h.dirIndexCapacity, DIR_SIZE)[s]) == d
    requires d.childrenStart + d.childrenCount <= h.childrenCount
    ensures var pool := Records(b, h.childrenOffset, h.childrenCount, CHILD_SIZE);
            ListDir(b, h, hash) == Some(ChildrenIn(pool, d.childrenStart, d.childrenCount))
  {
  }

  lemma {:induction false} IndexRecord(b: Bytes, h: Header, fns: PathFns, es: Entries, m: DirMap, order: seq<Bytes>,
                                       k: nat)
    returns (s: nat)
    requires ServesDirs(b, h, fns, es, m, order)
    requires k < |order| && k < MMAP_MAX_ENTRIES && GoodDirHashes(fns, order)
    ensures s < h.dirIndexCapacity
    ensures Find(TableAt(b, h.dirIndexOffset, h.dirIndexCapacity, DIR_SIZE), fns.hash(order[k]), 0) == Some(s)
    ensures DirOf(Records(b, h.dirIndexOffset, h.dirIndexCapacity, DIR_SIZE)[s]) == DirRecord(fns, m, order, k)
  {
    DirIsFound(fns, m, order, k);
    s := DirFill(fns, m, order, |order|).slots[k];
    DirAtSlot(b, h, s, DirRecord(fns, m, order, k));
  }

  /** In every iteration order, listing one of the first 65536 directories gives exactly its entries. */
  lemma {:induction false} DirectoryIsListed(b: Bytes, h: Header, fns: PathFns, es: Entries, m: DirMap,
                                             order: seq<Bytes>, k: nat)
    requires ServesDirs(b, h, fns, es, m, order)
    requires Start(m, order, |order|) < 0x1_0000_0000
    requires k < |order| && k < MMAP_MAX_ENTRIES && GoodDirHashes(fns, order)
    requires m[order[k]] == KidsOf(fns, es, order[k], |es|)
    ensures var ks := KidsOf(fns, es, order[k], |es|);
            && KidsValid(ks, |es|)
            && ListDir(b, h, fns.hash(order[k])) == Some(Listing(fns, es, StatFill(es).slots, ks))
  {
    var s := IndexRecord(b, h, fns, es, m, order, k);
    KidsOfExactly(fns, es, order[k], |es|);
    RangeFits(m, order, k);
    DirRangeIsExact(fns, m, order, k);
    var pool := Records(b, h.childrenOffset, h.childrenCount, CHILD_SIZE);
    PoolIsListing(fns, es, StatFill(es).slots, m, order, k, pool);
    ListDirAt(b, h, fns.hash(order[k]), s, DirRecord(fns, m, order, k));
  }

  /** A directory beyond them is not found at all. */
  lemma {:induction false} DirectoryIsNotListed(b: Bytes, h: Header, fns: PathFns, es: Entries, m: DirMap,
                                                order: seq<Bytes>, k: nat)
    requires ServesDirs(b, h, fns, es, m, order) && GoodDirHashes(fns, order) && MMAP_MAX_ENTRIES <= k < |order|
    ensures ListDir(b, h, fns.hash(order[k])) == None
  {
    DirNotInTable(fns, m, order, k);
  }

  lemma {:induction false} DirNotInTable(fns: PathFns, m: DirMap, order: seq<Bytes>, k: nat)
    requires AllIn(m, order) && GoodDirHashes(fns, order) && MMAP_MAX_ENTRIES <= k < |order|
    ensures Find(DirFill(fns, m, order, |order|).table, fns.hash(order[k]), 0) == None
  {
    var rs := DirSlots(fns, m, order);
    var empty := EmptyTable(DirCapacity(|order|), DIR_SIZE);
    EmptyTableIsEmpty(DirCapacity(|order|), DIR_SIZE);
    forall j | 0 <= j < |rs|
      ensures !rs[j].IsFree() && (j < |empty| ==> rs[j].hash != fns.hash(order[k]))
    {
      DirSlotHash(fns, m, order, j);
    }
    NeverAddedNeverFound(empty, rs, fns.hash(order[k]));
  }

  /** So every directory is found exactly when there are at most 65536. */
  lemma {:induction false} ListsEveryDirectoryExactly(b: Bytes, h: Header, fns: PathFns, es: Entries, m: DirMap,
                                                      order: seq<Bytes>)
    requires ServesDirs(b, h, fns, es, m, order) && Start(m, order, |order|) < 0x1_0000_0000
    requires GoodDirHashes(fns, order)
    requires forall k :: 0 <= k < |order| ==> m[order[k]] == KidsOf(fns, es, order[k], |es|)
    ensures (forall k :: 0 <= k < |order| ==> ListDir(b, h, fns.hash(order[k])).Some?) <==> |order| <= MMAP_MAX_ENTRIES
  {
    if |order| <= MMAP_MAX_ENTRIES {
      forall k | 0 <= k < |order|
        ensures ListDir(b, h, fns.hash(order[k])).Some?
      {
        DirectoryIsListed(b, h, fns, es, m, order, k);
      }
    } else {
      DirectoryIsNotListed(b, h, fns, es, m, order, MMAP_MAX_ENTRIES);
    }
  }

  /** A listing shows every entry under its own name exactly when each name fits its field. */
  lemma {:induction false} ListsTrueNamesExactly(fns: PathFns, es: Entries, slots: seq<nat>, p: Bytes)
    requires |slots| == |es| && forall i | 0 <= i < |es| :: IsText(fns.nameOf(es[i].0))
    ensures var ks := KidsOf(fns, es, p, |es|);
            && KidsValid(ks, |es|)
            && ((forall j | 0 <= j < |ks| :: Listing(fns, es, slots, ks)[j].name == ks[j].name)
                <==> forall j | 0 <= j < |ks| :: FitsField(ks[j].name))
  {
    var ks := KidsOf(fns, es, p, |es|);
    KidsOfExactly(fns, es, p, |es|);
    forall j | 0 <= j < |ks|
      ensures Listing(fns, es, slots, ks)[j].name == ks[j].name <==> FitsField(ks[j].name)
    {
      NameIsReadExactly(fns.nameOf(es[ks[j].idx].0));
    }
  }

  lemma {:induction false} RangeFits(m: DirMap, order: seq<Bytes>, k: nat)
    requires AllIn(m, order) && k < |order| && Start(m, order, |order|) < 0x1_0000_0000
    ensures Start(m, order, k) + |m[order[k]]| < 0x1_0000_0000
  {
    StartIsMonotone(m, order, k + 1, |order|);
  }

  lemma {:induction false} DirRangeIsExact(fns: PathFns, m: DirMap, order: seq<Bytes>, k: nat)
    requires AllIn(m, order) && k < |order| && Start(m, order, k) + |m[order[k]]| < 0x1_0000_0000
    ensures DirRecord(fns, m, order, k).childrenStart == Start(m, order, k)
    ensures DirRecord(fns, m, order, k).childrenCount == |m[order[k]]|
  {
  }

  /** Each entry with a parent is among its parent's children, once; the parent is indexed. */
  lemma {:induction false} ListedOnce(fns: PathFns, es: Entries, m: DirMap, order: seq<Bytes>, i: nat)
    requires IsGrouping(fns, es, |es|, m) && IsOrder(m, order)
    requires i < |es| && ParentKey(fns, es[i].0).Some?
    ensures var p := ParentKey(fns, es[i].0).value;
            var ks := KidsOf(fns, es, p, |es|);
            && p in order && m[p] == ks
            && (exists j :: 0 <= j < |ks| && ks[j].idx == i)
            && (forall j, l :: 0 <= j < l < |ks| ==> ks[j].idx != ks[l].idx)
  {
    var p := ParentKey(fns, es[i].0).value;
    ParentIsInOrder(fns, es, m, order, i);
    KidsOfExactly(fns, es, p, |es|);
    KidsAreComplete(fns, es, p, |es|, i);
    var ks := KidsOf(fns, es, p, |es|);
    var j :| 0 <= j < |ks| && ks[j] == Kid(fns.nameOf(es[i].0), i);
    assert ks[j].idx == i;
  }

  /** From the builder to a lookup by path: whatever was added, the bytes written answer a path with
      the stat of its first entry, for the first 65536 entries and hashes that do not collide. */
  lemma {:induction false} WrittenIsFound(b: Bytes, fns: PathFns, es: Entries, bloom: Bytes, m: DirMap,
                                          order: seq<Bytes>, i: nat)
    requires IsImage(b, fns, es, bloom, m, order) && |es| < 0x1_0000_0000 && Hashed(fns, es)
    requires i < |es| && i < MMAP_MAX_ENTRIES && NonZeroHashes(es)
    requires forall j :: 0 <= j < i ==> es[j].0 != es[i].0
    requires forall j :: 0 <= j < i ==> fns.hash(es[j].0) == fns.hash(es[i].0) ==> es[j].0 == es[i].0
    ensures |b| >= HEADER_SIZE && Fits(b, HeaderOf(b)) && LookupStat(b, HeaderOf(b), fns.hash(es[i].0)) == Some(es[i].1)
  {
    ImageIsServed(b, fns, es, bloom, m, order);
    StatIsFound(b, HeaderOf(b), es, i);
  }

  /** A path that was not added, and whose hash no added path has, is not found. */
  lemma {:induction false} UnwrittenIsNotFound(b: Bytes, fns: PathFns, es: Entries, bloom: Bytes, m: DirMap,
                                               order: seq<Bytes>, path: Bytes)
    requires IsImage(b, fns, es, bloom, m, order) && |es| < 0x1_0000_0000 && Hashed(fns, es) && NonZeroHashes(es)
    requires forall j :: 0 <= j < |es| ==> fns.hash(es[j].0) != fns.hash(path)
    ensures |b| >= HEADER_SIZE && Fits(b, HeaderOf(b)) && LookupStat(b, HeaderOf(b), fns.hash(path)) == None
  {
    ImageIsServed(b, fns, es, bloom, m, order);
    StatIsNotFound(b, HeaderOf(b), es, fns.hash(path));
  }

  /** The filter section accepts every path that was added. */
  lemma {:induction false} FilterAcceptsPaths(es: Entries, bloom: Bytes, i: nat)
    requires bloom == Bloom.AddKeys(Zeros(BLOOM_SIZE), Paths(es)) && i < |es|
    ensures Bloom.Accepts(bloom, es[i].0)
  {
    assert Paths(es)[i] == es[i].0;
    Bloom.AcceptsExactly(BLOOM_SIZE, Paths(es), es[i].0);
  }
}
