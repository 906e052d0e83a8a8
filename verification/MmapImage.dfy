/** The hot-stat file: its records, its layout and its contents as a function of the entry list
    (crates/vrift-ipc/src/lib.rs, `ManifestMmapHeader`, `MmapStatEntry`, `MmapDirIndexEntry`,
    `MmapDirChild`, `mmap_file_size`). */
module MmapImage {
  import opened Bytes
  import opened ProbeTable
  import opened Utf8

  type u32 = x: nat | x < 0x1_0000_0000
  type u64 = x: nat | x < 0x1_0000_0000_0000_0000
  type i64 = x: int | -0x8000_0000_0000_0000 <= x < 0x8000_0000_0000_0000

  const MMAP_MAGIC: u32 := 0x504D4D56
  const MMAP_VERSION: u32 := 1
  const MMAP_MAX_ENTRIES := 65536

  const HEADER_SIZE := 40
  const STAT_SIZE := 40
  const DIR_SIZE := 16
  const CHILD_SIZE := 136

  /** `x as u32` */
  function U32(x: nat): (r: u32)
    ensures x < 0x1_0000_0000 ==> r == x
  {
    if x < 0x1_0000_0000 then x else x % 0x1_0000_0000
  }

  // ---------------------------------------------------------------- records

  datatype StatEntry = StatEntry(pathHash: u64, size: u64, mtime: i64, mtimeNsec: i64, mode: u32, flags: u32) {
    predicate IsDir() {
      flags % 2 == 1
    }
  }

  datatype DirEntry = DirEntry(parentHash: u64, childrenStart: u32, childrenCount: u32)

  datatype Child = Child(name: Bytes, statIndex: u32, isDir: bool)

  function Unsigned(x: i64): u64 {
    if x >= 0 then x else x + 0x1_0000_0000_0000_0000
  }

  function Signed(x: u64): i64 {
    if x < 0x8000_0000_0000_0000 then x else x - 0x1_0000_0000_0000_0000
  }

  function StatBytes(e: StatEntry): (b: Bytes)
    ensures |b| == STAT_SIZE
  {
    ToLE(e.pathHash, 8) + ToLE(e.size, 8) + ToLE(Unsigned(e.mtime), 8) + ToLE(Unsigned(e.mtimeNsec), 8)
    + ToLE(e.mode, 4) + ToLE(e.flags, 4)
  }

  function ReadU64(b: Bytes, at: nat): u64
    requires at + 8 <= |b|
  {
    FromLEBound(b[at..at + 8]);
    Pow256Values();
    FromLE(b[at..at + 8])
  }

  function ReadU32(b: Bytes, at: nat): u32
    requires at + 4 <= |b|
  {
    FromLEBound(b[at..at + 4]);
    Pow256Values();
    FromLE(b[at..at + 4])
  }

  function StatOf(b: Bytes): StatEntry
    requires |b| == STAT_SIZE
  {
    StatEntry(ReadU64(b, 0), ReadU64(b, 8), Signed(ReadU64(b, 16)), Signed(ReadU64(b, 24)), ReadU32(b, 32),
              ReadU32(b, 36))
  }

  function DirBytes(d: DirEntry): (b: Bytes)
    ensures |b| == DIR_SIZE
  {
    ToLE(d.parentHash, 8) + ToLE(d.childrenStart, 4) + ToLE(d.childrenCount, 4)
  }

  function DirOf(b: Bytes): DirEntry
    requires |b| == DIR_SIZE
  {
    DirEntry(ReadU64(b, 0), ReadU32(b, 8), ReadU32(b, 12))
  }

  /** The name is cut to 127 bytes and padded with zeros to 128. */
  function NameField(name: Bytes): (b: Bytes)
    ensures |b| == 128
  {
    if |name| <= 127 then name + Zeros(128 - |name|) else name[..127] + [0]
  }

  function ChildBytes(c: Child): (b: Bytes)
    ensures |b| == CHILD_SIZE
  {
    NameField(c.name) + ToLE(c.statIndex, 4) + [if c.isDir then 1 else 0] + [0, 0, 0]
  }

  /** Bytes up to the first zero. */
  function UntilZero(b: Bytes): (n: Bytes)
    ensures |n| <= |b|
  {
    if b == [] || b[0] == 0 then [] else [b[0]] + UntilZero(b[1..])
  }

  /** A name as `name_as_str` reads it: empty when the bytes are not a text. */
  function ReadName(b: Bytes): Bytes {
    AsStr(UntilZero(b))
  }

  function ChildOf(b: Bytes): Child
    requires |b| == CHILD_SIZE
  {
    Child(ReadName(b[..128]), ReadU32(b, 128), b[132] != 0)
  }

  lemma {:induction false} Pow256Values()
    ensures Pow256(4) == 0x1_0000_0000 && Pow256(8) == 0x1_0000_0000_0000_0000
  {
    assert Pow256(2) == 256 * 256 && Pow256(4) == 256 * 256 * Pow256(2);
    assert Pow256(6) == 256 * 256 * Pow256(4) && Pow256(8) == 256 * 256 * Pow256(6);
  }

  lemma {:induction false} FromLEBound(b: Bytes)
    ensures FromLE(b) < Pow256(|b|)
    decreases |b|
  {
    if b != [] {
      FromLEBound(b[1..]);
    }
  }

  lemma {:induction false} ReadBackU64(b: Bytes, at: nat, x: u64)
    requires at + 8 <= |b| && b[at..at + 8] == ToLE(x, 8)
    ensures ReadU64(b, at) == x
  {
    Pow256Values();
    LERoundTrip(x, 8);
  }

  lemma {:induction false} ReadBackU32(b: Bytes, at: nat, x: u32)
    requires at + 4 <= |b| && b[at..at + 4] == ToLE(x, 4)
    ensures ReadU32(b, at) == x
  {
    Pow256Values();
    LERoundTrip(x, 4);
  }

  lemma {:induction false} StatFields(e: StatEntry)
    ensures var b := StatBytes(e);
            && b[0..8] == ToLE(e.pathHash, 8) && b[8..16] == ToLE(e.size, 8)
            && b[16..24] == ToLE(Unsigned(e.mtime), 8) && b[24..32] == ToLE(Unsigned(e.mtimeNsec), 8)
            && b[32..36] == ToLE(e.mode, 4) && b[36..40] == ToLE(e.flags, 4)
  {
  }

  lemma {:induction false} StatRoundTrip(e: StatEntry)
    ensures StatOf(StatBytes(e)) == e
  {
    var b := StatBytes(e);
    StatFields(e);
    ReadBackU64(b, 0, e.pathHash);
    ReadBackU64(b, 8, e.size);
    ReadBackU64(b, 16, Unsigned(e.mtime));
    ReadBackU64(b, 24, Unsigned(e.mtimeNsec));
    ReadBackU32(b, 32, e.mode);
    ReadBackU32(b, 36, e.flags);
  }

  lemma {:induction false} DirFields(d: DirEntry)
    ensures var b := DirBytes(d);
            && b[0..8] == ToLE(d.parentHash, 8) && b[8..12] == ToLE(d.childrenStart, 4)
            && b[12..16] == ToLE(d.childrenCount, 4)
  {
  }

  lemma {:induction false} ChildFields(c: Child)
    ensures var b := ChildBytes(c);
            && (forall i | 0 <= i < 128 :: b[i] == if i < 127 && i < |c.name| then c.name[i] else 0)
            && b[128..132] == ToLE(c.statIndex, 4) && b[132..136] == [if c.isDir then 1 else 0, 0, 0, 0]
  {
    var b := ChildBytes(c);
    assert b[..128] == NameField(c.name);
    assert forall i | 0 <= i < 128 :: b[i] == b[..128][i];
  }

  lemma {:induction false} DirRoundTrip(d: DirEntry)
    ensures DirOf(DirBytes(d)) == d
  {
    var b := DirBytes(d);
    DirFields(d);
    ReadBackU64(b, 0, d.parentHash);
    ReadBackU32(b, 8, d.childrenStart);
    ReadBackU32(b, 12, d.childrenCount);
  }

  lemma {:induction false} UntilZeroStops(name: Bytes, rest: Bytes)
    requires rest != [] && rest[0] == 0
    ensures UntilZero(name + rest) == UntilZero(name)
    ensures 0 !in name ==> UntilZero(name) == name
    decreases |name|
  {
    if name == [] {
      assert name + rest == rest;
    } else {
      assert (name + rest)[1..] == name[1..] + rest;
      UntilZeroStops(name[1..], rest);
    }
  }

  function CutName(name: Bytes): Bytes {
    if |name| <= 127 then name else name[..127]
  }

  /** What a reader gets for a name. */
  function ListedName(name: Bytes): Bytes {
    ReadName(CutName(name))
  }

  /** The 128-byte field holds the name whole. */
  predicate FitsField(name: Bytes) {
    0 !in name && |name| <= 127
  }

  /** The field ends inside one of the name's characters. */
  predicate Straddles(name: Bytes) {
    |name| > 127 && IsContinuation(name[127])
  }

  /** A name is read back exactly when the field holds it whole. */
  lemma {:induction false} NameIsReadExactly(name: Bytes)
    requires IsText(name)
    ensures ListedName(name) == name <==> FitsField(name)
  {
    UntilZeroStops(name, [0]);
    if |name| <= 127 && 0 in name {
      UntilZeroDrops(name);
    }
  }

  lemma {:induction false} UntilZeroDrops(b: Bytes)
    requires 0 in b
    ensures |UntilZero(b)| < |b|
    decreases |b|
  {
    if b[0] != 0 {
      UntilZeroDrops(b[1..]);
    }
  }

  /** A longer one is read as its first 127 bytes, or as nothing when they end inside a character. */
  lemma {:induction false} LongNameIsRead(name: Bytes)
    requires IsText(name) && 0 !in name
    ensures ListedName(name) == if Straddles(name) then [] else CutName(name)
  {
    UntilZeroStops(CutName(name), [0]);
    if |name| > 127 {
      CutIsText(name, 127);
      assert 0 !in name[..127];
    }
  }

  /** So two different names are read alike exactly when they share their first 127 bytes or are both
      cut inside a character. */
  lemma {:induction false} NamesClashExactly(a: Bytes, b: Bytes)
    requires IsText(a) && IsText(b) && 0 !in a && 0 !in b && a != [] && b != []
    ensures ListedName(a) == ListedName(b) <==> CutName(a) == CutName(b) || (Straddles(a) && Straddles(b))
  {
    LongNameIsRead(a);
    LongNameIsRead(b);
    if CutName(a) == CutName(b) {
      if Straddles(a) { CutAlike(a, b); }
      if Straddles(b) { CutAlike(b, a); }
    }
  }

  lemma {:induction false} CutAlike(a: Bytes, b: Bytes)
    requires IsText(a) && IsText(b) && CutName(a) == CutName(b) && Straddles(a)
    ensures Straddles(b)
  {
    CutIsText(a, 127);
    if |b| > 127 {
      CutIsText(b, 127);
    }
  }

  /** Reading a child back gives it with the name that a reader gets, and so the child itself exactly
      when the field holds its name whole. */
  lemma {:induction false} ChildRoundTrip(c: Child)
    ensures ChildOf(ChildBytes(c)) == c.(name := ListedName(c.name))
    ensures IsText(c.name) ==> (ChildOf(ChildBytes(c)) == c <==> FitsField(c.name))
  {
    if IsText(c.name) {
      NameIsReadExactly(c.name);
    }
    var b := ChildBytes(c);
    ReadBackU32(b, 128, c.statIndex);
    assert b[..128] == NameField(c.name);
    if |c.name| <= 127 {
      UntilZeroStops(c.name, Zeros(128 - |c.name|));
    } else {
      UntilZeroStops(c.name[..127], [0]);
    }
  }

  // ---------------------------------------------------------------- layout

  /** Size of the filter section in a build with the `cas` feature, the default. */
  const BLOOM_SIZE := 128 * 1024

  datatype Header = Header(magic: u32, version: u32, entryCount: u32, bloomOffset: u32, tableOffset: u32,
                           tableCapacity: u32, dirIndexOffset: u32, dirIndexCapacity: u32,
                           childrenOffset: u32, childrenCount: u32)

  /** Offsets are computed in 32 bits. */
  function NewHeader(entryCount: u32, tableCap: u32, dirCap: u32, kids: u32): Header {
    var bloomOffset := U32(HEADER_SIZE);
    var tableOffset := U32(bloomOffset + BLOOM_SIZE);
    var dirIndexOffset := U32(tableOffset + U32(tableCap * STAT_SIZE));
    var childrenOffset := U32(dirIndexOffset + U32(dirCap * DIR_SIZE));
    Header(MMAP_MAGIC, MMAP_VERSION, entryCount, bloomOffset, tableOffset, tableCap,
           dirIndexOffset, dirCap, childrenOffset, kids)
  }

  function HeaderBytes(h: Header): (b: Bytes)
    ensures |b| == HEADER_SIZE
  {
    ToLE(h.magic, 4) + ToLE(h.version, 4) + ToLE(h.entryCount, 4) + ToLE(h.bloomOffset, 4)
    + ToLE(h.tableOffset, 4) + ToLE(h.tableCapacity, 4) + ToLE(h.dirIndexOffset, 4)
    + ToLE(h.dirIndexCapacity, 4) + ToLE(h.childrenOffset, 4) + ToLE(h.childrenCount, 4)
  }

  function FileSize(tableCap: nat, dirCap: nat, kids: nat): nat {
    HEADER_SIZE + BLOOM_SIZE + tableCap * STAT_SIZE + dirCap * DIR_SIZE + kids * CHILD_SIZE
  }

  /** For the capacities the builder computes no offset wraps, each section starts where the one
      before it ends, and the last ends at the computed file size. */
  lemma {:induction false} SectionsTileTheFile(entryCount: u32, tableCap: u32, dirCap: u32, kids: nat)
    requires tableCap <= MMAP_MAX_ENTRIES && dirCap <= MMAP_MAX_ENTRIES
    ensures var h := NewHeader(entryCount, tableCap, dirCap, U32(kids));
            && h.bloomOffset == HEADER_SIZE
            && h.tableOffset == h.bloomOffset + BLOOM_SIZE
            && h.dirIndexOffset == h.tableOffset + tableCap * STAT_SIZE
            && h.childrenOffset == h.dirIndexOffset + dirCap * DIR_SIZE
            && h.childrenOffset + kids * CHILD_SIZE == FileSize(tableCap, dirCap, kids)
  {
  }

  function Clamp(x: nat, lo: nat, hi: nat): (r: nat)
    requires lo <= hi
    ensures lo <= r <= hi && (lo <= x <= hi ==> r == x)
  {
    if x < lo then lo else if x > hi then hi else x
  }

  function TableCapacity(entries: nat): nat {
    Clamp(entries * 2, 1024, MMAP_MAX_ENTRIES)
  }

  function DirCapacity(dirs: nat): nat {
    Clamp(dirs * 2, 256, MMAP_MAX_ENTRIES)
  }

  // ---------------------------------------------------------------- grouping by directory

  type Entries = seq<(Bytes, StatEntry)>

  /** The path functions the builder calls: FNV-1a, `Path::parent` and `Path::file_name`. */
  datatype PathFns = PathFns(hash: Bytes -> u64, parentOf: Bytes -> Option<Bytes>, nameOf: Bytes -> Bytes)

  datatype Kid = Kid(name: Bytes, idx: nat)

  const ROOT: Bytes := [47]

  function ParentKey(fns: PathFns, path: Bytes): Option<Bytes> {
    match fns.parentOf(path)
    case None => None
    case Some(p) => Some(if p == [] then ROOT else p)
  }

  /** The children of directory `p` among the first `n` entries, in entry order. */
  function KidsOf(fns: PathFns, es: Entries, p: Bytes, n: nat): seq<Kid>
    requires n <= |es|
  {
    if n == 0 then []
    else
      var ks := KidsOf(fns, es, p, n - 1);
      var path := es[n - 1].0;
      if ParentKey(fns, path) == Some(p) then ks + [Kid(fns.nameOf(path), n - 1)] else ks
  }

  /** Only entries under `p` are listed, each at most once, in entry order. */
  lemma {:induction false} KidsOfExactly(fns: PathFns, es: Entries, p: Bytes, n: nat)
    requires n <= |es|
    ensures var ks := KidsOf(fns, es, p, n);
            && KidsValid(ks, n)
            && (forall j :: 0 <= j < |ks| ==> ks[j].name == fns.nameOf(es[ks[j].idx].0))
            && (forall j :: 0 <= j < |ks| ==> ParentKey(fns, es[ks[j].idx].0) == Some(p))
            && (forall i, j :: 0 <= i < j < |ks| ==> ks[i].idx < ks[j].idx)
  {
    if n > 0 {
      KidsOfExactly(fns, es, p, n - 1);
    }
  }

  /** Every entry under `p` is listed. */
  lemma {:induction false} KidsAreComplete(fns: PathFns, es: Entries, p: Bytes, n: nat, i: nat)
    requires i < n <= |es| && ParentKey(fns, es[i].0) == Some(p)
    ensures Kid(fns.nameOf(es[i].0), i) in KidsOf(fns, es, p, n)
  {
    if i < n - 1 {
      KidsAreComplete(fns, es, p, n - 1, i);
    }
  }

  type DirMap = map<Bytes, seq<Kid>>

  ghost predicate IsGrouping(fns: PathFns, es: Entries, n: nat, m: DirMap)
    requires n <= |es|
  {
    && (forall p :: p in m ==> m[p] != [] && m[p] == KidsOf(fns, es, p, n))
    && (forall p :: p !in m ==> KidsOf(fns, es, p, n) == [])
  }

  /** An iteration order of the directory map. */
  ghost predicate IsOrder(m: DirMap, order: seq<Bytes>) {
    && (forall k :: 0 <= k < |order| ==> order[k] in m)
    && (forall p :: p in m ==> p in order)
    && (forall j, k :: 0 <= j < k < |order| ==> order[j] != order[k])
  }

  predicate AllIn(m: DirMap, order: seq<Bytes>) {
    forall k :: 0 <= k < |order| ==> order[k] in m
  }

  /** Where the children of the `k`-th directory start in the pool. */
  function Start(m: DirMap, order: seq<Bytes>, k: nat): nat
    requires AllIn(m, order) && k <= |order|
  {
    if k == 0 then 0 else Start(m, order, k - 1) + |m[order[k - 1]]|
  }

  function MakeChild(es: Entries, slots: seq<nat>, kid: Kid): Child
    requires kid.idx < |es| && kid.idx < |slots|
  {
    Child(kid.name, U32(slots[kid.idx]), es[kid.idx].1.IsDir())
  }

  predicate KidsValid(ks: seq<Kid>, n: nat) {
    forall j :: 0 <= j < |ks| ==> ks[j].idx < n
  }

  predicate MapValid(m: DirMap, n: nat) {
    forall p :: p in m ==> KidsValid(m[p], n)
  }

  function ChildRecords(es: Entries, slots: seq<nat>, ks: seq<Kid>): (rs: seq<Bytes>)
    requires KidsValid(ks, |es|) && |slots| == |es|
    ensures |rs| == |ks|
  {
    seq(|ks|, j requires 0 <= j < |ks| => ChildBytes(MakeChild(es, slots, ks[j])))
  }

  /** The children of the first `k` directories, one directory after the other. */
  function Pool(es: Entries, slots: seq<nat>, m: DirMap, order: seq<Bytes>, k: nat): (rs: seq<Bytes>)
    requires AllIn(m, order) && MapValid(m, |es|) && |slots| == |es| && k <= |order|
    ensures |rs| == Start(m, order, k)
  {
    if k == 0 then []
    else Pool(es, slots, m, order, k - 1) + ChildRecords(es, slots, m[order[k - 1]])
  }

  // ---------------------------------------------------------------- tables

  function ToSlot(r: Bytes): Slot
    requires |r| >= 8
  {
    Slot(FromLE(r[..8]), r)
  }

  function ToSlots(rs: seq<Bytes>): (t: seq<Slot>)
    requires forall i :: 0 <= i < |rs| ==> |rs[i]| >= 8
    ensures |t| == |rs| && forall i :: 0 <= i < |rs| ==> t[i] == ToSlot(rs[i])
  {
    seq(|rs|, i requires 0 <= i < |rs| => ToSlot(rs[i]))
  }

  /** A table section of the buffer, as slots. */
  function TableAt(b: Bytes, off: nat, cap: nat, size: nat): (t: seq<Slot>)
    requires size >= 8 && off + cap * size <= |b|
    ensures |t| == cap
  {
    ToSlots(Records(b, off, cap, size))
  }

  function EmptyTable(cap: nat, size: nat): (t: seq<Slot>)
    requires size >= 8
    ensures |t| == cap
  {
    seq(cap, i => ToSlot(Zeros(size)))
  }

  function StatSlots(es: Entries): (rs: seq<Slot>)
    ensures |rs| == |es|
  {
    seq(|es|, i requires 0 <= i < |es| => ToSlot(StatBytes(es[i].1)))
  }

  function DirRecord(fns: PathFns, m: DirMap, order: seq<Bytes>, k: nat): DirEntry
    requires AllIn(m, order) && k < |order|
  {
    DirEntry(fns.hash(order[k]), U32(Start(m, order, k)), U32(|m[order[k]]|))
  }

  function DirSlots(fns: PathFns, m: DirMap, order: seq<Bytes>): (rs: seq<Slot>)
    requires AllIn(m, order)
    ensures |rs| == |order|
  {
    seq(|order|, k requires 0 <= k < |order| => ToSlot(DirBytes(DirRecord(fns, m, order, k))))
  }

  lemma {:induction false} ZeroTableIsEmpty(total: nat, off: nat, cap: nat, size: nat)
    requires size >= 8 && off + cap * size <= total
    ensures TableAt(Zeros(total), off, cap, size) == EmptyTable(cap, size)
  {
    var b := Zeros(total);
    forall i | 0 <= i < cap
      ensures RecordAt(b, off, cap, size, i) == Zeros(size)
    {
      SlotBound(i, cap, size);
      ZeroSlice(total, off + i * size, size);
    }
  }

  lemma {:induction false} ZeroSlice(total: nat, at: nat, size: nat)
    requires at + size <= total
    ensures Zeros(total)[at..at + size] == Zeros(size)
  {
  }

  lemma {:induction false} EmptyTableIsEmpty(cap: nat, size: nat)
    requires cap > 0 && size >= 8
    ensures AllEmpty(EmptyTable(cap, size))
  {
    assert Zeros(size)[..8] == Zeros(8);
    ZerosAreZero(8);
  }

  // ---------------------------------------------------------------- the whole file

  function StatFill(es: Entries): Filled {
    Fill(EmptyTable(TableCapacity(|es|), STAT_SIZE), StatSlots(es), |es|)
  }

  function DirFill(fns: PathFns, m: DirMap, order: seq<Bytes>, k: nat): Filled
    requires AllIn(m, order) && k <= |order|
  {
    Fill(EmptyTable(DirCapacity(|order|), DIR_SIZE), DirSlots(fns, m, order), k)
  }

  const STAT_OFFSET := HEADER_SIZE + BLOOM_SIZE

  function DirOffset(es: Entries): nat {
    STAT_OFFSET + TableCapacity(|es|) * STAT_SIZE
  }

  function PoolOffset(es: Entries, dirs: nat): nat {
    DirOffset(es) + DirCapacity(dirs) * DIR_SIZE
  }

  ghost predicate HasPreamble(b: Bytes, es: Entries, bloom: Bytes, dirs: nat, kids: nat) {
    && STAT_OFFSET <= |b|
    && b[..HEADER_SIZE] == HeaderBytes(NewHeader(U32(|es|), TableCapacity(|es|), DirCapacity(dirs), U32(kids)))
    && b[HEADER_SIZE..STAT_OFFSET] == bloom
  }

  ghost predicate HasTables(b: Bytes, fns: PathFns, es: Entries, m: DirMap, order: seq<Bytes>)
    requires AllIn(m, order) && MapValid(m, |es|)
  {
    var kids := Start(m, order, |order|);
    && |b| == FileSize(TableCapacity(|es|), DirCapacity(|order|), kids)
    && TableAt(b, STAT_OFFSET, TableCapacity(|es|), STAT_SIZE) == StatFill(es).table
    && TableAt(b, DirOffset(es), DirCapacity(|order|), DIR_SIZE) == DirFill(fns, m, order, |order|).table
    && Records(b, PoolOffset(es, |order|), kids, CHILD_SIZE)
       == Pool(es, StatFill(es).slots, m, order, |order|)
  }

  /** The file the builder writes for an entry list, a filter and an order of the directories. */
  ghost predicate IsImage(b: Bytes, fns: PathFns, es: Entries, bloom: Bytes, m: DirMap, order: seq<Bytes>) {
    && IsGrouping(fns, es, |es|, m) && IsOrder(m, order) && MapValid(m, |es|)
    && HasPreamble(b, es, bloom, |order|, Start(m, order, |order|))
    && HasTables(b, fns, es, m, order)
  }
}
