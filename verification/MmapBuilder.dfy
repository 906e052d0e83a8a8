/** The hot-stat builder (crates/vrift-ipc/src/lib.rs, `ManifestMmapBuilder`), writing into one
    byte buffer. */
module MmapBuilder {
  import opened Bytes
  import opened ProbeTable
  import opened MmapImage
  import Bloom

  // ---------------------------------------------------------------- table writes

  /** Reads the hash field of a slot. */
  method HashAt(buf: array<byte>, off: nat, cap: nat, size: nat, s: nat) returns (hash: nat)
    requires size >= 8 && off + cap * size <= buf.Length && s < cap
    ensures hash == TableAt(buf[..], off, cap, size)[s].hash
  {
    SlotBound(s, cap, size);
    var offset := off + s * size;
    ghost var r := RecordAt(buf[..], off, cap, size, s);
    assert buf[offset..offset + 8] == r[..8];
    hash := FromLE(buf[offset..offset + 8]);
  }

  /** Writes a record into a slot; everything outside the table stays. */
  method WriteSlot(buf: array<byte>, off: nat, cap: nat, size: nat, s: nat, rec: Bytes)
    requires size >= 8 && off + cap * size <= buf.Length && s < cap && |rec| == size
    modifies buf
    ensures TableAt(buf[..], off, cap, size) == TableAt(old(buf[..]), off, cap, size)[s := ToSlot(rec)]
    ensures forall x :: 0 <= x < off || off + cap * size <= x < buf.Length ==> buf[x] == old(buf[x])
  {
    SpliceRecord(buf[..], off, cap, size, s, rec);
    ghost var b := buf[..];
    Blit(buf, off + s * size, rec);
    ghost var b' := buf[..];
    assert forall x :: 0 <= x < off || off + cap * size <= x < buf.Length ==> b'[x] == b[x];
  }

  /** The first free slot of the probe path of `hash`. */
  method FindFree(buf: array<byte>, off: nat, cap: nat, size: nat, hash: nat, ghost t: seq<Slot>)
    returns (slot: Option<nat>)
    requires cap > 0 && size >= 8 && off + cap * size <= buf.Length
    requires TableAt(buf[..], off, cap, size) == t
    ensures slot == Probe(t, hash, 0)
  {
    var start := hash % cap;
    var i := 0;
    while i < cap
      invariant i <= cap && Probe(t, hash, i) == Probe(t, hash, 0)
    {
      SlotAtIsModular(cap, hash, i);
      var s := (start + i) % cap;
      var existing := HashAt(buf, off, cap, size, s);
      if existing == 0 {
        return Some(s);
      }
      i := i + 1;
    }
    return None;
  }

  /** Writes a record into the first free slot of its probe path, if any. */
  method InsertRecord(buf: array<byte>, off: nat, cap: nat, size: nat, rec: Bytes, ghost t: seq<Slot>)
    returns (slot: nat)
    requires cap > 0 && size >= 8 && off + cap * size <= buf.Length && |rec| == size
    requires TableAt(buf[..], off, cap, size) == t
    modifies buf
    ensures TableAt(buf[..], off, cap, size) == Put(t, ToSlot(rec)) && slot == PutSlot(t, ToSlot(rec))
    ensures forall x :: 0 <= x < off || off + cap * size <= x < buf.Length ==> buf[x] == old(buf[x])
  {
    var free := FindFree(buf, off, cap, size, FromLE(rec[..8]), t);
    if free == None {
      return 0;
    }
    WriteSlot(buf, off, cap, size, free.value, rec);
    return free.value;
  }

  /** Step 6: the stat table, and the slot of every entry. */
  method WriteStatTable(buf: array<byte>, es: Entries, ghost empty: seq<Slot>) returns (slots: seq<nat>)
    requires DirOffset(es) <= buf.Length && |empty| == TableCapacity(|es|)
    requires TableAt(buf[..], STAT_OFFSET, TableCapacity(|es|), STAT_SIZE) == empty
    modifies buf
    ensures var f := Fill(empty, StatSlots(es), |es|);
            slots == f.slots && TableAt(buf[..], STAT_OFFSET, TableCapacity(|es|), STAT_SIZE) == f.table
    ensures forall x :: 0 <= x < STAT_OFFSET || DirOffset(es) <= x < buf.Length ==> buf[x] == old(buf[x])
  {
    var cap := TableCapacity(|es|);
    ghost var rs := StatSlots(es);
    slots := [];
    for idx := 0 to |es|
      invariant TableAt(buf[..], STAT_OFFSET, cap, STAT_SIZE) == Fill(empty, rs, idx).table
      invariant slots == Fill(empty, rs, idx).slots
      invariant forall x :: 0 <= x < STAT_OFFSET || DirOffset(es) <= x < buf.Length ==> buf[x] == old(buf[x])
    {
      var rec := StatBytes(es[idx].1);
      assert rs[idx] == ToSlot(rec);
      var slot := InsertRecord(buf, STAT_OFFSET, cap, STAT_SIZE, rec, Fill(empty, rs, idx).table);
      slots := slots + [slot];
    }
  }

  // ---------------------------------------------------------------- children

  /** Writes record `i` of the pool. */
  method WriteRecord(buf: array<byte>, off: nat, ghost n: nat, i: nat, rec: Bytes)
    requires off + n * CHILD_SIZE <= buf.Length && i < n && |rec| == CHILD_SIZE
    modifies buf
    ensures Records(buf[..], off, n, CHILD_SIZE) == Records(old(buf[..]), off, n, CHILD_SIZE)[i := rec]
    ensures forall x :: 0 <= x < off ==> buf[x] == old(buf[x])
  {
    SpliceRecord(buf[..], off, n, CHILD_SIZE, i, rec);
    ghost var b := buf[..];
    Blit(buf, off + i * CHILD_SIZE, rec);
    ghost var b' := buf[..];
    assert forall x :: 0 <= x < off ==> b'[x] == b[x];
  }

  /** Writes the children of one directory into the pool, from index `cur` on. */
  method WriteChildren(buf: array<byte>, es: Entries, slots: seq<nat>, ks: seq<Kid>, off: nat, cur: nat,
                       ghost n: nat, ghost pool: seq<Bytes>)
    requires KidsValid(ks, |es|) && |slots| == |es|
    requires cur + |ks| <= n && off + n * CHILD_SIZE <= buf.Length
    requires Records(buf[..], off, n, CHILD_SIZE)[..cur] == pool
    modifies buf
    ensures Records(buf[..], off, n, CHILD_SIZE)[..cur + |ks|] == pool + ChildRecords(es, slots, ks)
    ensures forall x :: 0 <= x < off ==> buf[x] == old(buf[x])
  {
    ghost var rs := ChildRecords(es, slots, ks);
    assert pool + rs[..0] == pool;
    for j := 0 to |ks|
      invariant Records(buf[..], off, n, CHILD_SIZE)[..cur + j] == pool + rs[..j]
      invariant forall x :: 0 <= x < off ==> buf[x] == old(buf[x])
    {
      ghost var t := Records(buf[..], off, n, CHILD_SIZE);
      var rec := ChildBytes(MakeChild(es, slots, ks[j]));
      WriteRecord(buf, off, n, cur + j, rec);
      assert t[cur + j := rec][..cur + j + 1] == t[..cur + j] + [rec];
      assert rs[..j + 1] == rs[..j] + [rec];
    }
    assert rs[..|ks|] == rs;
  }

  /** One turn of step 7: a directory's index record, then its children. */
  method WriteDirectory(buf: array<byte>, fns: PathFns, es: Entries, slots: seq<nat>, m: DirMap, order: seq<Bytes>,
                        k: nat, cur: nat, ghost n: nat, ghost t: seq<Slot>, ghost pool: seq<Bytes>)
    returns (next: nat)
    requires AllIn(m, order) && k < |order| && KidsValid(m[order[k]], |es|) && |slots| == |es|
    requires cur == Start(m, order, k) && cur + |m[order[k]]| <= n
    requires PoolOffset(es, |order|) + n * CHILD_SIZE <= buf.Length
    requires TableAt(buf[..], DirOffset(es), DirCapacity(|order|), DIR_SIZE) == t
    requires Records(buf[..], PoolOffset(es, |order|), n, CHILD_SIZE)[..cur] == pool
    modifies buf
    ensures next == cur + |m[order[k]]|
    ensures TableAt(buf[..], DirOffset(es), DirCapacity(|order|), DIR_SIZE)
         == Put(t, ToSlot(DirBytes(DirRecord(fns, m, order, k))))
    ensures Records(buf[..], PoolOffset(es, |order|), n, CHILD_SIZE)[..next]
         == pool + ChildRecords(es, slots, m[order[k]])
    ensures forall x :: 0 <= x < DirOffset(es) ==> buf[x] == old(buf[x])
  {
    var cap, dirOff, off := DirCapacity(|order|), DirOffset(es), PoolOffset(es, |order|);
    var children := m[order[k]];
    var rec := DirBytes(DirEntry(fns.hash(order[k]), U32(cur), U32(|children|)));
    ghost var b0 := buf[..];
    var _ := InsertRecord(buf, dirOff, cap, DIR_SIZE, rec, t);
    ghost var b1 := buf[..];
    RecordsAgree(b0, b1, off, n, CHILD_SIZE);
    WriteChildren(buf, es, slots, children, off, cur, n, pool);
    RecordsAgree(b1, buf[..], dirOff, cap, DIR_SIZE);
    next := cur + |children|;
  }

  /** Step 7: the directory index and the child pool, in the order given. */
  method WriteDirectories(buf: array<byte>, fns: PathFns, es: Entries, slots: seq<nat>, m: DirMap, order: seq<Bytes>,
                          ghost empty: seq<Slot>)
    requires AllIn(m, order) && MapValid(m, |es|) && |slots| == |es| && |empty| == DirCapacity(|order|)
    requires PoolOffset(es, |order|) + Start(m, order, |order|) * CHILD_SIZE <= buf.Length
    requires TableAt(buf[..], DirOffset(es), DirCapacity(|order|), DIR_SIZE) == empty
    modifies buf
    ensures TableAt(buf[..], DirOffset(es), DirCapacity(|order|), DIR_SIZE)
         == Fill(empty, DirSlots(fns, m, order), |order|).table
    ensures Records(buf[..], PoolOffset(es, |order|), Start(m, order, |order|), CHILD_SIZE)
         == Pool(es, slots, m, order, |order|)
    ensures forall x :: 0 <= x < DirOffset(es) ==> buf[x] == old(buf[x])
  {
    ghost var rs, n := DirSlots(fns, m, order), Start(m, order, |order|);
    ghost var t, pool := empty, [];
    var cur := 0;
    for k := 0 to |order|
      invariant cur == Start(m, order, k) <= n
      invariant t == Fill(empty, rs, k).table && pool == Pool(es, slots, m, order, k)
      invariant TableAt(buf[..], DirOffset(es), DirCapacity(|order|), DIR_SIZE) == t
      invariant Records(buf[..], PoolOffset(es, |order|), n, CHILD_SIZE)[..cur] == pool
      invariant forall x :: 0 <= x < DirOffset(es) ==> buf[x] == old(buf[x])
    {
      StartIsMonotone(m, order, k + 1, |order|);
      cur := WriteDirectory(buf, fns, es, slots, m, order, k, cur, n, t, pool);
      DirStep(fns, m, order, empty, k);
      t := Put(t, ToSlot(DirBytes(DirRecord(fns, m, order, k))));
      pool := pool + ChildRecords(es, slots, m[order[k]]);
    }
  }

  lemma {:induction false} DirStep(fns: PathFns, m: DirMap, order: seq<Bytes>, empty: seq<Slot>, k: nat)
    requires AllIn(m, order) && k < |order| && |empty| > 0
    ensures var rs := DirSlots(fns, m, order);
            Fill(empty, rs, k + 1).table == Put(Fill(empty, rs, k).table, ToSlot(DirBytes(DirRecord(fns, m, order, k))))
  {
  }

  lemma {:induction false} StartIsMonotone(m: DirMap, order: seq<Bytes>, j: nat, k: nat)
    requires AllIn(m, order) && j <= k <= |order|
    ensures Start(m, order, j) <= Start(m, order, k)
    decreases k - j
  {
    if j < k {
      StartIsMonotone(m, order, j, k - 1);
    }
  }

  /** Steps 6 and 7 on a buffer that is zero behind the filter. */
  method WriteTables(buf: array<byte>, fns: PathFns, es: Entries, m: DirMap, order: seq<Bytes>)
    requires AllIn(m, order) && MapValid(m, |es|)
    requires buf.Length == FileSize(TableCapacity(|es|), DirCapacity(|order|), Start(m, order, |order|))
    requires forall x :: STAT_OFFSET <= x < buf.Length ==> buf[x] == 0
    modifies buf
    ensures HasTables(buf[..], fns, es, m, order)
    ensures forall x :: 0 <= x < STAT_OFFSET ==> buf[x] == old(buf[x])
  {
    ghost var tableCap, dirCap := TableCapacity(|es|), DirCapacity(|order|);
    ghost var b0 := buf[..];
    ZeroTable(b0, STAT_OFFSET, tableCap, STAT_SIZE);
    ZeroTable(b0, DirOffset(es), dirCap, DIR_SIZE);
    var slots := WriteStatTable(buf, es, EmptyTable(tableCap, STAT_SIZE));
    ghost var b1 := buf[..];
    RecordsAgree(b0, b1, DirOffset(es), dirCap, DIR_SIZE);
    WriteDirectories(buf, fns, es, slots, m, order, EmptyTable(dirCap, DIR_SIZE));
    RecordsAgree(b1, buf[..], STAT_OFFSET, tableCap, STAT_SIZE);
  }

  lemma {:induction false} ZeroTable(b: Bytes, off: nat, cap: nat, size: nat)
    requires size >= 8 && off + cap * size <= |b|
    requires forall x :: off <= x < off + cap * size ==> b[x] == 0
    ensures TableAt(b, off, cap, size) == EmptyTable(cap, size)
  {
    ZeroTableIsEmpty(|b|, off, cap, size);
    RecordsAgree(Zeros(|b|), b, off, cap, size);
  }

  // ---------------------------------------------------------------- grouping

  /** Step 1: children by parent directory. */
  method GroupChildren(fns: PathFns, es: Entries) returns (m: DirMap)
    ensures IsGrouping(fns, es, |es|, m) && MapValid(m, |es|)
  {
    m := map[];
    for idx := 0 to |es|
      invariant IsGrouping(fns, es, idx, m) && MapValid(m, idx)
    {
      var path := es[idx].0;
      match ParentKey(fns, path)
      case None =>
      case Some(p) =>
        var siblings := if p in m then m[p] else [];
        m := m[p := siblings + [Kid(fns.nameOf(path), idx)]];
    }
  }

  /** The order in which the map hands out its directories: any order at all. */
  method IterationOrder(m: DirMap) returns (order: seq<Bytes>)
    ensures IsOrder(m, order)
  {
    order := [];
    var rest := m.Keys;
    while rest != {}
      invariant rest <= m.Keys
      invariant forall k :: 0 <= k < |order| ==> order[k] in m && order[k] !in rest
      invariant forall p :: p in m ==> p in rest || p in order
      invariant forall j, k :: 0 <= j < k < |order| ==> order[j] != order[k]
      decreases |rest|
    {
      var p :| p in rest;
      order := order + [p];
      rest := rest - {p};
    }
  }

  // ---------------------------------------------------------------- the builder

  ghost function Paths(es: Entries): seq<Bytes> {
    seq(|es|, i requires 0 <= i < |es| => es[i].0)
  }

  /** Every record carries the hash of its path. */
  predicate Hashed(fns: PathFns, es: Entries) {
    forall i :: 0 <= i < |es| ==> es[i].1.pathHash == fns.hash(es[i].0)
  }

  class ManifestMmapBuilder {
    const fns: PathFns
    const bloom: Bloom.BloomFilter
    var entries: Entries

    /** The filter holds exactly the added paths, and the records their hashes. */
    ghost predicate Valid()
      reads this, bloom, bloom.bits
    {
      Hashed(fns, entries) && bloom.bits[..] == Bloom.AddKeys(Zeros(BLOOM_SIZE), Paths(entries))
    }

    constructor (fns: PathFns)
      ensures Valid() && entries == [] && this.fns == fns && fresh(bloom) && fresh(bloom.bits)
    {
      this.fns := fns;
      bloom := new Bloom.BloomFilter(BLOOM_SIZE);
      entries := [];
    }

    method AddEntry(path: Bytes, size: u64, mtime: i64, mode: u32, isDir: bool, isSymlink: bool)
      requires Valid()
      modifies this`entries, bloom.bits
      ensures Valid()
      ensures entries == old(entries) + [(path, StatEntry(fns.hash(path), size, mtime, 0, mode,
                           (if isDir then 1 else 0) + (if isSymlink then 2 else 0)))]
    {
      ghost var before := Paths(entries);
      bloom.Add(path);
      entries := entries + [(path, StatEntry(fns.hash(path), size, mtime, 0, mode,
                               (if isDir then 1 else 0) + (if isSymlink then 2 else 0)))];
      assert Paths(entries) == before + [path];
      assert Paths(entries)[..|before|] == before;
    }

    /** The buffer that `write_to_file` hands to the file system. */
    method Write() returns (buf: array<byte>, ghost m: DirMap, ghost order: seq<Bytes>)
      requires Valid()
      ensures IsImage(buf[..], fns, entries, bloom.bits[..], m, order)
    {
      buf, m, order := BuildImage(fns, entries, bloom.bits[..]);
    }
  }

  method BuildImage(fns: PathFns, es: Entries, filter: Bytes)
    returns (buf: array<byte>, ghost m: DirMap, ghost order: seq<Bytes>)
    requires |filter| == BLOOM_SIZE
    ensures IsImage(buf[..], fns, es, filter, m, order)
  {
    var dirMap := GroupChildren(fns, es);
    var dirs := IterationOrder(dirMap);
    m, order := dirMap, dirs;
    var kids := Start(dirMap, dirs, |dirs|);
    buf := new byte[FileSize(TableCapacity(|es|), DirCapacity(|dirs|), kids)](i => 0);
    WritePreamble(buf, es, |dirs|, kids, filter);
    ghost var b := buf[..];
    WriteTables(buf, fns, es, dirMap, dirs);
    PreambleKept(b, buf[..], es, filter, |dirs|, kids);
  }

  lemma {:induction false} PreambleKept(b: Bytes, b': Bytes, es: Entries, filter: Bytes, dirs: nat, kids: nat)
    requires HasPreamble(b, es, filter, dirs, kids) && |b'| == |b|
    requires forall x :: 0 <= x < STAT_OFFSET ==> b'[x] == b[x]
    ensures HasPreamble(b', es, filter, dirs, kids)
  {
    SlicesAgree(b, b', 0, HEADER_SIZE);
    SlicesAgree(b, b', HEADER_SIZE, STAT_OFFSET);
    assert b[0..HEADER_SIZE] == b[..HEADER_SIZE] && b'[0..HEADER_SIZE] == b'[..HEADER_SIZE];
  }

  /** Steps 4 and 5: header and filter. */
  method WritePreamble(buf: array<byte>, es: Entries, dirs: nat, kids: nat, filter: Bytes)
    requires |filter| == BLOOM_SIZE && STAT_OFFSET <= buf.Length
    modifies buf
    ensures HasPreamble(buf[..], es, filter, dirs, kids)
    ensures forall x :: STAT_OFFSET <= x < buf.Length ==> buf[x] == old(buf[x])
  {
    var header := HeaderBytes(NewHeader(U32(|es|), TableCapacity(|es|), DirCapacity(dirs), U32(kids)));
    ghost var b := buf[..];
    Blit(buf, 0, header);
    Blit(buf, HEADER_SIZE, filter);
    ghost var b' := buf[..];
    assert forall x :: STAT_OFFSET <= x < buf.Length ==> b'[x] == b[x];
  }
}
