/** From `add_entry` to the bytes a reader sees (crates/vrift-ipc/src/lib.rs, `ManifestMmapBuilder`), stated
    in terms of the arguments given to the builder. */
module MmapAdded {
  import opened Bytes
  import opened MmapImage
  import opened MmapBuilder
  import opened MmapReader
  import opened ProbeTable
  import Bloom

  /** The arguments of one `add_entry`. */
  datatype Added = Added(path: Bytes, size: u64, mtime: i64, mode: u32, isDir: bool, isSymlink: bool)

  /** The record keeps the arguments: bit 0 of the flags is a directory, bit 1 a symlink. */
  predicate Keeps(fns: PathFns, a: Added, e: StatEntry) {
    && e.pathHash == fns.hash(a.path) && e.size == a.size && e.mtime == a.mtime && e.mtimeNsec == 0
    && e.mode == a.mode && e.flags < 4 && (e.flags % 2 == 1 <==> a.isDir) && (e.flags / 2 == 1 <==> a.isSymlink)
  }

  ghost predicate Recorded(fns: PathFns, adds: seq<Added>, es: Entries) {
    |es| == |adds| && forall i :: 0 <= i < |adds| ==> es[i].0 == adds[i].path && Keeps(fns, adds[i], es[i].1)
  }

  /** The directory a path is listed under: its parent, or the root for a bare name. */
  predicate Under(fns: PathFns, path: Bytes, dir: Bytes) {
    fns.parentOf(path).Some? && dir == if fns.parentOf(path).value == [] then [47] else fns.parentOf(path).value
  }

  method AddAll(builder: ManifestMmapBuilder, adds: seq<Added>)
    requires builder.Valid() && builder.entries == []
    modifies builder`entries, builder.bloom.bits
    ensures builder.Valid() && Recorded(builder.fns, adds, builder.entries)
  {
    for i := 0 to |adds|
      invariant builder.Valid() && Recorded(builder.fns, adds[..i], builder.entries)
    {
      var a := adds[i];
      ghost var before := builder.entries;
      builder.AddEntry(a.path, a.size, a.mtime, a.mode, a.isDir, a.isSymlink);
      RecordedNext(builder.fns, adds, i, before, builder.entries[i]);
    }
    assert adds[..|adds|] == adds;
  }

  lemma {:induction false} RecordedNext(fns: PathFns, adds: seq<Added>, i: nat, es: Entries, e: (Bytes, StatEntry))
    requires i < |adds| && Recorded(fns, adds[..i], es) && e.0 == adds[i].path && Keeps(fns, adds[i], e.1)
    ensures Recorded(fns, adds[..i + 1], es + [e])
  {
  }

  /** Any list of entries, added and written. */
  method WriteAdded(fns: PathFns, adds: seq<Added>)
    returns (buf: array<byte>, ghost es: Entries, ghost bloom: Bytes, ghost m: DirMap, ghost order: seq<Bytes>)
    ensures Recorded(fns, adds, es) && IsImage(buf[..], fns, es, bloom, m, order)
    ensures forall i | 0 <= i < |adds| :: |bloom| > 0 && Bloom.Accepts(bloom, adds[i].path)
  {
    var builder := new ManifestMmapBuilder(fns);
    AddAll(builder, adds);
    es, bloom := builder.entries, builder.bloom.bits[..];
    buf, m, order := builder.Write();
    forall i | 0 <= i < |adds|
      ensures Bloom.Accepts(bloom, adds[i].path)
    {
      FilterAcceptsPaths(es, bloom, i);
    }
  }

  /** What is written of the header: the magic "VMMP", the version and the number of entries. */
  lemma {:induction false} HeaderTells(b: Bytes, fns: PathFns, adds: seq<Added>, es: Entries, bloom: Bytes, m: DirMap,
                                       order: seq<Bytes>)
    requires IsImage(b, fns, es, bloom, m, order) && Recorded(fns, adds, es) && |adds| < 0x1_0000_0000
    ensures |b| >= HEADER_SIZE && HeaderOf(b).magic == 0x504D4D56 && HeaderOf(b).version == 1
    ensures HeaderOf(b).entryCount == |adds|
    ensures |b| >= STAT_OFFSET && b[HEADER_SIZE..STAT_OFFSET] == bloom
  {
    HeaderIsRead(b, es, bloom, |order|, Start(m, order, |order|));
  }

  /** Looking up a path that was added gives the arguments it was first added with, for the first 65536
      entries and hashes that do not collide. */
  lemma {:induction false} AddedIsFound(b: Bytes, fns: PathFns, adds: seq<Added>, es: Entries, bloom: Bytes, m: DirMap,
                                        order: seq<Bytes>, i: nat)
    requires IsImage(b, fns, es, bloom, m, order) && Recorded(fns, adds, es) && |adds| < 0x1_0000_0000
    requires i < |adds| && i < MMAP_MAX_ENTRIES && forall j :: 0 <= j < |adds| ==> fns.hash(adds[j].path) != 0
    requires forall j :: 0 <= j < i ==> fns.hash(adds[j].path) != fns.hash(adds[i].path)
    ensures |b| >= HEADER_SIZE && Fits(b, HeaderOf(b))
    ensures var r := LookupStat(b, HeaderOf(b), fns.hash(adds[i].path)); r.Some? && Keeps(fns, adds[i], r.value)
  {
    ImageIsServed(b, fns, es, bloom, m, order);
    assert FirstOfItsHash(es, i);
    StatIsFound(b, HeaderOf(b), es, i);
  }

  /** The listed record is that of an added entry: its name as the field keeps it, whether it was added as a
      directory, and for the first 65536 entries the slot of its own stat. */
  ghost predicate ListsAs(b: Bytes, h: Header, fns: PathFns, adds: seq<Added>, i: nat, c: Child)
    requires Fits(b, h) && i < |adds|
  {
    && c.name == ListedName(fns.nameOf(adds[i].path)) && c.isDir == adds[i].isDir
    && (i < MMAP_MAX_ENTRIES ==> c.statIndex < h.tableCapacity && Keeps(fns, adds[i], StatRecord(b, h, c.statIndex)))
  }

  /** The listing of a directory shows exactly the entries added under it, in the order they were added. */
  lemma {:induction false} AddedIsListed(b: Bytes, fns: PathFns, adds: seq<Added>, es: Entries, bloom: Bytes,
                                         m: DirMap, order: seq<Bytes>, dir: Bytes, k: nat)
    returns (ids: seq<nat>)
    requires IsImage(b, fns, es, bloom, m, order) && Recorded(fns, adds, es) && |adds| < 0x1_0000_0000
    requires forall j :: 0 <= j < |adds| ==> fns.hash(adds[j].path) != 0
    requires k < |order| && k < MMAP_MAX_ENTRIES && order[k] == dir && GoodDirHashes(fns, order)
    ensures |b| >= HEADER_SIZE && Fits(b, HeaderOf(b))
    ensures forall j :: 0 <= j < |ids| ==> ids[j] < |adds| && Under(fns, adds[ids[j]].path, dir)
    ensures forall i :: 0 <= i < |adds| && Under(fns, adds[i].path, dir) ==> i in ids
    ensures forall j, l :: 0 <= j < l < |ids| ==> ids[j] < ids[l]
    ensures var r := ListDir(b, HeaderOf(b), fns.hash(dir));
            && r.Some? && |r.value| == |ids|
            && forall j :: 0 <= j < |ids| ==> ListsAs(b, HeaderOf(b), fns, adds, ids[j], r.value[j])
  {
    var h := HeaderOf(b);
    ImageIsServed(b, fns, es, bloom, m, order);
    RangesTileThePool(fns, es, m, order);
    ids := DirectoryEntries(fns, adds, es, dir);
    DirectoryIsListed(b, h, fns, es, m, order, k);
    var ks := KidsOf(fns, es, dir, |es|);
    forall j | 0 <= j < |ids|
      ensures ListsAs(b, h, fns, adds, ids[j], ListDir(b, h, fns.hash(dir)).value[j])
    {
      ListedRecord(b, h, fns, adds, es, ids[j]);
    }
  }

  lemma {:induction false} DirectoryEntries(fns: PathFns, adds: seq<Added>, es: Entries, dir: Bytes)
    returns (ids: seq<nat>)
    requires Recorded(fns, adds, es)
    ensures var ks := KidsOf(fns, es, dir, |es|);
            |ids| == |ks| && forall j :: 0 <= j < |ks| ==> ids[j] == ks[j].idx
    ensures forall j :: 0 <= j < |ids| ==> ids[j] < |adds| && Under(fns, adds[ids[j]].path, dir)
    ensures forall i :: 0 <= i < |adds| && Under(fns, adds[i].path, dir) ==> i in ids
    ensures forall j, l :: 0 <= j < l < |ids| ==> ids[j] < ids[l]
  {
    var ks := KidsOf(fns, es, dir, |es|);
    KidsOfExactly(fns, es, dir, |es|);
    ids := seq(|ks|, j requires 0 <= j < |ks| => ks[j].idx);
    forall i | 0 <= i < |adds| && Under(fns, adds[i].path, dir)
      ensures i in ids
    {
      KidsAreComplete(fns, es, dir, |es|, i);
      var j :| 0 <= j < |ks| && ks[j] == Kid(fns.nameOf(es[i].0), i);
      assert ids[j] == i;
    }
  }

  lemma {:induction false} ListedRecord(b: Bytes, h: Header, fns: PathFns, adds: seq<Added>, es: Entries, i: nat)
    requires ServesStats(b, h, es) && Recorded(fns, adds, es) && i < |adds|
    requires forall j :: 0 <= j < |adds| ==> fns.hash(adds[j].path) != 0
    ensures |StatFill(es).slots| == |es| && ListsAs(b, h, fns, adds, i, ListedChild(fns, es, StatFill(es).slots, i))
  {
    assert NonZeroHashes(es);
    assert Keeps(fns, adds[i], es[i].1);
    if i < MMAP_MAX_ENTRIES {
      RecordIsStat(b, h, es, i);
    }
  }

  /** A directory under which nothing was added is not found. */
  lemma {:induction false} NothingIsListed(b: Bytes, fns: PathFns, adds: seq<Added>, es: Entries, bloom: Bytes,
                                           m: DirMap, order: seq<Bytes>, dir: Bytes)
    requires IsImage(b, fns, es, bloom, m, order) && Recorded(fns, adds, es) && |adds| < 0x1_0000_0000
    requires GoodDirHashes(fns, order) && forall i :: 0 <= i < |adds| ==> !Under(fns, adds[i].path, dir)
    requires forall k :: 0 <= k < |order| && fns.hash(order[k]) == fns.hash(dir) ==> order[k] == dir
    ensures |b| >= HEADER_SIZE && Fits(b, HeaderOf(b)) && ListDir(b, HeaderOf(b), fns.hash(dir)) == None
  {
    ImageIsServed(b, fns, es, bloom, m, order);
    if dir in m {
      GroupedIsUnder(fns, adds, es, m, dir);
    }
    NotListed(b, HeaderOf(b), fns, es, m, order, dir);
  }

  lemma {:induction false} GroupedIsUnder(fns: PathFns, adds: seq<Added>, es: Entries, m: DirMap, dir: Bytes)
    requires Recorded(fns, adds, es) && IsGrouping(fns, es, |es|, m) && dir in m
    ensures exists i :: 0 <= i < |adds| && Under(fns, adds[i].path, dir)
  {
    var ids := DirectoryEntries(fns, adds, es, dir);
    assert Under(fns, adds[ids[0]].path, dir);
  }

  lemma {:induction false} NotListed(b: Bytes, h: Header, fns: PathFns, es: Entries, m: DirMap, order: seq<Bytes>,
                                     dir: Bytes)
    requires ServesDirs(b, h, fns, es, m, order) && GoodDirHashes(fns, order) && dir !in m
    requires forall k :: 0 <= k < |order| && fns.hash(order[k]) == fns.hash(dir) ==> order[k] == dir
    ensures ListDir(b, h, fns.hash(dir)) == None
  {
    forall k | 0 <= k < |order|
      ensures fns.hash(order[k]) != fns.hash(dir)
    {
      assert order[k] in m;
    }
    NotIndexed(fns, m, order, fns.hash(dir));
  }

  lemma {:induction false} NotIndexed(fns: PathFns, m: DirMap, order: seq<Bytes>, hash: nat)
    requires AllIn(m, order) && GoodDirHashes(fns, order)
    requires forall k :: 0 <= k < |order| ==> fns.hash(order[k]) != hash
    ensures Find(DirFill(fns, m, order, |order|).table, hash, 0) == None
  {
    var rs := DirSlots(fns, m, order);
    var empty := EmptyTable(DirCapacity(|order|), DIR_SIZE);
    EmptyTableIsEmpty(DirCapacity(|order|), DIR_SIZE);
    forall j | 0 <= j < |rs|
      ensures !rs[j].IsFree() && rs[j].hash != hash
    {
      DirSlotHash(fns, m, order, j);
    }
    NeverAddedNeverFound(empty, rs, hash);
  }
}
