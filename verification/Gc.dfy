/** Garbage collection: the manifest registry, the keep set and the sweep
    (crates/vrift-cli/src/registry.rs, `verify_all`, `prune_stale`, `get_all_blob_hashes`;
    crates/vrift-cli/src/gc.rs, `run`). */
module Gc {
  import opened Bytes
  import opened BlobNames
  import opened Bloom
  import opened Cas
  import opened CasSweep
  import opened FilterGap
  import MmapImage

  datatype Status = Active | Stale

  datatype RegEntry = RegEntry(source: Bytes, status: Status)

  type Registry = map<Bytes, RegEntry>

  /** Looking up the path of a row: it is there, it is not, or the lookup fails. */
  datatype PathLookup = Found | Absent | Failed

  /** A row of a manifest database, in key order: the content hash of its entry, whether the entry can
      be read and decoded, and what the lookup of its path gives. */
  datatype Row = Row(hash: Bytes, decodes: bool, path: PathLookup)

  /** What a manifest path leads to: a flat manifest that is loaded whole, a database that is iterated,
      or something that can be neither loaded nor opened. */
  datatype Source = Flat(hashes: seq<Bytes>) | Database(rows: seq<Row>) | Broken

  /** The manifests on disk: what each path that exists leads to. */
  type Disk = map<Bytes, Source>

  // ---------------------------------------------------------------- reading a manifest

  /** How many rows an iteration reaches: it ends silently at the first that does not decode. */
  function Reach(rows: seq<Row>): (n: nat)
    ensures n <= |rows| && (forall i | 0 <= i < n :: rows[i].decodes) && (n < |rows| ==> !rows[n].decodes)
  {
    if rows == [] || !rows[0].decodes then 0 else 1 + Reach(rows[1..])
  }

  /** The row does not show in an iteration: it is at or behind the error, or its path is not known. */
  predicate Hidden(rows: seq<Row>, i: nat)
    requires i < |rows|
  {
    i >= Reach(rows) || rows[i].path != Found
  }

  /** A path lookup fails before the iteration ends. */
  predicate LookupFails(rows: seq<Row>) {
    exists i :: 0 <= i < Reach(rows) && rows[i].path == Failed
  }

  predicate LoadFails(source: Source) {
    source.Broken? || (source.Database? && LookupFails(source.rows))
  }

  /** Some entry of the manifest has the hash. */
  predicate Holds(source: Source, h: Bytes) {
    match source
    case Flat(hashes) => h in hashes
    case Database(rows) => exists i :: 0 <= i < |rows| && rows[i].hash == h
    case Broken => false
  }

  /** And reading the manifest shows such an entry. */
  predicate Shows(source: Source, h: Bytes) {
    match source
    case Flat(hashes) => h in hashes
    case Database(rows) => ShownIn(rows, |rows|, h)
    case Broken => false
  }

  /** One of the first `n` rows has the hash and is not hidden. */
  predicate ShownIn(rows: seq<Row>, n: nat, h: Bytes)
    requires n <= |rows|
  {
    exists i :: 0 <= i < n && rows[i].hash == h && !Hidden(rows, i)
  }

  function Elements(hashes: seq<Bytes>): set<Bytes> {
    set h | h in hashes
  }

  /** The iteration over a database just opened, which has nothing pending. */
  method IterateHashes(rows: seq<Row>) returns (r: Option<set<Bytes>>)
    ensures r.None? <==>
            exists i :: 0 <= i < |rows| && rows[i].path == Failed && forall j :: 0 <= j <= i ==> rows[j].decodes
    ensures r.None? <==> LookupFails(rows)
    ensures r.Some? ==> forall h :: h in r.value <==> ShownIn(rows, |rows|, h)
    ensures r.Some? ==>
            forall h :: h in r.value <==>
              exists i :: 0 <= i < |rows| && rows[i].hash == h && rows[i].path == Found
                          && forall j :: 0 <= j <= i ==> rows[j].decodes
  {
    var hashes: set<Bytes> := {};
    var i := 0;
    while i < |rows| && rows[i].decodes
      invariant i <= Reach(rows)
      invariant forall j | 0 <= j < i :: rows[j].path != Failed
      invariant forall h :: h in hashes <==> ShownIn(rows, i, h)
    {
      ghost var before := hashes;
      match rows[i].path {
        case Failed => return None;
        case Absent =>
        case Found => hashes := hashes + {rows[i].hash};
      }
      ShownNext(rows, i, before, hashes);
      i := i + 1;
    }
    return Some(hashes);
  }

  lemma {:induction false} ShownNext(rows: seq<Row>, i: nat, before: set<Bytes>, now: set<Bytes>)
    requires i < Reach(rows) && now == if rows[i].path == Found then before + {rows[i].hash} else before
    requires forall h :: h in before <==> ShownIn(rows, i, h)
    ensures forall h :: h in now <==> ShownIn(rows, i + 1, h)
  {
    assert Hidden(rows, i) <==> rows[i].path != Found;
    forall h
      ensures ShownIn(rows, i + 1, h) <==> ShownIn(rows, i, h) || (rows[i].hash == h && !Hidden(rows, i))
    {
      if rows[i].hash == h && !Hidden(rows, i) {
        assert ShownIn(rows, i + 1, h);
      }
    }
  }

  method ReadHashes(source: Source) returns (r: Option<set<Bytes>>)
    ensures r.None? <==> LoadFails(source)
    ensures r.Some? ==> forall h :: h in r.value <==> Shows(source, h)
    ensures source.Broken? ==> r.None?
    ensures source.Flat? ==> r.Some? && forall h :: h in r.value <==> h in source.hashes
    ensures source.Database? ==>
            (r.None? <==>
             exists i :: 0 <= i < |source.rows| && source.rows[i].path == Failed
                         && forall j :: 0 <= j <= i ==> source.rows[j].decodes)
    ensures source.Database? && r.Some? ==>
            forall h :: h in r.value <==>
              exists i :: 0 <= i < |source.rows| && source.rows[i].hash == h && source.rows[i].path == Found
                          && forall j :: 0 <= j <= i ==> source.rows[j].decodes
  {
    match source {
      case Flat(hashes) => return Some(Elements(hashes));
      case Database(rows) => r := IterateHashes(rows);
      case Broken => return None;
    }
  }

  // ---------------------------------------------------------------- the registry on values

  function StatusOf(disk: Disk, e: RegEntry): Status {
    if e.source in disk then Active else Stale
  }

  /** The registry with every entry outside `rest` marked by whether its manifest exists. */
  ghost predicate VerifiedBut(reg: Registry, disk: Disk, rest: set<Bytes>, now: Registry) {
    && now.Keys == reg.Keys
    && forall u :: u in reg ==> now[u] == if u in rest then reg[u] else reg[u].(status := StatusOf(disk, reg[u]))
  }

  ghost predicate Verified(reg: Registry, disk: Disk, now: Registry) {
    VerifiedBut(reg, disk, {}, now)
  }

  /** The entries that verification gives a status. */
  function Judged(reg: Registry, disk: Disk, s: Status): set<Bytes> {
    set u | u in reg && StatusOf(disk, reg[u]) == s
  }

  function WithStatus(reg: Registry, s: Status): set<Bytes> {
    set u | u in reg && reg[u].status == s
  }

  function Pruned(reg: Registry): Registry {
    map u | u in reg && reg[u].status != Stale :: reg[u]
  }

  /** The entry is looked at when the keep set is collected. */
  predicate Counts(disk: Disk, e: RegEntry) {
    e.status == Active && e.source in disk
  }

  /** Reading some registered manifest that exists shows the hash. */
  ghost predicate Referenced(reg: Registry, disk: Disk, h: Bytes) {
    exists u :: u in reg && ShowsAt(disk, reg[u].source, h)
  }

  predicate ShowsAt(disk: Disk, path: Bytes, h: Bytes) {
    path in disk && Shows(disk[path], h)
  }

  /** One of the entries looked at, outside `rest`, shows the hash. */
  ghost predicate Collected(reg: Registry, disk: Disk, rest: set<Bytes>, h: Bytes) {
    exists u :: u in reg && u !in rest && Counts(disk, reg[u]) && ShowsAt(disk, reg[u].source, h)
  }

  ghost predicate Loadable(reg: Registry, disk: Disk) {
    forall u :: u in reg && reg[u].source in disk ==> !LoadFails(disk[reg[u].source])
  }

  /** After verification, collecting over the entries marked active is collecting over the entries
      whose manifests exist, and pruning loses none of those. */
  lemma {:induction false} VerifiedReferences(reg: Registry, disk: Disk, now: Registry, h: Bytes)
    requires Verified(reg, disk, now)
    ensures Collected(now, disk, {}, h) <==> Referenced(reg, disk, h)
    ensures Collected(Pruned(now), disk, {}, h) <==> Referenced(reg, disk, h)
  {
    if u :| u in reg && ShowsAt(disk, reg[u].source, h) {
      assert u in now && Counts(disk, now[u]) && ShowsAt(disk, now[u].source, h);
      assert u in Pruned(now) && Pruned(now)[u] == now[u];
    }
    if u :| u in now && Counts(disk, now[u]) && ShowsAt(disk, now[u].source, h) {
      assert ShowsAt(disk, reg[u].source, h);
    }
    if u :| u in Pruned(now) && Counts(disk, Pruned(now)[u]) && ShowsAt(disk, Pruned(now)[u].source, h) {
      assert ShowsAt(disk, reg[u].source, h);
    }
  }

  lemma {:induction false} LessRest(s: set<Bytes>, rest: set<Bytes>, u: Bytes)
    requires u in rest
    ensures |s - (rest - {u})| == |s - rest| + if u in s then 1 else 0
  {
    if u in s {
      assert s - (rest - {u}) == s - rest + {u};
    } else {
      assert s - (rest - {u}) == s - rest;
    }
  }

  /** The counts over the entries outside `rest`. */
  ghost predicate Tallied(reg: Registry, disk: Disk, rest: set<Bytes>, active: nat, stale: nat) {
    active == |Judged(reg, disk, Active) - rest| && stale == |Judged(reg, disk, Stale) - rest|
  }

  lemma {:induction false} TallyStart(reg: Registry, disk: Disk)
    ensures Tallied(reg, disk, reg.Keys, 0, 0)
  {
    assert Judged(reg, disk, Active) - reg.Keys == {} && Judged(reg, disk, Stale) - reg.Keys == {};
  }

  lemma {:induction false} TallyStep(reg: Registry, disk: Disk, rest: set<Bytes>, u: Bytes, active: nat, stale: nat)
    requires u in rest && u in reg && Tallied(reg, disk, rest, active, stale)
    ensures reg[u].source in disk ==> Tallied(reg, disk, rest - {u}, active + 1, stale)
    ensures reg[u].source !in disk ==> Tallied(reg, disk, rest - {u}, active, stale + 1)
  {
    LessRest(Judged(reg, disk, Active), rest, u);
    LessRest(Judged(reg, disk, Stale), rest, u);
  }

  lemma {:induction false} VerifyStep(reg: Registry, disk: Disk, rest: set<Bytes>, now: Registry, u: Bytes)
    requires u in rest && u in reg && VerifiedBut(reg, disk, rest, now)
    ensures VerifiedBut(reg, disk, rest - {u}, now[u := now[u].(status := StatusOf(disk, now[u]))])
  {
  }

  lemma {:induction false} TallyEnd(reg: Registry, disk: Disk, now: Registry, active: nat, stale: nat)
    requires Verified(reg, disk, now) && Tallied(reg, disk, {}, active, stale)
    ensures active == |WithStatus(now, Active)| && stale == |WithStatus(now, Stale)| && active + stale == |reg|
  {
    JudgedIsStatus(reg, disk, now, Active);
    JudgedIsStatus(reg, disk, now, Stale);
    JudgedPartition(reg, disk);
  }

  lemma {:induction false} JudgedIsStatus(reg: Registry, disk: Disk, now: Registry, s: Status)
    requires Verified(reg, disk, now)
    ensures Judged(reg, disk, s) - {} == WithStatus(now, s)
  {
  }

  lemma {:induction false} JudgedPartition(reg: Registry, disk: Disk)
    ensures |Judged(reg, disk, Active) - {}| + |Judged(reg, disk, Stale) - {}| == |reg|
  {
    var ups, downs := Judged(reg, disk, Active), Judged(reg, disk, Stale);
    assert ups - {} == ups && downs - {} == downs;
    assert ups + downs == reg.Keys && ups !! downs;
  }

  lemma {:induction false} WithoutStale(reg: Registry)
    ensures reg - WithStatus(reg, Stale) == Pruned(reg)
  {
    var left, kept := reg - WithStatus(reg, Stale), Pruned(reg);
    assert forall u :: u in WithStatus(reg, Stale) <==> u in reg && reg[u].status == Stale;
    assert left.Keys == kept.Keys;
    assert forall u :: u in left ==> left[u] == kept[u];
  }

  // ---------------------------------------------------------------- the registry in place

  class ManifestRegistry {
    var manifests: Registry

    method VerifyAll(disk: Disk) returns (active: nat, stale: nat)
      modifies this
      ensures Verified(old(manifests), disk, manifests)
      ensures active == |WithStatus(manifests, Active)| && stale == |WithStatus(manifests, Stale)|
      ensures active + stale == |old(manifests)|
    {
      active, stale := 0, 0;
      var start := manifests;
      var rest := manifests.Keys;
      TallyStart(start, disk);
      while rest != {}
        invariant rest <= start.Keys && VerifiedBut(start, disk, rest, manifests)
        invariant Tallied(start, disk, rest, active, stale)
        decreases rest
      {
        var u :| u in rest;
        var e := manifests[u];
        VerifyStep(start, disk, rest, manifests, u);
        TallyStep(start, disk, rest, u, active, stale);
        manifests := manifests[u := e.(status := StatusOf(disk, e))];
        if e.source in disk {
          active := active + 1;
        } else {
          stale := stale + 1;
        }
        rest := rest - {u};
      }
      TallyEnd(start, disk, manifests, active, stale);
    }

    method PruneStale() returns (count: nat)
      modifies this
      ensures manifests == Pruned(old(manifests))
      ensures count == |WithStatus(old(manifests), Stale)|
    {
      var stale := WithStatus(manifests, Stale);
      count := |stale|;
      var start := manifests;
      var rest := stale;
      while rest != {}
        invariant rest <= stale
        invariant manifests == start - (stale - rest)
        decreases rest
      {
        var u :| u in rest;
        manifests := manifests - {u};
        rest := rest - {u};
      }
      assert stale - {} == stale;
      WithoutStale(start);
    }

    /** The union of what reading the active manifests shows, or a failure when one of them cannot be
        loaded. */
    method GetAllBlobHashes(disk: Disk) returns (r: Option<set<Bytes>>)
      ensures r.Some? <==>
              forall u :: u in manifests && manifests[u].status == Active && manifests[u].source in disk
                          ==> !LoadFails(disk[manifests[u].source])
      ensures r.Some? ==> forall h :: h in r.value <==> Collected(manifests, disk, {}, h)
      ensures r.Some? ==>
              forall h :: h in r.value <==>
                exists u :: u in manifests && manifests[u].status == Active && manifests[u].source in disk
                            && Shows(disk[manifests[u].source], h)
    {
      var hashes: set<Bytes> := {};
      var rest := manifests.Keys;
      while rest != {}
        invariant rest <= manifests.Keys
        invariant forall u :: u in manifests && u !in rest && Counts(disk, manifests[u])
                              ==> !LoadFails(disk[manifests[u].source])
        invariant forall h :: h in hashes <==> Collected(manifests, disk, rest, h)
        decreases rest
      {
        var u :| u in rest;
        var e := manifests[u];
        rest := rest - {u};
        if Counts(disk, e) {
          var read := ReadHashes(disk[e.source]);
          match read {
            case None => return None;
            case Some(shown) => hashes := hashes + shown;
          }
        }
      }
      return Some(hashes);
    }
  }

  // ---------------------------------------------------------------- the filter of a keep set

  /** The bits are those of a filter to which the hashes were added, in some order. */
  ghost predicate IsFilterOf(bits: Bytes, keep: set<Bytes>) {
    exists keys :: HexOf(keys, keep) && bits == AddKeys(Zeros(MmapImage.BLOOM_SIZE), keys)
  }

  ghost predicate HexOf(keys: seq<Bytes>, keep: set<Bytes>) {
    && (forall h :: h in keep ==> ToHex(h) in keys)
    && (forall i :: 0 <= i < |keys| ==> exists h :: h in keep && keys[i] == ToHex(h))
  }

  lemma {:induction false} FilterAcceptsKept(bits: Bytes, keep: set<Bytes>, h: Bytes)
    requires |bits| > 0 && IsFilterOf(bits, keep) && h in keep
    ensures Accepts(bits, ToHex(h))
  {
    var keys :| HexOf(keys, keep) && bits == AddKeys(Zeros(MmapImage.BLOOM_SIZE), keys);
    AcceptsExactly(MmapImage.BLOOM_SIZE, keys, ToHex(h));
  }

  lemma {:induction false} HexOfOneMore(keys: seq<Bytes>, keep: set<Bytes>, h: Bytes)
    requires HexOf(keys, keep)
    ensures HexOf(keys + [ToHex(h)], keep + {h})
  {
    var more := keys + [ToHex(h)];
    forall i | 0 <= i < |more|
      ensures exists g :: g in keep + {h} && more[i] == ToHex(g)
    {
      if i < |keys| {
        var g :| g in keep && keys[i] == ToHex(g);
        assert g in keep + {h};
      } else {
        assert h in keep + {h};
      }
    }
    forall g | g in keep + {h}
      ensures ToHex(g) in more
    {
      if g in keep {
        assert ToHex(g) in keys;
      } else {
        assert more[|keys|] == ToHex(g);
      }
    }
  }

  method BuildFilter(keep: set<Bytes>) returns (bloom: BloomFilter)
    ensures fresh(bloom) && fresh(bloom.bits) && bloom.bits.Length == MmapImage.BLOOM_SIZE
    ensures IsFilterOf(bloom.bits[..], keep)
  {
    bloom := new BloomFilter(MmapImage.BLOOM_SIZE);
    var rest := keep;
    ghost var keys: seq<Bytes> := [];
    while rest != {}
      invariant rest <= keep && fresh(bloom.bits)
      invariant HexOf(keys, keep - rest)
      invariant bloom.bits[..] == AddKeys(Zeros(MmapImage.BLOOM_SIZE), keys)
      decreases rest
    {
      var h :| h in rest;
      bloom.Add(ToHex(h));
      HexOfOneMore(keys, keep - rest, h);
      assert keep - (rest - {h}) == keep - rest + {h};
      assert (keys + [ToHex(h)])[..|keys|] == keys;
      keys := keys + [ToHex(h)];
      rest := rest - {h};
    }
    assert keep - {} == keep;
  }

  // ---------------------------------------------------------------- the command

  datatype Args = Args(manifest: Option<Bytes>, delete: bool, pruneStale: bool, confirmed: bool)

  datatype Outcome = LoadFailed | DryRun | Cancelled | Done(bits: Bytes, deleted: nat, reclaimed: nat)

  /** The manifest at the path is looked at: the one named, or every registered one that exists. */
  ghost predicate LookedAt(args: Args, reg: Registry, disk: Disk, path: Bytes) {
    match args.manifest
    case Some(p) => path == p && p in disk
    case None => path in disk && exists u :: u in reg && reg[u].source == path
  }

  /** Reading one of those manifests shows the hash. */
  ghost predicate Shown(args: Args, reg: Registry, disk: Disk, h: Bytes) {
    exists path :: LookedAt(args, reg, disk, path) && Shows(disk[path], h)
  }

  /** The set of all the hashes shown. */
  ghost predicate IsShown(args: Args, reg: Registry, disk: Disk, keep: set<Bytes>) {
    forall h :: h in keep <==> Shown(args, reg, disk, h)
  }

  /** One of those manifests has an entry of the hash. */
  ghost predicate Needed(args: Args, reg: Registry, disk: Disk, h: Bytes) {
    exists path :: LookedAt(args, reg, disk, path) && Holds(disk[path], h)
  }

  /** Whether the keep set can be computed. A manifest that is named must be a flat one. */
  ghost predicate CanLoad(args: Args, reg: Registry, disk: Disk) {
    match args.manifest
    case Some(path) => path in disk && disk[path].Flat?
    case None => Loadable(reg, disk)
  }

  /** What a run leaves in the registry: every entry has the status of its manifest, and with pruning
      and no manifest named the entries without a manifest are gone. */
  ghost predicate RegistryAfter(args: Args, reg: Registry, disk: Disk, now: Registry) {
    && (forall u :: u in now <==> u in reg && (args.manifest.None? && args.pruneStale ==> reg[u].source in disk))
    && (forall u :: u in now ==> now[u].source == reg[u].source
                                 && (now[u].status == Active <==> reg[u].source in disk))
  }

  method KeepSet(registry: ManifestRegistry, disk: Disk, args: Args) returns (keep: Option<set<Bytes>>)
    modifies registry
    ensures keep.Some? <==> CanLoad(args, old(registry.manifests), disk)
    ensures keep.Some? ==> IsShown(args, old(registry.manifests), disk, keep.value)
    ensures RegistryAfter(args, old(registry.manifests), disk, registry.manifests)
  {
    ghost var reg := registry.manifests;
    var active, stale := registry.VerifyAll(disk);
    match args.manifest {
      case Some(path) =>
        if path in disk && disk[path].Flat? {
          assert LookedAt(args, reg, disk, path);
          return Some(Elements(disk[path].hashes));
        }
        return None;
      case None =>
    }
    ghost var now := registry.manifests;
    if args.pruneStale && stale > 0 {
      var pruned := registry.PruneStale();
    } else if args.pruneStale {
      NothingStale(now);
    }
    keep := registry.GetAllBlobHashes(disk);
    LoadableWhenCounted(reg, disk, now, registry.manifests);
    forall h
      ensures Collected(registry.manifests, disk, {}, h) <==> Shown(args, reg, disk, h)
    {
      VerifiedReferences(reg, disk, now, h);
      ShownByRegistry(args, reg, disk, h);
    }
  }

  lemma {:induction false} ShownByRegistry(args: Args, reg: Registry, disk: Disk, h: Bytes)
    requires args.manifest.None?
    ensures Shown(args, reg, disk, h) <==> Referenced(reg, disk, h)
  {
    if u :| u in reg && ShowsAt(disk, reg[u].source, h) {
      assert LookedAt(args, reg, disk, reg[u].source);
    }
  }

  lemma {:induction false} NothingStale(reg: Registry)
    requires WithStatus(reg, Stale) == {}
    ensures Pruned(reg) == reg
  {
    forall u | u in reg
      ensures reg[u].status != Stale
    {
      assert u !in WithStatus(reg, Stale);
    }
  }

  lemma {:induction false} LoadableWhenCounted(reg: Registry, disk: Disk, now: Registry, used: Registry)
    requires Verified(reg, disk, now) && (used == now || used == Pruned(now))
    ensures Loadable(reg, disk) <==> forall u :: u in used && Counts(disk, used[u]) ==> !LoadFails(disk[used[u].source])
  {
    if u :| u in reg && reg[u].source in disk && LoadFails(disk[reg[u].source]) {
      assert now[u].status == Active && u in used && used[u] == now[u] && Counts(disk, used[u]);
    }
  }

  /** Every row that an error or an unknown path hides has a hash that some manifest looked at shows. */
  ghost predicate NothingLost(args: Args, reg: Registry, disk: Disk) {
    forall path, i: nat | LookedAt(args, reg, disk, path) && disk[path].Database? && i < |disk[path].rows|
                          && Hidden(disk[path].rows, i) ::
      Shown(args, reg, disk, disk[path].rows[i].hash)
  }

  lemma {:induction false} ShownIsNeeded(args: Args, reg: Registry, disk: Disk, h: Bytes)
    requires Shown(args, reg, disk, h)
    ensures Needed(args, reg, disk, h)
  {
    var path :| LookedAt(args, reg, disk, path) && Shows(disk[path], h);
    assert Holds(disk[path], h);
  }

  lemma {:induction false} NeededIsShown(args: Args, reg: Registry, disk: Disk, h: Bytes)
    requires NothingLost(args, reg, disk) && Needed(args, reg, disk, h)
    ensures Shown(args, reg, disk, h)
  {
    var path :| LookedAt(args, reg, disk, path) && Holds(disk[path], h);
    if disk[path].Database? {
      var rows := disk[path].rows;
      var i :| 0 <= i < |rows| && rows[i].hash == h;
      if !Hidden(rows, i) {
        assert Shows(disk[path], h);
      }
    } else {
      assert Shows(disk[path], h);
    }
  }

  /** The keep set is exactly what the manifests hold exactly when every hash at or behind the error of
      an iteration, and every one without a path, also occurs before the error of some manifest looked at. */
  lemma {:induction false} KeepSetIsWholeExactly(args: Args, reg: Registry, disk: Disk, keep: set<Bytes>)
    requires IsShown(args, reg, disk, keep)
    ensures (forall h :: h in keep <==> Needed(args, reg, disk, h)) <==> NothingLost(args, reg, disk)
  {
    forall h | Shown(args, reg, disk, h)
      ensures Needed(args, reg, disk, h)
    {
      ShownIsNeeded(args, reg, disk, h);
    }
    if NothingLost(args, reg, disk) {
      forall h | Needed(args, reg, disk, h)
        ensures h in keep
      {
        NeededIsShown(args, reg, disk, h);
      }
    } else {
      var path, i: nat :| LookedAt(args, reg, disk, path) && disk[path].Database? && i < |disk[path].rows|
                          && Hidden(disk[path].rows, i) && !Shown(args, reg, disk, disk[path].rows[i].hash);
      assert Holds(disk[path], disk[path].rows[i].hash);
      assert Needed(args, reg, disk, disk[path].rows[i].hash);
    }
  }

  /** No file of a hash that the manifests show is touched, nor of any they hold when nothing is lost in
      reading them; and what the run deletes is settled by the filter of exactly the hashes shown. */
  method Collect(registry: ManifestRegistry, disk: Disk, args: Args, store: CasStore, listing: seq<Bytes>)
    returns (r: Outcome)
    requires Lists(listing, store.files)
    modifies registry, store
    ensures r.LoadFailed? <==> !CanLoad(args, old(registry.manifests), disk)
    ensures RegistryAfter(args, old(registry.manifests), disk, registry.manifests)
    ensures !r.LoadFailed? ==> (r.Done? <==> args.delete && args.confirmed)
    ensures !r.Done? ==> store.files == old(store.files)
    ensures r.Done? ==> |r.bits| > 0 && Swept(old(store.files), store.files, listing, r.bits)
    ensures r.Done? ==> r.deleted == |old(store.files)| - |store.files|
    ensures r.Done? ==> r.reclaimed == Reclaimed(listing, old(store.files), store.files)
    ensures r.Done? ==> forall h, n | Shown(args, old(registry.manifests), disk, h) && |h| == HASH_LEN
                          && n in old(store.files) && Matches(n, h) ::
                          n in store.files && store.files[n] == old(store.files)[n]
    ensures r.Done? && NothingLost(args, old(registry.manifests), disk)
            ==> forall h, n | Needed(args, old(registry.manifests), disk, h) && |h| == HASH_LEN
                  && n in old(store.files) && Matches(n, h) ::
                  n in store.files && store.files[n] == old(store.files)[n]
    ensures r.Done? ==> exists keep :: IsFilterOf(r.bits, keep) && IsShown(args, old(registry.manifests), disk, keep)
  {
    var keep := KeepSet(registry, disk, args);
    if keep.None? {
      return LoadFailed;
    }
    var bloom := BuildFilter(keep.value);
    if !args.delete {
      return DryRun;
    }
    if !args.confirmed {
      return Cancelled;
    }
    var deleted, reclaimed := Sweep(store, bloom, listing);
    r := Done(bloom.bits[..], deleted, reclaimed);
    forall h, n | Shown(args, old(registry.manifests), disk, h) && |h| == HASH_LEN
                  && n in old(store.files) && Matches(n, h)
      ensures n in store.files && store.files[n] == old(store.files)[n]
    {
      NeededIsKept(old(store.files), store.files, listing, r.bits, keep.value, n, h);
    }
    if NothingLost(args, old(registry.manifests), disk) {
      KeepSetIsWholeExactly(args, old(registry.manifests), disk, keep.value);
    }
  }

  /** Every file of a hash in the keep set survives a sweep against its filter, with its content. */
  lemma {:induction false} NeededIsKept(files: Files, now: Files, listing: seq<Bytes>, bits: Bytes,
                                        keep: set<Bytes>, n: Bytes, h: Bytes)
    requires |bits| > 0 && Swept(files, now, listing, bits) && IsFilterOf(bits, keep)
    requires h in keep && n in files && |h| == HASH_LEN && Matches(n, h)
    ensures n in now && now[n] == files[n]
  {
    FilterAcceptsKept(bits, keep, h);
    AcceptedIsKept(files, now, listing, bits, n, h);
  }

  // ---------------------------------------------------------------- a referenced blob is deleted

  /** All filters of one keep set accept the same strings. */
  lemma {:induction false} FiltersAgree(bits: Bytes, other: Bytes, keep: set<Bytes>, s: Bytes)
    requires IsFilterOf(bits, keep) && IsFilterOf(other, keep) && |bits| > 0 && |other| > 0
    requires Accepts(bits, s)
    ensures Accepts(other, s)
  {
    var n := MmapImage.BLOOM_SIZE;
    var keys :| HexOf(keys, keep) && bits == AddKeys(Zeros(n), keys);
    var others :| HexOf(others, keep) && other == AddKeys(Zeros(n), others);
    AcceptsExactly(n, keys, s);
    AcceptsExactly(n, others, s);
    SameMarks(keys, others, keep, n, Positions(s, n).0);
    SameMarks(keys, others, keep, n, Positions(s, n).1);
  }

  lemma {:induction false} SameMarks(keys: seq<Bytes>, others: seq<Bytes>, keep: set<Bytes>, n: nat, p: nat)
    requires n > 0 && HexOf(keys, keep) && HexOf(others, keep) && Marks(keys, n, p)
    ensures Marks(others, n, p)
  {
    var i :| 0 <= i < |keys| && MarksOne(keys[i], n, p);
    var h :| h in keep && keys[i] == ToHex(h);
    assert ToHex(h) in others;
    var j :| 0 <= j < |others| && others[j] == ToHex(h);
    assert MarksOne(others[j], n, p);
  }

  /** A manifest of two entries of which the second does not decode. */
  function HalfRead(kept: Bytes, lost: Bytes): Source {
    Database([Row(kept, true, Found), Row(lost, false, Found)])
  }

  lemma {:induction false} HalfReadShows(args: Args, reg: Registry, path: Bytes, kept: Bytes, lost: Bytes, h: Bytes)
    requires args.manifest.None? && reg.Values == {RegEntry(path, Active)}
    ensures var disk := map[path := HalfRead(kept, lost)];
            && (Shown(args, reg, disk, h) <==> h == kept)
            && Needed(args, reg, disk, lost) && CanLoad(args, reg, disk)
  {
    var source := HalfRead(kept, lost);
    var disk := map[path := source];
    assert Reach(source.rows) == 1;
    assert RegEntry(path, Active) in reg.Values;
    var u :| u in reg && reg[u] == RegEntry(path, Active);
    assert LookedAt(args, reg, disk, path);
    assert source.rows[0].hash == kept && !Hidden(source.rows, 0);
    assert source.rows[1].hash == lost;
    assert Shows(source, kept) && Holds(source, lost);
    forall v | v in reg
      ensures reg[v].source == path
    {
      assert reg[v] in reg.Values;
    }
  }

  lemma {:induction false} OnlyShown(reg: Registry, path: Bytes, kept: Bytes, lost: Bytes, keep: set<Bytes>)
    requires reg.Values == {RegEntry(path, Active)}
    requires IsShown(DELETE_ALL, reg, map[path := HalfRead(kept, lost)], keep)
    ensures keep == {kept}
  {
    forall h
      ensures Shown(DELETE_ALL, reg, map[path := HalfRead(kept, lost)], h) <==> h == kept
    {
      HalfReadShows(DELETE_ALL, reg, path, kept, lost, h);
    }
  }

  /** A sweep against the filter of the one hash removes the other one's blob. */
  lemma {:induction false} UnshownIsSwept(hash: Hasher, kept: Bytes, lost: Bytes, now: Files, listing: seq<Bytes>,
                                          bits: Bytes, keep: set<Bytes>)
    requires Digests(hash) && Apart(hash(kept), hash(lost)) && |bits| > 0
    requires keep == {hash(kept)} && IsFilterOf(bits, keep)
    requires var files := map[BinNameOf(hash, lost) := lost]; Lists(listing, files) && Swept(files, now, listing, bits)
    ensures now == map[]
  {
    var files := map[BinNameOf(hash, lost) := lost];
    var keys := [ToHex(hash(kept))];
    var one := AddKeys(Zeros(MmapImage.BLOOM_SIZE), keys);
    assert HexOf(keys, keep);
    if Accepts(bits, ToHex(hash(lost))) {
      FiltersAgree(bits, one, keep, ToHex(hash(lost)));
    }
    NamesMatch(hash, lost, []);
    CleanSweep(hash, files, now, listing, bits);
  }

  /** Delete, confirmed, over all registered manifests. */
  const DELETE_ALL := Args(None, true, false, true)

  /** A manifest refers to a blob and its iteration ends before that entry: a confirmed collection over
      it deletes the blob. */
  method LosesReferencedBlob(registry: ManifestRegistry, path: Bytes, store: CasStore, kept: Bytes, lost: Bytes)
    returns (r: Outcome)
    requires Digests(store.hash) && Apart(store.hash(kept), store.hash(lost))
    requires registry.manifests.Values == {RegEntry(path, Active)}
    requires store.files == map[BinNameOf(store.hash, lost) := lost]
    modifies registry, store
    ensures var disk := map[path := HalfRead(store.hash(kept), store.hash(lost))];
            Needed(DELETE_ALL, old(registry.manifests), disk, store.hash(lost))
    ensures r.Done? && store.files == map[]
  {
    var disk := map[path := HalfRead(store.hash(kept), store.hash(lost))];
    var listing := [BinNameOf(store.hash, lost)];
    ghost var reg := registry.manifests;
    HalfReadShows(DELETE_ALL, reg, path, store.hash(kept), store.hash(lost), store.hash(lost));
    r := Collect(registry, disk, DELETE_ALL, store, listing);
    ghost var keep :| IsFilterOf(r.bits, keep) && IsShown(DELETE_ALL, reg, disk, keep);
    OnlyShown(reg, path, store.hash(kept), store.hash(lost), keep);
    UnshownIsSwept(store.hash, kept, lost, store.files, listing, r.bits, keep);
  }
}
