/** Re-ingest with the mtime and size cache, against re-hashing everything
    (crates/vrift-cas/src/zero_copy_ingest.rs, `ingest_solid_tier2_cached_prestat`;
    crates/vrift-cas/src/streaming_ingest.rs, `streaming_ingest_cached`;
    crates/vrift-daemon/src/main.rs, the full-scan handler and `write_ingest_manifest`). */
module IngestCache {
  import opened Bytes
  import opened LmdbManifest

  const SLASH: byte := 47

  /** A scanned file: its path relative to the source root, its content and what `stat` shows. */
  datatype Scanned = Scanned(rel: Bytes, content: Bytes, mtime: nat, mode: nat)

  type PathMap = map<Bytes, Entry>

  // ---------------------------------------------------------------- keys

  /** The key under which a worker looks a file up in the cache. */
  function LookupKey(rel: Bytes): Bytes {
    [SLASH] + rel
  }

  function TrimEnd(s: Bytes): Bytes {
    if s != [] && s[|s| - 1] == SLASH then TrimEnd(s[..|s| - 1]) else s
  }

  /** The key under which the manifest writer stores it; "" and "/" are no prefix. */
  function WriteKey(prefix: Bytes, rel: Bytes): Bytes {
    (if prefix == [SLASH] then [] else TrimEnd(prefix)) + [SLASH] + rel
  }

  /** A prefix counts without its trailing slashes, however many: "/proj" and "/proj/" give the same
      keys, and so do "" and "/". */
  lemma {:induction false} WriteKeyExactly(prefix: Bytes, n: nat, rel: Bytes)
    requires prefix == [] || prefix[|prefix| - 1] != SLASH
    ensures WriteKey(prefix + seq(n, _ => SLASH), rel) == prefix + [SLASH] + rel
  {
    TrimSlashes(prefix, n);
  }

  lemma {:induction false} TrimSlashes(prefix: Bytes, n: nat)
    requires prefix == [] || prefix[|prefix| - 1] != SLASH
    ensures TrimEnd(prefix + seq(n, _ => SLASH)) == prefix
    decreases n
  {
    var s := prefix + seq(n, _ => SLASH);
    if n == 0 {
      assert s == prefix;
    } else {
      TrimSlashes(prefix, n - 1);
      assert s[..|s| - 1] == prefix + seq(n - 1, _ => SLASH);
    }
  }

  // ---------------------------------------------------------------- one ingest

  function EntryOf(hash: Bytes -> Bytes, f: Scanned): Entry {
    Entry(Vnode(hash(f.content), |f.content|, f.mtime, f.mode, 0), Tier2Mutable, false)
  }

  /** Size and mtime match the cached entry. */
  predicate Hit(cache: PathMap, f: Scanned) {
    && LookupKey(f.rel) in cache
    && cache[LookupKey(f.rel)].vnode.size == |f.content|
    && cache[LookupKey(f.rel)].vnode.mtime == f.mtime
  }

  /** The manifest after the results of a scan were written, in scan order; hits are skipped. */
  function CachedIngest(hash: Bytes -> Bytes, prefix: Bytes, cache: PathMap, m: PathMap, files: seq<Scanned>): PathMap {
    if files == [] then m
    else
      var f := files[|files| - 1];
      var m' := CachedIngest(hash, prefix, cache, m, files[..|files| - 1]);
      if Hit(cache, f) then m' else m'[WriteKey(prefix, f.rel) := EntryOf(hash, f)]
  }

  /** The same without a cache: everything is hashed and written. */
  function FullIngest(hash: Bytes -> Bytes, prefix: Bytes, m: PathMap, files: seq<Scanned>): PathMap {
    CachedIngest(hash, prefix, map[], m, files)
  }

  ghost predicate DistinctPaths(files: seq<Scanned>) {
    forall i, j :: 0 <= i < j < |files| ==> files[i].rel != files[j].rel
  }

  lemma {:induction false} WriteKeyInjective(prefix: Bytes, a: Bytes, b: Bytes)
    requires WriteKey(prefix, a) == WriteKey(prefix, b)
    ensures a == b
  {
    var n := |WriteKey(prefix, a)| - |a|;
    assert WriteKey(prefix, a)[n..] == a && WriteKey(prefix, b)[n..] == b;
  }

  lemma {:induction false} NotScannedIsKept(hash: Bytes -> Bytes, prefix: Bytes, cache: PathMap, m: PathMap,
                                            files: seq<Scanned>, k: Bytes)
    requires forall i :: 0 <= i < |files| ==> WriteKey(prefix, files[i].rel) != k
    ensures var m' := CachedIngest(hash, prefix, cache, m, files);
            (k in m' <==> k in m) && (k in m ==> m'[k] == m[k])
    decreases |files|
  {
    if files != [] {
      NotScannedIsKept(hash, prefix, cache, m, files[..|files| - 1], k);
    }
  }

  /** After an ingest a scanned file's key holds its own entry, or on a hit what it held before. */
  lemma {:induction false} ScannedKeyAfter(hash: Bytes -> Bytes, prefix: Bytes, cache: PathMap, m: PathMap,
                                           files: seq<Scanned>, i: nat)
    requires DistinctPaths(files) && i < |files|
    ensures var m' := CachedIngest(hash, prefix, cache, m, files);
            var k := WriteKey(prefix, files[i].rel);
            if Hit(cache, files[i]) then (k in m' <==> k in m) && (k in m ==> m'[k] == m[k])
            else k in m' && m'[k] == EntryOf(hash, files[i])
    decreases |files|
  {
    var n := |files| - 1;
    var k := WriteKey(prefix, files[i].rel);
    if i < n {
      ScannedKeyAfter(hash, prefix, cache, m, files[..n], i);
      if WriteKey(prefix, files[n].rel) == k {
        WriteKeyInjective(prefix, files[n].rel, files[i].rel);
      }
    } else {
      forall j | 0 <= j < n
        ensures WriteKey(prefix, files[..n][j].rel) != k
      {
        if WriteKey(prefix, files[j].rel) == k {
          WriteKeyInjective(prefix, files[j].rel, files[i].rel);
        }
      }
      NotScannedIsKept(hash, prefix, cache, m, files[..n], k);
    }
  }

  // ---------------------------------------------------------------- runs

  /** The manifest after ingesting a sequence of scans, starting empty; between two scans the files
      may change in any way. */
  function RunCached(hash: Bytes -> Bytes, prefix: Bytes, scans: seq<seq<Scanned>>): PathMap {
    if scans == [] then map[]
    else
      var m := RunCached(hash, prefix, scans[..|scans| - 1]);
      CachedIngest(hash, prefix, m, m, scans[|scans| - 1])
  }

  /** Path, size and mtime determine the content, over the whole run. */
  ghost predicate Stamped(stamp: (Bytes, nat, nat) -> Bytes, scans: seq<seq<Scanned>>) {
    forall s, i :: 0 <= s < |scans| && 0 <= i < |scans[s]| ==>
      scans[s][i].content == stamp(scans[s][i].rel, |scans[s][i].content|, scans[s][i].mtime)
  }

  ghost predicate AreScans(scans: seq<seq<Scanned>>) {
    forall s :: 0 <= s < |scans| ==> DistinctPaths(scans[s])
  }

  /** What re-hashing everything at the last scan would leave under a file's key. */
  ghost predicate AgreesWithFull(hash: Bytes -> Bytes, prefix: Bytes, scans: seq<seq<Scanned>>, i: nat)
    requires scans != [] && i < |scans[|scans| - 1]|
  {
    var files := scans[|scans| - 1];
    var k := WriteKey(prefix, files[i].rel);
    var cached := RunCached(hash, prefix, scans);
    var full := FullIngest(hash, prefix, RunCached(hash, prefix, scans[..|scans| - 1]), files);
    && k in cached && k in full
    && cached[k].vnode.contentHash == full[k].vnode.contentHash
    && cached[k].vnode.size == full[k].vnode.size
    && cached[k].vnode.mtime == full[k].vnode.mtime
  }

  /** Every entry is the hash of the content its path, size and mtime stand for. */
  ghost predicate Sound(hash: Bytes -> Bytes, stamp: (Bytes, nat, nat) -> Bytes, prefix: Bytes, m: PathMap) {
    forall rel :: WriteKey(prefix, rel) in m ==>
      var v := m[WriteKey(prefix, rel)].vnode;
      v.contentHash == hash(stamp(rel, v.size, v.mtime))
  }

  lemma {:induction false} IngestIsSound(hash: Bytes -> Bytes, stamp: (Bytes, nat, nat) -> Bytes, prefix: Bytes,
                                         cache: PathMap, m: PathMap, files: seq<Scanned>)
    requires Sound(hash, stamp, prefix, m)
    requires forall i :: 0 <= i < |files|
                         ==> files[i].content == stamp(files[i].rel, |files[i].content|, files[i].mtime)
    ensures Sound(hash, stamp, prefix, CachedIngest(hash, prefix, cache, m, files))
    decreases |files|
  {
    if files != [] {
      var n := |files| - 1;
      IngestIsSound(hash, stamp, prefix, cache, m, files[..n]);
      var m' := CachedIngest(hash, prefix, cache, m, files[..n]);
      var m2 := CachedIngest(hash, prefix, cache, m, files);
      forall rel | WriteKey(prefix, rel) in m2
        ensures var v := m2[WriteKey(prefix, rel)].vnode; v.contentHash == hash(stamp(rel, v.size, v.mtime))
      {
        if WriteKey(prefix, rel) == WriteKey(prefix, files[n].rel) {
          WriteKeyInjective(prefix, rel, files[n].rel);
        }
      }
    }
  }

  lemma {:induction false} RunIsSound(hash: Bytes -> Bytes, stamp: (Bytes, nat, nat) -> Bytes, prefix: Bytes,
                                      scans: seq<seq<Scanned>>)
    requires Stamped(stamp, scans)
    ensures Sound(hash, stamp, prefix, RunCached(hash, prefix, scans))
    decreases |scans|
  {
    if scans != [] {
      var n := |scans| - 1;
      RunIsSound(hash, stamp, prefix, scans[..n]);
      var m := RunCached(hash, prefix, scans[..n]);
      assert forall i :: 0 <= i < |scans[n]| ==>
        scans[n][i].content == stamp(scans[n][i].rel, |scans[n][i].content|, scans[n][i].mtime);
      IngestIsSound(hash, stamp, prefix, m, m, scans[n]);
    }
  }

  // ---------------------------------------------------------------- with a prefix

  /** The lookup key of the file can be the stored key of another. */
  predicate Clashes(prefix: Bytes, rel: Bytes) {
    WriteKey(prefix, []) <= LookupKey(rel) && WriteKey(prefix, []) != [SLASH]
  }

  /** Keys in the manifest all start with the prefix. */
  lemma {:induction false} KeysHavePrefix(hash: Bytes -> Bytes, prefix: Bytes, cache: PathMap, m: PathMap,
                                          files: seq<Scanned>, k: Bytes)
    requires forall k :: k in m ==> WriteKey(prefix, []) <= k
    ensures k in CachedIngest(hash, prefix, cache, m, files) ==> WriteKey(prefix, []) <= k
    decreases |files|
  {
    if files != [] {
      KeysHavePrefix(hash, prefix, cache, m, files[..|files| - 1], k);
    }
  }

  lemma {:induction false} RunKeysHavePrefix(hash: Bytes -> Bytes, prefix: Bytes, scans: seq<seq<Scanned>>, k: Bytes)
    ensures k in RunCached(hash, prefix, scans) ==> WriteKey(prefix, []) <= k
    decreases |scans|
  {
    if scans != [] {
      var m := RunCached(hash, prefix, scans[..|scans| - 1]);
      forall k' | k' in m
        ensures WriteKey(prefix, []) <= k'
      {
        RunKeysHavePrefix(hash, prefix, scans[..|scans| - 1], k');
      }
      KeysHavePrefix(hash, prefix, m, m, scans[|scans| - 1], k);
    }
  }

  /** With any prefix, a file whose lookup key cannot be another file's stored key agrees too. */
  lemma {:induction false} SeparateFilesAgree(hash: Bytes -> Bytes, stamp: (Bytes, nat, nat) -> Bytes, prefix: Bytes,
                                              scans: seq<seq<Scanned>>, i: nat)
    requires AreScans(scans) && Stamped(stamp, scans) && scans != [] && i < |scans[|scans| - 1]|
    requires !Clashes(prefix, scans[|scans| - 1][i].rel)
    ensures AgreesWithFull(hash, prefix, scans, i)
  {
    var n := |scans| - 1;
    var files := scans[n];
    var m := RunCached(hash, prefix, scans[..n]);
    var f := files[i];
    ScannedKeyAfter(hash, prefix, m, m, files, i);
    ScannedKeyAfter(hash, prefix, map[], m, files, i);
    if Hit(m, f) {
      RunKeysHavePrefix(hash, prefix, scans[..n], LookupKey(f.rel));
      assert WriteKey(prefix, []) == [SLASH];
      assert WriteKey(prefix, f.rel) == WriteKey(prefix, []) + f.rel == LookupKey(f.rel);
      RunIsSound(hash, stamp, prefix, scans[..n]);
    }
  }

  /** Over every run of scans and edits without a prefix, the cached re-ingest leaves every scanned
      key with the content hash, size and mtime that re-hashing everything would leave. */
  lemma {:induction false} CacheAgreesWithRehash(hash: Bytes -> Bytes, stamp: (Bytes, nat, nat) -> Bytes,
                                                 scans: seq<seq<Scanned>>, i: nat)
    requires AreScans(scans) && Stamped(stamp, scans) && scans != [] && i < |scans[|scans| - 1]|
    ensures AgreesWithFull(hash, [], scans, i)
  {
    assert WriteKey([], []) == [SLASH];
    SeparateFilesAgree(hash, stamp, [], scans, i);
  }

  lemma {:induction false} RunOne(hash: Bytes -> Bytes, prefix: Bytes, files: seq<Scanned>)
    ensures RunCached(hash, prefix, [files]) == CachedIngest(hash, prefix, map[], map[], files)
  {
    var scans := [files];
    assert scans[..|scans| - 1] == [];
    var m := RunCached(hash, prefix, scans[..|scans| - 1]);
    assert m == map[];
  }

  /** The clash is real: when the lookup key of `rel` is the stored key of another file, one scan of
      both files and a second after `rel` has changed leave `rel` with its old hash and size. */
  lemma {:induction false} ClashDisagrees(hash: Bytes -> Bytes, prefix: Bytes, rel: Bytes)
    returns (stamp: (Bytes, nat, nat) -> Bytes, scans: seq<seq<Scanned>>)
    requires Clashes(prefix, rel)
    ensures AreScans(scans) && Stamped(stamp, scans) && |scans| == 2 && |scans[1]| == 1 && scans[1][0].rel == rel
    ensures !AgreesWithFull(hash, prefix, scans, 0)
  {
    var p := WriteKey(prefix, []);
    var other := LookupKey(rel)[|p|..];
    assert WriteKey(prefix, other) == p + other == LookupKey(rel);
    assert |p| >= 2 && |other| < |rel|;
    stamp := (path, size, mtime) => if path == other then [0] else if size == 0 then [] else [1];
    var first := [Scanned(other, [0], 1, 0), Scanned(rel, [], 2, 0)];
    var second := [Scanned(rel, [1], 1, 0)];
    scans := [first, second];
    assert DistinctPaths(first) && DistinctPaths(second);
    assert scans[..1] == [first];
    RunOne(hash, prefix, first);
    var m := RunCached(hash, prefix, scans[..1]);
    ScannedKeyAfter(hash, prefix, map[], map[], first, 0);
    ScannedKeyAfter(hash, prefix, map[], map[], first, 1);
    assert Hit(m, second[0]);
    ScannedKeyAfter(hash, prefix, m, m, second, 0);
    ScannedKeyAfter(hash, prefix, map[], m, second, 0);
  }

  /** File `i` of the last scan of a run is `rel`. */
  ghost predicate IsRunOf(stamp: (Bytes, nat, nat) -> Bytes, scans: seq<seq<Scanned>>, i: nat, rel: Bytes) {
    && AreScans(scans) && Stamped(stamp, scans)
    && scans != [] && i < |scans[|scans| - 1]| && scans[|scans| - 1][i].rel == rel
  }

  ghost predicate AlwaysAgrees(hash: Bytes -> Bytes, prefix: Bytes, rel: Bytes) {
    forall stamp: (Bytes, nat, nat) -> Bytes, scans: seq<seq<Scanned>>, i: nat ::
      IsRunOf(stamp, scans, i, rel) ==> AgreesWithFull(hash, prefix, scans, i)
  }

  /** So a file is always served as re-hashing would serve it exactly when its lookup key does not
      start with the stored prefix, or there is no prefix. */
  lemma {:induction false} CacheIsSafeExactly(hash: Bytes -> Bytes, prefix: Bytes, rel: Bytes)
    ensures AlwaysAgrees(hash, prefix, rel) <==> !Clashes(prefix, rel)
  {
    if Clashes(prefix, rel) {
      var stamp: (Bytes, nat, nat) -> Bytes, scans: seq<seq<Scanned>> := ClashDisagrees(hash, prefix, rel);
      assert IsRunOf(stamp, scans, 0, rel);
    } else {
      forall stamp: (Bytes, nat, nat) -> Bytes, scans: seq<seq<Scanned>>, i: nat | IsRunOf(stamp, scans, i, rel)
        ensures AgreesWithFull(hash, prefix, scans, i)
      {
        SeparateFilesAgree(hash, stamp, prefix, scans, i);
      }
    }
  }

  // ---------------------------------------------------------------- modes

  /** The last scan of a run leaves a file with the mode that re-hashing everything would leave. */
  ghost predicate ModeAgrees(hash: Bytes -> Bytes, prefix: Bytes, scans: seq<seq<Scanned>>, i: nat)
    requires scans != [] && i < |scans[|scans| - 1]|
  {
    var files := scans[|scans| - 1];
    var k := WriteKey(prefix, files[i].rel);
    var cached := RunCached(hash, prefix, scans);
    var full := FullIngest(hash, prefix, RunCached(hash, prefix, scans[..|scans| - 1]), files);
    k in cached && k in full && cached[k].vnode.mode == full[k].vnode.mode
  }

  predicate HasMode(m: PathMap, k: Bytes, mode: nat) {
    k in m && m[k].vnode.mode == mode
  }

  /** Over every run, with any prefix, it does exactly when the file misses the cache or the manifest
      before the scan records the file's mode already. */
  lemma {:induction false} ModeAgreesExactly(hash: Bytes -> Bytes, prefix: Bytes, scans: seq<seq<Scanned>>, i: nat)
    requires AreScans(scans) && scans != [] && i < |scans[|scans| - 1]|
    ensures var m := RunCached(hash, prefix, scans[..|scans| - 1]);
            var f := scans[|scans| - 1][i];
            ModeAgrees(hash, prefix, scans, i) <==> !Hit(m, f) || HasMode(m, WriteKey(prefix, f.rel), f.mode)
  {
    var m := RunCached(hash, prefix, scans[..|scans| - 1]);
    var files := scans[|scans| - 1];
    ScannedKeyAfter(hash, prefix, m, m, files, i);
    ScannedKeyAfter(hash, prefix, map[], m, files, i);
  }

  /** The mode a run has recorded for a file, told from the file's own history: that of the first of
      its latest scans over which size and mtime stayed the same. */
  function Tracked(scans: seq<seq<Scanned>>, rel: Bytes): Option<Scanned> {
    if scans == [] then None
    else
      var before := Tracked(scans[..|scans| - 1], rel);
      match FindFile(scans[|scans| - 1], rel)
      case None => before
      case Some(f) =>
        if before.Some? && |before.value.content| == |f.content| && before.value.mtime == f.mtime
        then before else Some(f)
  }

  function FindFile(files: seq<Scanned>, rel: Bytes): (r: Option<Scanned>)
    ensures r.Some? ==> r.value in files && r.value.rel == rel
    ensures r.None? ==> forall f | f in files :: f.rel != rel
  {
    if files == [] then None
    else if files[0].rel == rel then Some(files[0])
    else FindFile(files[1..], rel)
  }

  /** The manifest entry shows the size, mtime and mode of the tracked scan. */
  ghost predicate Shows(m: PathMap, rel: Bytes, t: Option<Scanned>) {
    match t
    case None => LookupKey(rel) !in m
    case Some(f) =>
      && LookupKey(rel) in m
      && m[LookupKey(rel)].vnode.size == |f.content| && m[LookupKey(rel)].vnode.mtime == f.mtime
      && m[LookupKey(rel)].vnode.mode == f.mode
  }

  lemma {:induction false} NoKeyOf(files: seq<Scanned>, rel: Bytes)
    requires forall f | f in files :: f.rel != rel
    ensures forall i :: 0 <= i < |files| ==> WriteKey([], files[i].rel) != LookupKey(rel)
  {
    forall i | 0 <= i < |files|
      ensures WriteKey([], files[i].rel) != LookupKey(rel)
    {
      assert files[i] in files && WriteKey([], rel) == LookupKey(rel);
      if WriteKey([], files[i].rel) == LookupKey(rel) {
        WriteKeyInjective([], files[i].rel, rel);
      }
    }
  }

  lemma {:induction false} RunShowsTracked(hash: Bytes -> Bytes, scans: seq<seq<Scanned>>, rel: Bytes)
    requires AreScans(scans)
    ensures Shows(RunCached(hash, [], scans), rel, Tracked(scans, rel))
    decreases |scans|
  {
    if scans != [] {
      var n := |scans| - 1;
      RunShowsTracked(hash, scans[..n], rel);
      var m := RunCached(hash, [], scans[..n]);
      assert forall r :: WriteKey([], r) == LookupKey(r);
      match FindFile(scans[n], rel)
      case None =>
        NoKeyOf(scans[n], rel);
        NotScannedIsKept(hash, [], m, m, scans[n], LookupKey(rel));
      case Some(f) =>
        var i :| 0 <= i < |scans[n]| && scans[n][i] == f;
        ScannedKeyAfter(hash, [], m, m, scans[n], i);
    }
  }

  /** So without a prefix the mode is right after a run exactly when it is the mode of the first of the
      latest scans over which the file's size and mtime stayed the same. */
  lemma {:induction false} ModeIsTracked(hash: Bytes -> Bytes, scans: seq<seq<Scanned>>, i: nat)
    requires AreScans(scans) && scans != [] && i < |scans[|scans| - 1]|
    ensures var f := scans[|scans| - 1][i];
            && Tracked(scans, f.rel).Some?
            && (ModeAgrees(hash, [], scans, i) <==> Tracked(scans, f.rel).value.mode == f.mode)
  {
    var n := |scans| - 1;
    var f := scans[n][i];
    assert WriteKey([], f.rel) == LookupKey(f.rel);
    assert f in scans[n];
    RunShowsTracked(hash, scans, f.rel);
    ScannedKeyAfter(hash, [], map[], RunCached(hash, [], scans[..n]), scans[n], i);
  }

  /** The smallest case: a change of mode alone between two scans is not picked up. */
  lemma {:induction false} ModeChangeIsMissed(hash: Bytes -> Bytes, rel: Bytes, content: Bytes, mtime: nat, mode: nat,
                                              mode': nat)
    requires mode != mode'
    ensures !ModeAgrees(hash, [], [[Scanned(rel, content, mtime, mode)], [Scanned(rel, content, mtime, mode')]], 0)
  {
    var first, second := [Scanned(rel, content, mtime, mode)], [Scanned(rel, content, mtime, mode')];
    var scans := [first, second];
    var one: seq<seq<Scanned>> := [first];
    assert scans[..1] == one && one[..0] == [];
    assert Tracked(one, rel) == Some(first[0]);
    assert FindFile(second, rel) == Some(second[0]);
    assert Tracked(scans, rel) == Some(first[0]);
    ModeIsTracked(hash, scans, 0);
  }

  // ---------------------------------------------------------------- the handler

  datatype IngestResult = IngestResult(rel: Bytes, hash: Bytes, size: nat, mtime: nat, mode: nat, skipped: bool)

  /** One worker step: a hit returns the cached hash without reading the file. */
  method IngestOne(contentHash: Bytes -> Bytes, cache: PathMap, f: Scanned) returns (r: IngestResult)
    ensures r.rel == f.rel && r.size == |f.content| && r.mtime == f.mtime && r.mode == f.mode
    ensures r.skipped == Hit(cache, f)
    ensures r.hash == if r.skipped then cache[LookupKey(f.rel)].vnode.contentHash else contentHash(f.content)
  {
    var key := [SLASH] + f.rel;
    if key in cache {
      var hint := cache[key].vnode;
      if hint.size == |f.content| && hint.mtime == f.mtime {
        return IngestResult(f.rel, hint.contentHash, |f.content|, f.mtime, f.mode, true);
      }
    }
    return IngestResult(f.rel, contentHash(f.content), |f.content|, f.mtime, f.mode, false);
  }

  /** The entries of a listing by path. */
  method CollectHints(items: seq<(Bytes, Entry)>) returns (cache: PathMap)
    ensures forall j :: 0 <= j < |items| ==> items[j].0 in cache
    ensures forall p :: p in cache ==> (p, cache[p]) in items
  {
    cache := map[];
    for i := 0 to |items|
      invariant forall j :: 0 <= j < i ==> items[j].0 in cache
      invariant forall p :: p in cache ==> (p, cache[p]) in items
    {
      cache := cache[items[i].0 := items[i].1];
    }
  }

  lemma {:induction false} HintsArePlain(hash: Bytes -> PathHash, view: map<PathHash, Entry>, plain: PathMap,
                                         items: seq<(Bytes, Entry)>, cache: PathMap)
    requires Injective(hash) && Represents(hash, view, plain) && Lists(hash, view, items)
    requires forall j :: 0 <= j < |items| ==> items[j].0 in cache
    requires forall p :: p in cache ==> (p, cache[p]) in items
    ensures cache == plain
  {
    forall p | p in cache
      ensures p in plain && cache[p] == plain[p]
    {
      var j :| 0 <= j < |items| && items[j] == (p, cache[p]);
      assert hash(items[j].0) in view;
    }
    forall p | p in plain
      ensures p in cache
    {
      var j :| 0 <= j < |items| && hash(items[j].0) == hash(p);
      assert items[j].0 == p;
    }
  }

  /** Pre-loads the manifest into a map from paths. */
  method LoadCache(m: Manifest, ghost plain: PathMap) returns (cache: PathMap)
    requires m.Valid() && Injective(m.hash) && Represents(m.hash, m.View(), plain)
    ensures cache == plain
  {
    var items := m.Iter();
    cache := CollectHints(items);
    HintsArePlain(m.hash, m.View(), plain, items, cache);
  }

  ghost predicate IsResult(contentHash: Bytes -> Bytes, cache: PathMap, f: Scanned, r: IngestResult) {
    && r.rel == f.rel && r.size == |f.content| && r.mtime == f.mtime && r.mode == f.mode
    && r.skipped == Hit(cache, f) && (!r.skipped ==> r.hash == contentHash(f.content))
  }

  ghost predicate AreResults(contentHash: Bytes -> Bytes, cache: PathMap, files: seq<Scanned>, rs: seq<IngestResult>) {
    |rs| == |files| && forall j :: 0 <= j < |rs| ==> IsResult(contentHash, cache, files[j], rs[j])
  }

  method IngestAll(contentHash: Bytes -> Bytes, cache: PathMap, files: seq<Scanned>)
    returns (results: seq<IngestResult>)
    ensures AreResults(contentHash, cache, files, results)
  {
    results := [];
    for i := 0 to |files|
      invariant AreResults(contentHash, cache, files[..i], results)
    {
      var r := IngestOne(contentHash, cache, files[i]);
      results := results + [r];
    }
  }

  /** Writes the results that were not skipped and commits. */
  method WriteIngestManifest(m: Manifest, prefix: Bytes, results: seq<IngestResult>,
                             ghost contentHash: Bytes -> Bytes, ghost plain: PathMap, ghost files: seq<Scanned>)
    requires m.Valid() && Injective(m.hash) && Represents(m.hash, m.View(), plain)
    requires AreResults(contentHash, plain, files, results)
    modifies m
    ensures m.Valid() && m.delta == map[]
    ensures Represents(m.hash, m.View(), CachedIngest(contentHash, prefix, plain, plain, files))
  {
    var trimmed := if prefix == [SLASH] then [] else TrimEnd(prefix);
    for i := 0 to |results|
      invariant m.Valid()
      invariant Represents(m.hash, m.View(), CachedIngest(contentHash, prefix, plain, plain, files[..i]))
    {
      assert files[..i + 1][..i] == files[..i];
      assert IsResult(contentHash, plain, files[i], results[i]);
      var r := results[i];
      if !r.skipped {
        ghost var m0 := CachedIngest(contentHash, prefix, plain, plain, files[..i]);
        var vnode := Vnode(r.hash, r.size, r.mtime, r.mode, 0);
        ApplyRepresents(m.hash, m.View(), m0, Insert(trimmed + [SLASH] + r.rel, vnode, Tier2Mutable));
        m.InsertEntry(trimmed + [SLASH] + r.rel, vnode, Tier2Mutable);
      }
    }
    assert files[..|files|] == files;
    var _ := m.CommitDelta(true);
  }

  /** The full-scan handler on a tier-2 source without forced hashing. */
  method IngestFullScan(m: Manifest, contentHash: Bytes -> Bytes, prefix: Bytes, files: seq<Scanned>,
                        ghost plain: PathMap)
    requires m.Valid() && Injective(m.hash) && Represents(m.hash, m.View(), plain)
    modifies m
    ensures m.Valid() && m.delta == map[]
    ensures Represents(m.hash, m.View(), CachedIngest(contentHash, prefix, plain, plain, files))
  {
    var cache := LoadCache(m, plain);
    var results := IngestAll(contentHash, cache, files);
    WriteIngestManifest(m, prefix, results, contentHash, plain, files);
  }

  /** What the manifest tells about a file after a full scan, for a prefix with any number of trailing
      slashes. A file whose size and mtime stand under "/" and its relative path keeps what its key held. */
  method IngestThenGet(m: Manifest, contentHash: Bytes -> Bytes, prefix: Bytes, slashes: nat, files: seq<Scanned>,
                       i: nat, ghost plain: PathMap)
    returns (r: Option<Entry>)
    requires m.Valid() && Injective(m.hash) && Represents(m.hash, m.View(), plain)
    requires prefix == [] || prefix[|prefix| - 1] != SLASH
    requires DistinctPaths(files) && i < |files|
    modifies m
    ensures var f, look, key := files[i], [SLASH] + files[i].rel, prefix + [SLASH] + files[i].rel;
            if look in plain && plain[look].vnode.size == |f.content| && plain[look].vnode.mtime == f.mtime
            then r == if key in plain then Some(plain[key]) else None
            else
              && r.Some? && r.value.tier == Tier2Mutable && !r.value.stale
              && r.value.vnode.contentHash == contentHash(f.content) && r.value.vnode.size == |f.content|
              && r.value.vnode.mtime == f.mtime && r.value.vnode.mode == f.mode && r.value.vnode.flags == 0
  {
    var given := prefix + seq(slashes, _ => SLASH);
    IngestFullScan(m, contentHash, given, files, plain);
    r := m.Get(prefix + [SLASH] + files[i].rel);
    WriteKeyExactly(prefix, slashes, files[i].rel);
    ScannedKeyAfter(contentHash, given, plain, plain, files, i);
  }
}
