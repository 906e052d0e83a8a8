/** The sweep of the store against a Bloom filter, and the daemon's index after it
    (crates/vrift-cas/src/lib.rs, `CasStore::sweep` over `CasIterator`;
    crates/vrift-daemon/src/main.rs, the `CasSweep` request).

    The iterator visits the files present at its start, each once, in any order. */
module CasSweep {
  import opened Bytes
  import opened BlobNames
  import opened Bloom
  import opened Cas

  /** A listing names every file of the store once. */
  ghost predicate Lists(listing: seq<Bytes>, files: Files) {
    && (forall n :: n in files <==> n in listing)
    && (forall i, j :: 0 <= i < j < |listing| ==> listing[i] != listing[j])
  }

  predicate Rejected(bits: Bytes, h: Bytes)
    requires |bits| > 0
  {
    |h| == HASH_LEN && !Accepts(bits, ToHex(h))
  }

  function Group(files: Files, h: Bytes): set<Bytes> {
    set n | n in files && Matches(n, h)
  }

  /** How often the iterator yields a hash. */
  function Yields(listing: seq<Bytes>, h: Bytes): nat {
    if listing == [] then 0
    else Yields(listing[..|listing| - 1], h) + if ParseName(listing[|listing| - 1]) == Some(h) then 1 else 0
  }

  function Less(a: nat, b: nat): nat {
    if a < b then 0 else a - b
  }

  // ---------------------------------------------------------------- what a sweep does to any store

  /** The store after the names `seen` have been visited: only files of rejected hashes are gone,
      and of each rejected hash as many as it was yielded, or all. */
  ghost predicate Swept(files: Files, now: Files, seen: seq<Bytes>, bits: Bytes)
    requires |bits| > 0
  {
    && (forall n :: n in now ==> n in files && now[n] == files[n])
    && (forall n :: n in files && n !in now ==> OfRejected(bits, n))
    && (forall h :: Rejected(bits, h) ==> |Group(now, h)| == Less(|Group(files, h)|, Yields(seen, h)))
  }

  ghost predicate OfRejected(bits: Bytes, n: Bytes)
    requires |bits| > 0
  {
    exists h :: Rejected(bits, h) && Matches(n, h)
  }

  lemma {:induction false} SweptStart(files: Files, bits: Bytes)
    requires |bits| > 0
    ensures Swept(files, files, [], bits)
  {
  }

  /** A visited name that leads to no deletion. */
  lemma {:induction false} SweptSkip(files: Files, now: Files, seen: seq<Bytes>, bits: Bytes, name: Bytes)
    requires |bits| > 0 && Swept(files, now, seen, bits)
    requires forall h :: ParseName(name) == Some(h) && Rejected(bits, h) ==> Group(now, h) == {}
    ensures Swept(files, now, seen + [name], bits)
  {
    assert (seen + [name])[..|seen|] == seen;
    forall h | Rejected(bits, h)
      ensures |Group(now, h)| == Less(|Group(files, h)|, Yields(seen + [name], h))
    {
      assert |Group(now, h)| == Less(|Group(files, h)|, Yields(seen, h));
    }
  }

  /** A visited name whose hash is rejected, and the file deleted for it. */
  lemma {:induction false} SweptRemove(files: Files, now: Files, seen: seq<Bytes>, bits: Bytes,
                                       name: Bytes, g: Bytes, gone: Bytes)
    requires |bits| > 0 && Swept(files, now, seen, bits)
    requires ParseName(name) == Some(g) && Rejected(bits, g) && gone in now && Matches(gone, g)
    ensures Swept(files, now - {gone}, seen + [name], bits)
  {
    assert (seen + [name])[..|seen|] == seen;
    assert OfRejected(bits, gone);
    forall h | Rejected(bits, h)
      ensures |Group(now - {gone}, h)| == Less(|Group(files, h)|, Yields(seen + [name], h))
    {
      assert |Group(now, h)| == Less(|Group(files, h)|, Yields(seen, h));
      GroupWithout(now, gone, g, h);
    }
  }

  lemma {:induction false} GroupWithout(now: Files, gone: Bytes, g: Bytes, h: Bytes)
    requires |g| == HASH_LEN && |h| == HASH_LEN && gone in now && Matches(gone, g)
    ensures |Group(now - {gone}, h)| == if h == g then |Group(now, h)| - 1 else |Group(now, h)|
  {
    if h == g {
      assert Group(now - {gone}, h) == Group(now, h) - {gone};
    } else {
      NotOfHash(gone, g, h);
      assert Group(now - {gone}, h) == Group(now, h);
    }
  }

  // ---------------------------------------------------------------- what it does to a sound store

  ghost predicate HasTemp(files: Files, h: Bytes) {
    exists n :: n in files && IsTmp(n) && Matches(n, h)
  }

  function Blobs(files: Files, h: Bytes): set<Bytes> {
    set n | n in files && Matches(n, h) && !IsTmp(n)
  }

  /** A store whose names carry their contents' hashes yields a hash once for each of its blobs. */
  lemma {:induction false} YieldsBlobs(hash: Hasher, files: Files, listing: seq<Bytes>, h: Bytes)
    requires Digests(hash) && Addressed(hash, files) && Lists(listing, files) && |h| == HASH_LEN
    ensures Yields(listing, h) == |Blobs(files, h)|
  {
    forall n | n in files
      ensures ParseName(n) == Some(h) <==> Matches(n, h) && !IsTmp(n)
    {
      ParsesIffMatches(hash, files, n, h);
    }
    YieldsCount(listing, h);
    assert YieldSet(listing, h) == Blobs(files, h);
  }

  lemma {:induction false} ParsesIffMatches(hash: Hasher, files: Files, n: Bytes, h: Bytes)
    requires Digests(hash) && Addressed(hash, files) && n in files && |h| == HASH_LEN
    ensures ParseName(n) == Some(h) <==> Matches(n, h) && !IsTmp(n)
  {
    if !IsTmp(n) {
      var c := files[n];
      NamesMatch(hash, c, []);
      MatchParses(n, hash(c));
      if Matches(n, h) {
        MatchParses(n, h);
      }
    }
  }

  function YieldSet(listing: seq<Bytes>, h: Bytes): set<Bytes> {
    set n | n in listing && ParseName(n) == Some(h)
  }

  lemma {:induction false} YieldsCount(listing: seq<Bytes>, h: Bytes)
    requires forall i, j :: 0 <= i < j < |listing| ==> listing[i] != listing[j]
    ensures Yields(listing, h) == |YieldSet(listing, h)|
    decreases |listing|
  {
    if listing != [] {
      var front, last := listing[..|listing| - 1], listing[|listing| - 1];
      YieldsCount(front, h);
      assert last !in front && listing == front + [last];
      if ParseName(last) == Some(h) {
        assert YieldSet(listing, h) == YieldSet(front, h) + {last};
      } else {
        assert YieldSet(listing, h) == YieldSet(front, h);
      }
    }
  }

  /** Every file of a rejected hash is gone after the sweep exactly when the store held no temporary
      file of that hash: the deletion takes any file of the hash, and the iterator does not count
      the temporary ones. */
  lemma {:induction false} OrphanIsGoneExactly(hash: Hasher, files: Files, now: Files, listing: seq<Bytes>,
                                               bits: Bytes, h: Bytes)
    requires Digests(hash) && Addressed(hash, files) && Lists(listing, files)
    requires |bits| > 0 && Swept(files, now, listing, bits) && Rejected(bits, h)
    ensures !Exists(now, h) <==> !HasTemp(files, h)
  {
    YieldsBlobs(hash, files, listing, h);
    RejectedCount(files, now, listing, bits, h);
    GoneByCount(files, now, h);
  }

  lemma {:induction false} RejectedCount(files: Files, now: Files, listing: seq<Bytes>, bits: Bytes, h: Bytes)
    requires |bits| > 0 && Swept(files, now, listing, bits) && Rejected(bits, h)
    ensures |Group(now, h)| == Less(|Group(files, h)|, Yields(listing, h))
  {
  }

  lemma {:induction false} GoneByCount(files: Files, now: Files, h: Bytes)
    requires |Group(now, h)| == Less(|Group(files, h)|, |Blobs(files, h)|)
    ensures !Exists(now, h) <==> !HasTemp(files, h)
  {
    var gone := Group(now, h) == {};
    EmptyGroup(now, h);
    if HasTemp(files, h) {
      var t :| t in files && IsTmp(t) && Matches(t, h);
      SmallerSet(Blobs(files, h), Group(files, h), t);
    } else {
      assert Blobs(files, h) == Group(files, h);
    }
  }

  lemma {:induction false} EmptyGroup(files: Files, h: Bytes)
    ensures Group(files, h) == {} <==> !Exists(files, h)
  {
    if n :| n in files && Matches(n, h) {
      assert n in Group(files, h);
    }
  }

  lemma {:induction false} SmallerSet(a: set<Bytes>, b: set<Bytes>, x: Bytes)
    requires a <= b && x in b && x !in a
    ensures |a| < |b|
  {
    SubsetSize(a, b - {x});
  }

  lemma {:induction false} SubsetSize(a: set<Bytes>, b: set<Bytes>)
    requires a <= b
    ensures |a| <= |b|
    decreases a
  {
    if x :| x in a {
      SubsetSize(a - {x}, b - {x});
    }
  }

  /** Nothing the filter accepts is lost: a file of an accepted hash stays, with its content. */
  lemma {:induction false} AcceptedIsKept(files: Files, now: Files, listing: seq<Bytes>, bits: Bytes, n: Bytes,
                                          h: Bytes)
    requires |bits| > 0 && Swept(files, now, listing, bits)
    requires n in files && |h| == HASH_LEN && Matches(n, h) && Accepts(bits, ToHex(h))
    ensures n in now && now[n] == files[n]
  {
    if n !in now {
      var g :| Rejected(bits, g) && Matches(n, g);
      MatchesOneHash(n, g, h);
    }
  }

  /** In a store without temporary files the sweep keeps exactly the blobs the filter accepts. */
  lemma {:induction false} CleanSweep(hash: Hasher, files: Files, now: Files, listing: seq<Bytes>, bits: Bytes)
    requires Digests(hash) && Addressed(hash, files) && Lists(listing, files)
    requires |bits| > 0 && Swept(files, now, listing, bits)
    requires forall n :: n in files ==> !IsTmp(n)
    ensures now == map n | n in files && Accepts(bits, ToHex(hash(files[n]))) :: files[n]
  {
    forall n | n in files
      ensures n in now <==> Accepts(bits, ToHex(hash(files[n])))
    {
      var h := hash(files[n]);
      NamesMatch(hash, files[n], []);
      if Accepts(bits, ToHex(h)) {
        AcceptedIsKept(files, now, listing, bits, n, h);
      } else {
        OrphanIsGoneExactly(hash, files, now, listing, bits, h);
      }
    }
  }

  /** A write that failed at its sync left a temporary file, and an ingest then linked the blob. The
      filter rejects the hash, and the sweep may take the temporary file and leave the blob. */
  lemma {:induction false} TempSavesOrphan(hash: Hasher, data: Bytes, tag: Bytes, bits: Bytes)
    returns (files: Files, listing: seq<Bytes>)
    requires Digests(hash) && |bits| > 0 && Rejected(bits, hash(data))
    ensures files == ApplyAll(hash, map[], [Store(data, tag, SyncFails), LinkBlob(data)]) && Lists(listing, files)
    ensures Swept(files, map[BinNameOf(hash, data) := data], listing, bits)
  {
    var blob, temp := BinNameOf(hash, data), TempNameOf(hash, data, tag);
    NamesMatch(hash, data, tag);
    files, listing := map[temp := data, blob := data], [blob, temp];
    SyncFailsThenLink(hash, data, tag);
    SweptStart(files, bits);
    MatchParses(blob, hash(data));
    SweptRemove(files, files, [], bits, blob, hash(data), temp);
    SweptSkip(files, files - {temp}, [blob], bits, temp);
    assert files - {temp} == map[blob := data] && [] + [blob] + [temp] == listing;
  }

  lemma {:induction false} SyncFailsThenLink(hash: Hasher, data: Bytes, tag: Bytes)
    requires BinNameOf(hash, data) != TempNameOf(hash, data, tag)
    ensures ApplyAll(hash, map[], [Store(data, tag, SyncFails), LinkBlob(data)])
            == map[TempNameOf(hash, data, tag) := data, BinNameOf(hash, data) := data]
  {
    var first, second := Store(data, tag, SyncFails), LinkBlob(data);
    assert [first, second][..1] == [first] && [first][..0] == [];
    assert ApplyAll(hash, map[], [first]) == Apply(hash, ApplyAll(hash, map[], []), first);
  }

  // ---------------------------------------------------------------- counting

  /** The bytes of the listed files that are gone. */
  function Reclaimed(listing: seq<Bytes>, files: Files, now: Files): nat {
    if listing == [] then 0
    else
      var n := listing[|listing| - 1];
      Reclaimed(listing[..|listing| - 1], files, now) + if n in files && n !in now then |files[n]| else 0
  }

  lemma {:induction false} ReclaimedWithout(listing: seq<Bytes>, files: Files, now: Files, gone: Bytes)
    requires forall i, j :: 0 <= i < j < |listing| ==> listing[i] != listing[j]
    requires gone in now && gone in files
    ensures Reclaimed(listing, files, now - {gone})
            == Reclaimed(listing, files, now) + if gone in listing then |files[gone]| else 0
    decreases |listing|
  {
    if listing != [] {
      var front, last := listing[..|listing| - 1], listing[|listing| - 1];
      ReclaimedWithout(front, files, now, gone);
      assert listing == front + [last] && last !in front;
    }
  }

  lemma {:induction false} NothingReclaimed(listing: seq<Bytes>, files: Files)
    ensures Reclaimed(listing, files, files) == 0
    decreases |listing|
  {
    if listing != [] {
      NothingReclaimed(listing[..|listing| - 1], files);
    }
  }

  // ---------------------------------------------------------------- the sweep in place

  /** What visiting one name may do: delete one file of the name's hash when that is rejected and has
      a file, and otherwise nothing. */
  ghost predicate Visited(files: Files, now: Files, bits: Bytes, name: Bytes, gone: Option<Bytes>)
    requires |bits| > 0
  {
    match gone
    case None =>
      && now == files
      && (ParseName(name).Some? && Rejected(bits, ParseName(name).value) ==> !Exists(files, ParseName(name).value))
    case Some(n) =>
      && ParseName(name).Some? && Rejected(bits, ParseName(name).value)
      && n in files && Matches(n, ParseName(name).value) && now == files - {n}
  }

  method Visit(store: CasStore, bloom: BloomFilter, name: Bytes) returns (gone: Option<Bytes>)
    requires bloom.bits.Length > 0
    modifies store
    ensures Visited(old(store.files), store.files, bloom.bits[..], name, gone)
  {
    if IsTmp(name) {
      return None;
    }
    var parsed := HexToHash(BeforeUnderscore(name));
    if parsed.None? {
      return None;
    }
    var kept := bloom.Contains(ToHex(parsed.value));
    if kept {
      return None;
    }
    FromHexLength(BeforeUnderscore(name));
    gone := store.Delete(parsed.value);
  }

  lemma {:induction false} FromHexLength(s: Bytes)
    ensures FromHex(s).Some? ==> |FromHex(s).value| == HASH_LEN
  {
    if |s| == 2 * HASH_LEN {
      FromHexPairsLength(s);
    }
  }

  lemma {:induction false} FromHexPairsLength(s: Bytes)
    requires |s| % 2 == 0
    ensures FromHexPairs(s).Some? ==> 2 * |FromHexPairs(s).value| == |s|
    decreases |s|
  {
    if s != [] {
      FromHexPairsLength(s[2..]);
    }
  }

  lemma {:induction false} VisitSweeps(files: Files, before: Files, now: Files, bits: Bytes,
                                       seen: seq<Bytes>, name: Bytes, gone: Option<Bytes>)
    requires |bits| > 0 && Swept(files, before, seen, bits) && Visited(before, now, bits, name, gone)
    ensures Swept(files, now, seen + [name], bits)
  {
    match gone
    case None =>
      if ParseName(name).Some? {
        EmptyGroup(before, ParseName(name).value);
      }
      SweptSkip(files, before, seen, bits, name);
    case Some(n) => SweptRemove(files, before, seen, bits, name, ParseName(name).value, n);
  }

  lemma {:induction false} SizeWithout(files: Files, n: Bytes)
    requires n in files
    ensures |files - {n}| == |files| - 1
  {
    assert (files - {n}).Keys == files.Keys - {n};
  }

  /** The counters of a sweep agree with what is gone. */
  ghost predicate Counted(files: Files, now: Files, listing: seq<Bytes>, deleted: nat, reclaimed: nat) {
    deleted == |files| - |now| && reclaimed == Reclaimed(listing, files, now)
  }

  lemma {:induction false} CountsStep(files: Files, before: Files, listing: seq<Bytes>, n: Bytes, deleted: nat,
                                      reclaimed: nat)
    requires Lists(listing, files) && n in before && n in files && before[n] == files[n]
    requires Counted(files, before, listing, deleted, reclaimed)
    ensures Counted(files, before - {n}, listing, deleted + 1, reclaimed + |before[n]|)
  {
    SizeWithout(before, n);
    ReclaimedWithout(listing, files, before, n);
  }

  lemma {:induction false} VisitNext(files: Files, before: Files, now: Files, bits: Bytes,
                                     listing: seq<Bytes>, i: nat, gone: Option<Bytes>)
    requires |bits| > 0 && i < |listing| && Swept(files, before, listing[..i], bits)
    requires Visited(before, now, bits, listing[i], gone)
    ensures Swept(files, now, listing[..i + 1], bits)
    ensures gone.Some? ==> gone.value in before && gone.value in files && before[gone.value] == files[gone.value]
    ensures now == if gone.Some? then before - {gone.value} else before
  {
    assert listing[..i + 1] == listing[..i] + [listing[i]];
    VisitSweeps(files, before, now, bits, listing[..i], listing[i], gone);
  }

  method Sweep(store: CasStore, bloom: BloomFilter, listing: seq<Bytes>) returns (deleted: nat, reclaimed: nat)
    requires bloom.bits.Length > 0 && Lists(listing, store.files)
    modifies store
    ensures Swept(old(store.files), store.files, listing, bloom.bits[..])
    ensures deleted == |old(store.files)| - |store.files|
    ensures reclaimed == Reclaimed(listing, old(store.files), store.files)
  {
    deleted, reclaimed := 0, 0;
    ghost var files, bits := store.files, bloom.bits[..];
    SweptStart(files, bits);
    NothingReclaimed(listing, files);
    for i := 0 to |listing|
      invariant bloom.bits[..] == bits
      invariant Swept(files, store.files, listing[..i], bits)
      invariant Counted(files, store.files, listing, deleted, reclaimed)
    {
      var before := store.files;
      var gone := Visit(store, bloom, listing[i]);
      VisitNext(files, before, store.files, bits, listing, i, gone);
      if gone.Some? {
        CountsStep(files, before, listing, gone.value, deleted, reclaimed);
        deleted, reclaimed := deleted + 1, reclaimed + |before[gone.value]|;
      }
    }
    assert listing[..|listing|] == listing;
  }

  // ---------------------------------------------------------------- the daemon's index

  /** The index maps every yielded hash that has a file to the size of one of its files. */
  ghost predicate Indexed(files: Files, seen: seq<Bytes>, index: map<Bytes, nat>) {
    && (forall h :: h in index <==> Yields(seen, h) > 0 && Exists(files, h))
    && (forall h :: h in index ==> SizeOfOne(files, h, index[h]))
  }

  ghost predicate SizeOfOne(files: Files, h: Bytes, size: nat) {
    exists n :: n in files && Matches(n, h) && |files[n]| == size
  }

  lemma {:induction false} IndexOne(files: Files, seen: seq<Bytes>, index: map<Bytes, nat>, name: Bytes,
                                    path: Option<Bytes>)
    requires Indexed(files, seen, index)
    requires path.Some? ==> ParseName(name).Some? && path.value in files && Matches(path.value, ParseName(name).value)
    requires path.None? ==> ParseName(name).None? || !Exists(files, ParseName(name).value)
    ensures path.Some? ==> Indexed(files, seen + [name], index[ParseName(name).value := |files[path.value]|])
    ensures path.None? ==> Indexed(files, seen + [name], index)
  {
    assert (seen + [name])[..|seen|] == seen;
    if path.Some? {
      assert SizeOfOne(files, ParseName(name).value, |files[path.value]|);
    }
  }

  method RebuildIndex(store: CasStore, listing: seq<Bytes>) returns (index: map<Bytes, nat>)
    requires Lists(listing, store.files)
    ensures Indexed(store.files, listing, index)
  {
    index := map[];
    for i := 0 to |listing|
      invariant Indexed(store.files, listing[..i], index)
    {
      var path := None;
      var parsed := None;
      if !IsTmp(listing[i]) {
        parsed := HexToHash(BeforeUnderscore(listing[i]));
        if parsed.Some? {
          path := store.FindBlobPath(parsed.value);
        }
      }
      IndexOne(store.files, listing[..i], index, listing[i], path);
      assert listing[..i + 1] == listing[..i] + [listing[i]];
      if path.Some? {
        index := index[parsed.value := |store.files[path.value]|];
      }
    }
    assert listing[..|listing|] == listing;
  }

  /** For a sound store without temporary files, the index is exactly the blobs with their sizes. */
  lemma {:induction false} IndexIsExact(hash: Hasher, files: Files, listing: seq<Bytes>, index: map<Bytes, nat>,
                                        data: Bytes)
    requires Digests(hash) && Unique(hash, data) && Addressed(hash, files) && Lists(listing, files)
    requires (forall n :: n in files ==> !IsTmp(n)) && Indexed(files, listing, index)
    ensures hash(data) in index <==> exists n :: n in files && files[n] == data
    ensures hash(data) in index ==> index[hash(data)] == |data|
  {
    var h := hash(data);
    YieldsBlobs(hash, files, listing, h);
    if n :| n in files && files[n] == data {
      NamesMatch(hash, data, []);
      assert n in Blobs(files, h);
    }
    if h in index {
      assert SizeOfOne(files, h, index[h]);
      var n :| n in files && Matches(n, h) && |files[n]| == index[h];
      AddressedContent(hash, files, n, data);
    }
  }
}
