/** The two-layer manifest: a committed base and an in-memory delta with whiteouts
    (crates/vrift-manifest/src/lmdb.rs, `LmdbManifest`). */
module LmdbManifest {
  import opened Bytes

  datatype PathHash = PathHash(bytes: Bytes)

  datatype Tier = Tier1Immutable | Tier2Mutable

  datatype Vnode = Vnode(contentHash: Bytes, size: nat, mtime: nat, mode: nat, flags: nat)

  datatype Entry = Entry(vnode: Vnode, tier: Tier, stale: bool)

  datatype DeltaEntry = Modified(entry: Entry) | Deleted

  type Base = map<PathHash, Entry>
  type Delta = map<PathHash, DeltaEntry>

  // ---------------------------------------------------------------- the one map it stands for

  /** The delta shadows the base; a whiteout hides. */
  function Merged(base: Base, delta: Delta): map<PathHash, Entry> {
    (map h | h in base && h !in delta :: base[h]) + (map h | h in delta && delta[h].Modified? :: delta[h].entry)
  }

  lemma {:induction false} MergedAt(base: Base, delta: Delta, h: PathHash)
    ensures h in Merged(base, delta) <==> if h in delta then delta[h].Modified? else h in base
    ensures h in Merged(base, delta) ==>
              Merged(base, delta)[h] == if h in delta then delta[h].entry else base[h]
  {
  }

  lemma {:induction false} MergedAfterModify(base: Base, delta: Delta, h: PathHash, e: Entry)
    ensures Merged(base, delta[h := Modified(e)]) == Merged(base, delta)[h := e]
  {
  }

  lemma {:induction false} MergedAfterDelete(base: Base, delta: Delta, h: PathHash)
    ensures Merged(base, delta[h := Deleted]) == Merged(base, delta) - {h}
  {
  }

  lemma {:induction false} MergedWithoutDelta(base: Base)
    ensures Merged(base, map[]) == base
  {
  }

  /** The part of the delta outside a set of keys. */
  function Without(delta: Delta, hs: set<PathHash>): Delta {
    map h | h in delta && h !in hs :: delta[h]
  }

  lemma {:induction false} WithoutAll(delta: Delta)
    ensures Without(delta, delta.Keys) == map[]
  {
  }

  lemma {:induction false} WithoutNone(delta: Delta)
    ensures Without(delta, {}) == delta
  {
  }

  lemma {:induction false} WithoutOneLess(delta: Delta, hs: set<PathHash>, h: PathHash)
    requires h in hs && h in delta
    ensures Without(delta, hs - {h}) == Without(delta, hs)[h := delta[h]]
  {
  }

  /** What a listing shows while the delta keys `ds` and the base keys `bs` are still to come. */
  function Listed(base: Base, delta: Delta, ds: set<PathHash>, bs: set<PathHash>): map<PathHash, Entry> {
    (map h | h in delta && h !in ds && delta[h].Modified? :: delta[h].entry)
    + (map h | h in base && h !in bs && h !in delta :: base[h])
  }

  lemma {:induction false} ListedNone(base: Base, delta: Delta)
    ensures Listed(base, delta, delta.Keys, base.Keys) == map[]
  {
  }

  lemma {:induction false} ListedAll(base: Base, delta: Delta)
    ensures Listed(base, delta, {}, {}) == Merged(base, delta)
  {
  }

  lemma {:induction false} ListedDelta(base: Base, delta: Delta, ds: set<PathHash>, h: PathHash)
    requires h in ds && h in delta
    ensures h !in Listed(base, delta, ds, base.Keys)
    ensures Listed(base, delta, ds - {h}, base.Keys)
         == if delta[h].Modified? then Listed(base, delta, ds, base.Keys)[h := delta[h].entry]
            else Listed(base, delta, ds, base.Keys)
  {
  }

  lemma {:induction false} ListedBase(base: Base, delta: Delta, bs: set<PathHash>, h: PathHash)
    requires h in bs && h in base
    ensures h !in delta ==> h !in Listed(base, delta, {}, bs)
    ensures Listed(base, delta, {}, bs - {h})
         == if h !in delta then Listed(base, delta, {}, bs)[h := base[h]] else Listed(base, delta, {}, bs)
  {
  }

  datatype Op = Insert(path: Bytes, vnode: Vnode, tier: Tier) | Remove(path: Bytes) | MarkStale(path: Bytes) | Commit

  /** What an operation does to one plain map; keys are given by `key`. */
  function Apply<K>(key: Bytes -> K, m: map<K, Entry>, op: Op): map<K, Entry> {
    match op
    case Insert(path, vnode, tier) => m[key(path) := Entry(vnode, tier, false)]
    case Remove(path) => m - {key(path)}
    case MarkStale(path) => if key(path) in m then m[key(path) := m[key(path)].(stale := true)] else m
    case Commit => m
  }

  function ApplyAll<K>(key: Bytes -> K, m: map<K, Entry>, ops: seq<Op>): map<K, Entry> {
    if ops == [] then m else Apply(key, ApplyAll(key, m, ops[..|ops| - 1]), ops[|ops| - 1])
  }

  // ---------------------------------------------------------------- keyed by hash or by path

  ghost predicate Injective(hash: Bytes -> PathHash) {
    forall p, q :: hash(p) == hash(q) ==> p == q
  }

  /** The hash-keyed map answers as the path-keyed one. */
  ghost predicate Represents(hash: Bytes -> PathHash, view: map<PathHash, Entry>, plain: map<Bytes, Entry>) {
    && (forall p :: p in plain <==> hash(p) in view)
    && (forall p :: p in plain ==> view[hash(p)] == plain[p])
  }

  lemma {:induction false} ApplyRepresents(hash: Bytes -> PathHash, view: map<PathHash, Entry>,
                                           plain: map<Bytes, Entry>, op: Op)
    requires Injective(hash) && Represents(hash, view, plain)
    ensures Represents(hash, Apply(hash, view, op), Apply(p => p, plain, op))
  {
  }

  /** For every sequence of operations, lookups by path answer as one plain map from paths would. */
  lemma {:induction false} AnswersAsPlainMap(hash: Bytes -> PathHash, view: map<PathHash, Entry>,
                                             plain: map<Bytes, Entry>, ops: seq<Op>)
    requires Injective(hash) && Represents(hash, view, plain)
    ensures Represents(hash, ApplyAll(hash, view, ops), ApplyAll(p => p, plain, ops))
    decreases |ops|
  {
    if ops != [] {
      var n := |ops| - 1;
      AnswersAsPlainMap(hash, view, plain, ops[..n]);
      ApplyRepresents(hash, ApplyAll(hash, view, ops[..n]), ApplyAll(p => p, plain, ops[..n]), ops[n]);
    }
  }

  // ---------------------------------------------------------------- the manifest

  class Manifest {
    const hash: Bytes -> PathHash
    var entries: Base
    var paths: map<PathHash, Bytes>
    var delta: Delta
    var deltaPaths: map<PathHash, Bytes>

    /** Every visible entry has a path on record, in the layer the entry is in. */
    ghost predicate Valid()
      reads this
    {
      && paths.Keys == entries.Keys
      && (forall h :: h in paths ==> hash(paths[h]) == h)
      && (forall h :: h in deltaPaths <==> h in delta && delta[h].Modified?)
      && (forall h :: h in deltaPaths ==> hash(deltaPaths[h]) == h)
    }

    ghost function View(): map<PathHash, Entry>
      reads this
    {
      Merged(entries, delta)
    }

    constructor (hash: Bytes -> PathHash)
      ensures Valid() && View() == map[] && this.hash == hash
    {
      this.hash := hash;
      entries, paths, delta, deltaPaths := map[], map[], map[], map[];
    }

    method InsertEntry(path: Bytes, vnode: Vnode, tier: Tier)
      requires Valid()
      modifies this`delta, this`deltaPaths
      ensures Valid() && View() == Apply(hash, old(View()), Insert(path, vnode, tier))
    {
      var h := hash(path);
      MergedAfterModify(entries, delta, h, Entry(vnode, tier, false));
      delta := delta[h := Modified(Entry(vnode, tier, false))];
      deltaPaths := deltaPaths[h := path];
    }

    method Get(path: Bytes) returns (r: Option<Entry>)
      ensures r == if hash(path) in View() then Some(View()[hash(path)]) else None
    {
      r := GetByHash(hash(path));
    }

    method GetByHash(h: PathHash) returns (r: Option<Entry>)
      ensures r == if h in View() then Some(View()[h]) else None
    {
      if h in delta {
        match delta[h]
        case Modified(e) => return Some(e);
        case Deleted => return None;
      }
      if h in entries {
        return Some(entries[h]);
      }
      return None;
    }

    /** The recorded path of a hash; every visible entry has one. */
    method GetPathByHash(h: PathHash) returns (r: Option<Bytes>)
      requires Valid()
      ensures h in View() ==> r.Some?
      ensures r.Some? ==> hash(r.value) == h
    {
      if h in deltaPaths {
        return Some(deltaPaths[h]);
      }
      if h in paths {
        return Some(paths[h]);
      }
      return None;
    }

    method MarkEntryStale(path: Bytes)
      requires Valid()
      modifies this`delta, this`deltaPaths
      ensures Valid() && View() == Apply(hash, old(View()), MarkStale(path))
    {
      var h := hash(path);
      MergedAt(entries, delta, h);
      if h in delta {
        if delta[h].Modified? {
          MergedAfterModify(entries, delta, h, delta[h].entry.(stale := true));
          delta := delta[h := Modified(delta[h].entry.(stale := true))];
        }
      } else {
        var e := GetByHash(h);
        if e.Some? {
          CopyUpStale(h, e.value);
        }
      }
    }

    /** Copies a base entry into the delta, marked stale, with its path. */
    method CopyUpStale(h: PathHash, e: Entry)
      requires Valid() && h !in delta && h in View()
      modifies this`delta, this`deltaPaths
      ensures Valid() && View() == old(View())[h := e.(stale := true)]
    {
      MergedAfterModify(entries, delta, h, e.(stale := true));
      var p := GetPathByHash(h);
      delta := delta[h := Modified(e.(stale := true))];
      if p.Some? {
        deltaPaths := deltaPaths[h := p.value];
      }
    }

    method RemoveEntry(path: Bytes)
      requires Valid()
      modifies this`delta, this`deltaPaths
      ensures Valid() && View() == Apply(hash, old(View()), Remove(path))
    {
      var h := hash(path);
      MergedAfterDelete(entries, delta, h);
      delta := delta[h := Deleted];
      deltaPaths := deltaPaths - {h};
    }

    /** Applies the delta to the base in one transaction. When the transaction fails nothing changes;
        either way the manifest stands for the same map. */
    method CommitDelta(txnSucceeds: bool) returns (ok: bool)
      requires Valid()
      modifies this
      ensures Valid() && View() == old(View())
      ensures ok <==> txnSucceeds || old(delta) == map[]
      ensures ok ==> delta == map[] && deltaPaths == map[] && entries == old(View())
      ensures !ok ==> entries == old(entries) && paths == old(paths)
      ensures !ok ==> delta == old(delta) && deltaPaths == old(deltaPaths)
    {
      MergedWithoutDelta(entries);
      if delta == map[] {
        return true;
      }
      if !txnSucceeds {
        return false;
      }
      var newEntries, newPaths := ApplyDelta();
      entries, paths := newEntries, newPaths;
      delta, deltaPaths := map[], map[];
      MergedWithoutDelta(entries);
      return true;
    }

    /** The write transaction of `commit`, over the delta in any order. */
    method ApplyDelta() returns (newEntries: Base, newPaths: map<PathHash, Bytes>)
      requires Valid()
      ensures newEntries == View() && newPaths.Keys == newEntries.Keys
      ensures forall h :: h in newPaths ==> hash(newPaths[h]) == h
    {
      newEntries, newPaths := entries, paths;
      var rest := delta.Keys;
      WithoutAll(delta);
      MergedWithoutDelta(entries);
      while rest != {}
        invariant rest <= delta.Keys
        invariant newEntries == Merged(entries, Without(delta, rest)) && newPaths.Keys == newEntries.Keys
        invariant forall h :: h in newPaths ==> hash(newPaths[h]) == h
        decreases rest
      {
        var h :| h in rest;
        WithoutOneLess(delta, rest, h);
        match delta[h] {
          case Modified(e) =>
            MergedAfterModify(entries, Without(delta, rest), h, e);
            newEntries := newEntries[h := e];
            if h in deltaPaths {
              newPaths := newPaths[h := deltaPaths[h]];
            }
          case Deleted =>
            MergedAfterDelete(entries, Without(delta, rest), h);
            newEntries := newEntries - {h};
            newPaths := newPaths - {h};
        }
        rest := rest - {h};
      }
      WithoutNone(delta);
    }

    /** Base entries plus added less removed: the size of the map, without underflow. */
    method Len() returns (n: nat)
      ensures n == |View()|
    {
      var added, removed := 0, 0;
      var rest := delta.Keys;
      ghost var done := {};
      while rest != {}
        invariant rest !! done && rest + done == delta.Keys
        invariant added == |AddedKeys(entries, delta, done)| && removed == |RemovedKeys(entries, delta, done)|
        decreases rest
      {
        var h :| h in rest;
        CountOneMore(entries, delta, done, h);
        match delta[h] {
          case Modified(_) =>
            if h !in entries {
              added := added + 1;
            }
          case Deleted =>
            if h in entries {
              removed := removed + 1;
            }
        }
        rest, done := rest - {h}, done + {h};
      }
      assert done == delta.Keys;
      MergedSize(entries, delta);
      n := |entries| + added - removed;
    }

    /** All visible entries with their paths. */
    method Iter() returns (result: seq<(Bytes, Entry)>)
      requires Valid()
      ensures Lists(hash, View(), result)
    {
      result := [];
      var rest := delta.Keys;
      ListedNone(entries, delta);
      while rest != {}
        invariant rest <= delta.Keys && Lists(hash, Listed(entries, delta, rest, entries.Keys), result)
        decreases rest
      {
        var h :| h in rest;
        ListedDelta(entries, delta, rest, h);
        if delta[h].Modified? && h in deltaPaths {
          ListsOneMore(hash, Listed(entries, delta, rest, entries.Keys), result, deltaPaths[h], delta[h].entry);
          result := result + [(deltaPaths[h], delta[h].entry)];
        }
        rest := rest - {h};
      }
      rest := entries.Keys;
      while rest != {}
        invariant rest <= entries.Keys && Lists(hash, Listed(entries, delta, {}, rest), result)
        decreases rest
      {
        var h :| h in rest;
        ListedBase(entries, delta, rest, h);
        if h !in delta && h in paths {
          ListsOneMore(hash, Listed(entries, delta, {}, rest), result, paths[h], entries[h]);
          result := result + [(paths[h], entries[h])];
        }
        rest := rest - {h};
      }
      ListedAll(entries, delta);
    }

    /** Any sequence of operations acts as it would on one plain map. */
    method Execute(ops: seq<Op>)
      requires Valid()
      modifies this
      ensures Valid() && View() == ApplyAll(hash, old(View()), ops)
    {
      for i := 0 to |ops|
        invariant Valid() && View() == ApplyAll(hash, old(View()), ops[..i])
      {
        assert ops[..i + 1][..i] == ops[..i];
        match ops[i] {
          case Insert(path, vnode, tier) => InsertEntry(path, vnode, tier);
          case Remove(path) => RemoveEntry(path);
          case MarkStale(path) => MarkEntryStale(path);
          case Commit =>
            var _ := CommitDelta(true);
        }
      }
      assert ops[..|ops|] == ops;
    }
  }

  ghost function AddedKeys(base: Base, delta: Delta, hs: set<PathHash>): set<PathHash>
    requires hs <= delta.Keys
  {
    set h | h in hs && delta[h].Modified? && h !in base
  }

  ghost function RemovedKeys(base: Base, delta: Delta, hs: set<PathHash>): set<PathHash>
    requires hs <= delta.Keys
  {
    set h | h in hs && delta[h].Deleted? && h in base
  }

  lemma {:induction false} OneMoreKey(base: Base, delta: Delta, hs: set<PathHash>, h: PathHash)
    requires hs <= delta.Keys && h in delta && h !in hs
    ensures AddedKeys(base, delta, hs + {h})
         == if delta[h].Modified? && h !in base then AddedKeys(base, delta, hs) + {h} else AddedKeys(base, delta, hs)
    ensures RemovedKeys(base, delta, hs + {h})
         == if delta[h].Deleted? && h in base then RemovedKeys(base, delta, hs) + {h} else RemovedKeys(base, delta, hs)
    ensures h !in AddedKeys(base, delta, hs) && h !in RemovedKeys(base, delta, hs)
  {
  }

  lemma {:induction false} CountOneMore(base: Base, delta: Delta, hs: set<PathHash>, h: PathHash)
    requires hs <= delta.Keys && h in delta && h !in hs
    ensures |AddedKeys(base, delta, hs + {h})|
         == |AddedKeys(base, delta, hs)| + (if delta[h].Modified? && h !in base then 1 else 0)
    ensures |RemovedKeys(base, delta, hs + {h})|
         == |RemovedKeys(base, delta, hs)| + (if delta[h].Deleted? && h in base then 1 else 0)
  {
    OneMoreKey(base, delta, hs, h);
  }

  lemma {:induction false} MergedKeys(base: Base, delta: Delta)
    ensures var a, r := AddedKeys(base, delta, delta.Keys), RemovedKeys(base, delta, delta.Keys);
            a !! base.Keys && r <= base.Keys && Merged(base, delta).Keys == base.Keys - r + a
  {
  }

  lemma {:induction false} MergedSize(base: Base, delta: Delta)
    ensures |RemovedKeys(base, delta, delta.Keys)| <= |base|
    ensures |Merged(base, delta)|
         == |base| + |AddedKeys(base, delta, delta.Keys)| - |RemovedKeys(base, delta, delta.Keys)|
  {
    MergedKeys(base, delta);
    LenByParts(base.Keys, AddedKeys(base, delta, delta.Keys), RemovedKeys(base, delta, delta.Keys));
    assert |Merged(base, delta)| == |Merged(base, delta).Keys| && |base| == |base.Keys|;
  }

  lemma {:induction false} LenByParts<T>(base: set<T>, a: set<T>, r: set<T>)
    requires a !! base && r <= base
    ensures |base - r + a| == |base| + |a| - |r| && |r| <= |base|
  {
    assert |base - r| == |base| - |r|;
    assert |base - r + a| == |base - r| + |a|;
  }

  /** Every entry of the map appears once, under a path that hashes to its key, and nothing else. */
  ghost predicate Lists(hash: Bytes -> PathHash, m: map<PathHash, Entry>, items: seq<(Bytes, Entry)>) {
    && (forall i :: 0 <= i < |items| ==> hash(items[i].0) in m && m[hash(items[i].0)] == items[i].1)
    && (forall i, j :: 0 <= i < j < |items| ==> hash(items[i].0) != hash(items[j].0))
    && (forall h :: h in m ==> exists i :: 0 <= i < |items| && hash(items[i].0) == h)
  }

  lemma {:induction false} ListsOneMore(hash: Bytes -> PathHash, m: map<PathHash, Entry>, items: seq<(Bytes, Entry)>,
                                        p: Bytes, e: Entry)
    requires Lists(hash, m, items) && hash(p) !in m
    ensures Lists(hash, m[hash(p) := e], items + [(p, e)])
  {
    var items' := items + [(p, e)];
    forall h | h in m || h == hash(p)
      ensures exists i :: 0 <= i < |items'| && hash(items'[i].0) == h
    {
      if h == hash(p) {
        assert hash(items'[|items|].0) == h;
      } else {
        var i :| 0 <= i < |items| && hash(items[i].0) == h;
        assert hash(items'[i].0) == h;
      }
    }
  }
}
