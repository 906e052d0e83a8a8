/** What lookups and directory listings over the inode tree return
    (crates/vrift-fuse/src/lib.rs, `lookup` and `readdir`). */
module FuseWalk {
  import opened Bytes
  import opened FuseTree

  // ---------------------------------------------------------------- lookup

  /** No two paths share an inode, and an inode carries its own number. */
  lemma {:induction false} InodesAreDistinct(manifest: map<Bytes, Vnode>, ps: seq<Bytes>, inodes: Inodes,
                                             ids: map<Bytes, nat>, p: Bytes, q: Bytes)
    requires IsTree(manifest, ps, inodes, ids) && p in ids && q in ids
    ensures ids[p] == ids[q] <==> p == q
    ensures ids[p] in inodes && inodes[ids[p]].attr.ino == ids[p]
    ensures p != ROOT ==> inodes[ids[p]].hash == manifest[p].hash
  {
    if p != ROOT {
      var i :| 0 <= i < |ps| && ps[i] == p;
      assert ids[ps[i]] == i + 2;
    }
    if q != ROOT {
      var j :| 0 <= j < |ps| && ps[j] == q;
      assert ids[ps[j]] == j + 2;
    }
  }

  /** A directory's lookup finds the path of the name below it, if there is one. */
  lemma {:induction false} LookupFinds(manifest: map<Bytes, Vnode>, ps: seq<Bytes>, inodes: Inodes,
                                       ids: map<Bytes, nat>, cs: seq<Bytes>, name: Bytes)
    requires IsTree(manifest, ps, inodes, ids) && AllNormal(ps)
    requires AreNames(cs) && IsName(name) && Text(cs) in ids
    ensures var r := LookupIn(inodes, ids[Text(cs)], name);
            r == if Text(cs + [name]) in ps then Some(ids[Text(cs + [name])]) else None
  {
    NodeKids(manifest, ps, inodes, ids, Text(cs));
    KidsNamed(ps, cs, name);
    FindsNamed(ps, inodes, ids, name, Text(cs + [name]), Kids(ps, Text(cs)));
  }

  lemma {:induction false} NodeKids(manifest: map<Bytes, Vnode>, ps: seq<Bytes>, inodes: Inodes, ids: map<Bytes, nat>,
                                    q: Bytes)
    requires IsTree(manifest, ps, inodes, ids) && q in ids
    ensures ids[q] in inodes && inodes[ids[q]].children == Kids(ps, q)
  {
    if q != ROOT {
      var i :| 0 <= i < |ps| && ps[i] == q;
      assert ids[ps[i]] == i + 2;
    }
  }

  /** The children of that name are the inodes of one path. */
  ghost predicate Names(ps: seq<Bytes>, name: Bytes, p: Bytes, kids: seq<Child>) {
    && (forall c | c in kids :: 2 <= c.ino < |ps| + 2)
    && (forall i | 0 <= i < |ps| :: Child(name, i + 2) in kids <==> ps[i] == p)
  }

  lemma {:induction false} FindsNamed(ps: seq<Bytes>, inodes: Inodes, ids: map<Bytes, nat>, name: Bytes, p: Bytes,
                                      kids: seq<Child>)
    requires IdsOf(ps, ids) && (forall k :: k in inodes <==> 1 <= k < |ps| + 2) && Names(ps, name, p, kids)
    ensures FindChild(inodes, kids, name) == if p in ps then Some(ids[p]) else None
  {
    var r := FindChild(inodes, kids, name);
    if r.Some? {
      assert ps[r.value - 2] == p;
    }
  }

  lemma {:induction false} KidsNamed(ps: seq<Bytes>, cs: seq<Bytes>, name: Bytes)
    requires AllNormal(ps) && (forall i | 0 <= i < |ps| :: ps[i] != ROOT) && AreNames(cs) && IsName(name)
    ensures Names(ps, name, Text(cs + [name]), Kids(ps, Text(cs)))
    decreases |ps|
  {
    if ps != [] {
      KidsNamed(ps[..|ps| - 1], cs, name);
      assert Normal(ps[|ps| - 1]);
      ChildPath(cs, name, ps[|ps| - 1]);
      NamesGrow(ps, name, Text(cs + [name]), Text(cs), Kids(ps[..|ps| - 1], Text(cs)));
    }
  }

  lemma {:induction false} NamesGrow(ps: seq<Bytes>, name: Bytes, p: Bytes, q: Bytes, kids: seq<Child>)
    requires ps != [] && Names(ps[..|ps| - 1], name, p, kids) && (IsKid(ps[|ps| - 1], q, name) <==> ps[|ps| - 1] == p)
    ensures Names(ps, name, p, Grown(kids, ps[|ps| - 1], q, |ps| + 1))
  {
  }

  /** Every directory on the way, and the path itself, is in the manifest. */
  predicate Connected(ps: seq<Bytes>, cs: seq<Bytes>) {
    cs == [] || (Connected(ps, cs[..|cs| - 1]) && Text(cs) in ps)
  }

  lemma {:induction false} ConnectedMeans(ps: seq<Bytes>, cs: seq<Bytes>)
    ensures Connected(ps, cs) <==> forall k | 1 <= k <= |cs| :: Text(cs[..k]) in ps
    decreases |cs|
  {
    if cs != [] {
      var front := cs[..|cs| - 1];
      ConnectedMeans(ps, front);
      assert cs[..|cs|] == cs && forall k | 1 <= k <= |front| :: front[..k] == cs[..k];
      if Connected(ps, cs) {
        forall k | 1 <= k <= |cs|
          ensures Text(cs[..k]) in ps
        {
          if k <= |front| {
            assert Text(front[..k]) in ps;
          }
        }
      } else if Text(cs) in ps {
        var k :| 1 <= k <= |front| && Text(front[..k]) !in ps;
        assert Text(cs[..k]) !in ps;
      } else {
        assert Text(cs[..|cs|]) !in ps;
      }
    }
  }

  /** Looking up the names of a path one after the other reaches that path's own inode exactly when
      every prefix of the path is in the manifest, and nothing otherwise. */
  lemma {:induction false} WalkReachesExactly(manifest: map<Bytes, Vnode>, ps: seq<Bytes>, inodes: Inodes,
                                              ids: map<Bytes, nat>, cs: seq<Bytes>)
    requires IsTree(manifest, ps, inodes, ids) && AllNormal(ps) && AreNames(cs)
    ensures Connected(ps, cs) ==> Text(cs) in ids && Walk(inodes, cs) == Some(ids[Text(cs)])
    ensures !Connected(ps, cs) ==> Walk(inodes, cs) == None
    decreases |cs|
  {
    if cs != [] {
      var front, name := cs[..|cs| - 1], cs[|cs| - 1];
      WalkReachesExactly(manifest, ps, inodes, ids, front);
      if Connected(ps, front) {
        assert IsName(name) && cs == front + [name];
        WalkOne(manifest, ps, inodes, ids, front, name);
      }
    }
  }

  lemma {:induction false} WalkOne(manifest: map<Bytes, Vnode>, ps: seq<Bytes>, inodes: Inodes, ids: map<Bytes, nat>,
                                   cs: seq<Bytes>, name: Bytes)
    requires IsTree(manifest, ps, inodes, ids) && AllNormal(ps) && AreNames(cs) && IsName(name)
    requires Text(cs) in ids && Walk(inodes, cs) == Some(ids[Text(cs)])
    ensures var t := Text(cs + [name]); t in ps ==> t in ids && Walk(inodes, cs + [name]) == Some(ids[t])
    ensures Text(cs + [name]) !in ps ==> Walk(inodes, cs + [name]) == None
  {
    assert (cs + [name])[..|cs|] == cs;
    LookupFinds(manifest, ps, inodes, ids, cs, name);
  }

  ghost predicate ParentClosed(ps: seq<Bytes>) {
    forall i | 0 <= i < |ps| :: SLASH in ps[i] && (ParentOf(ps[i]) == ROOT || ParentOf(ps[i]) in ps)
  }

  /** In a parent-closed manifest every listed path is reached, and nothing else. */
  lemma {:induction false} ClosedIsReached(manifest: map<Bytes, Vnode>, ps: seq<Bytes>, inodes: Inodes,
                                           ids: map<Bytes, nat>, cs: seq<Bytes>)
    requires IsTree(manifest, ps, inodes, ids) && AllNormal(ps) && ParentClosed(ps) && AreNames(cs)
    ensures Walk(inodes, cs) == if Text(cs) in ids then Some(ids[Text(cs)]) else None
  {
    WalkReachesExactly(manifest, ps, inodes, ids, cs);
    ClosedIsConnected(ps, cs);
    if cs != [] {
      SplitText(cs);
    }
  }

  lemma {:induction false} ClosedIsConnected(ps: seq<Bytes>, cs: seq<Bytes>)
    requires ParentClosed(ps) && AreNames(cs)
    ensures Connected(ps, cs) <==> cs == [] || Text(cs) in ps
    decreases |cs|
  {
    if cs != [] {
      if Text(cs) in ps {
        var i :| 0 <= i < |ps| && ps[i] == Text(cs);
        SplitText(cs);
        if |cs| > 1 {
          SplitText(cs[..|cs| - 1]);
        }
        ClosedIsConnected(ps, cs[..|cs| - 1]);
      }
    }
  }

  // ---------------------------------------------------------------- attributes

  /** What the manifest says of a path: its size, in the fewest blocks of 4096 bytes that hold it, its mtime,
      the low 16 bits of its mode, and whether it is a directory. */
  predicate Shows(a: Attr, v: Vnode) {
    && a.size == v.size && a.mtime == v.mtime
    && a.blocks * 4096 >= v.size && (a.blocks > 0 ==> (a.blocks - 1) * 4096 < v.size)
    && a.perm == v.mode % 0x1_0000
    && (a.kind == Directory <==> v.isDir) && (a.kind == RegularFile <==> !v.isDir)
    && a.nlink == if v.isDir then 2 else 1
  }

  lemma {:induction false} AttrShows(k: nat, v: Vnode)
    ensures VnodeAttr(k, v).ino == k && Shows(VnodeAttr(k, v), v)
  {
  }

  lemma {:induction false} NodeShows(manifest: map<Bytes, Vnode>, ps: seq<Bytes>, inodes: Inodes, ids: map<Bytes, nat>,
                                     p: Bytes)
    requires IsTree(manifest, ps, inodes, ids) && p in ps
    ensures p in ids && ids[p] in inodes && p in manifest
    ensures inodes[ids[p]].attr.ino == ids[p] && Shows(inodes[ids[p]].attr, manifest[p])
  {
    var i :| 0 <= i < |ps| && ps[i] == p;
    assert ids[ps[i]] == i + 2;
    AttrShows(i + 2, manifest[p]);
  }

  /** The root directory: inode 1, mode 0o755, with nothing of its own. */
  lemma {:induction false} RootShows(manifest: map<Bytes, Vnode>, ps: seq<Bytes>, inodes: Inodes, ids: map<Bytes, nat>)
    requires IsTree(manifest, ps, inodes, ids)
    ensures 1 in inodes && inodes[1].attr.ino == 1 && inodes[1].attr.kind == Directory && inodes[1].attr.nlink == 2
    ensures inodes[1].attr.size == 0 && inodes[1].attr.blocks == 0 && inodes[1].attr.perm == 7 * 64 + 5 * 8 + 5
  {
  }

  /** A client that starts at inode 1 and looks up one name after the other, by the inode numbers it is
      given. */
  method Open(fs: VeloFs, cs: seq<Bytes>) returns (r: Option<Attr>)
    requires cs != [] && forall k :: k in fs.inodes ==> fs.inodes[k].attr.ino == k
    ensures match Walk(fs.inodes, cs) case None => r == None case Some(k) => r == Some(fs.inodes[k].attr)
  {
    var ino := 1;
    r := None;
    for i := 0 to |cs|
      invariant Walk(fs.inodes, cs[..i]) == Some(ino)
      invariant i > 0 ==> ino in fs.inodes && r == Some(fs.inodes[ino].attr)
    {
      WalkNext(fs.inodes, cs, i);
      r := fs.Lookup(ino, cs[i]);
      if r == None {
        WalkStays(fs.inodes, cs, i + 1);
        return None;
      }
      ino := r.value.ino;
    }
    assert cs[..|cs|] == cs;
  }

  lemma {:induction false} WalkNext(inodes: Inodes, cs: seq<Bytes>, i: nat)
    requires i < |cs| && Walk(inodes, cs[..i]).Some?
    ensures Walk(inodes, cs[..i + 1]) == LookupIn(inodes, Walk(inodes, cs[..i]).value, cs[i])
  {
    assert cs[..i + 1][..i] == cs[..i];
  }

  /** A walk that has failed does not recover. */
  lemma {:induction false} WalkStays(inodes: Inodes, cs: seq<Bytes>, i: nat)
    requires i <= |cs| && Walk(inodes, cs[..i]) == None
    ensures Walk(inodes, cs) == None
    decreases |cs| - i
  {
    if i == |cs| {
      assert cs[..i] == cs;
    } else {
      assert cs[..i + 1][..i] == cs[..i];
      WalkStays(inodes, cs, i + 1);
    }
  }

  /** Mounting a manifest and opening a path: the attributes are those of the path's own entry exactly when
      the path and every directory on the way are in the manifest, and there is no answer otherwise. */
  method MountAndOpen(fs: VeloFs, manifest: map<Bytes, Vnode>, paths: seq<Bytes>, cs: seq<Bytes>)
    returns (r: Option<Attr>)
    requires Listing(manifest, paths) && AreNames(cs) && cs != []
    modifies fs
    ensures r.Some? <==> forall k | 1 <= k <= |cs| :: Text(cs[..k]) in manifest
    ensures r.Some? ==> Text(cs) in manifest && Shows(r.value, manifest[Text(cs)])
  {
    fs.InitFromManifest(manifest, paths);
    ghost var ps := BelowRoot(paths);
    OwnNumbers(manifest, ps, fs.inodes, fs.pathToInode);
    r := Open(fs, cs);
    Opened(manifest, paths, fs.inodes, fs.pathToInode, cs);
  }

  lemma {:induction false} OwnNumbers(manifest: map<Bytes, Vnode>, ps: seq<Bytes>, inodes: Inodes, ids: map<Bytes, nat>)
    requires IsTree(manifest, ps, inodes, ids)
    ensures forall k :: k in inodes ==> inodes[k].attr.ino == k
  {
  }

  lemma {:induction false} Opened(manifest: map<Bytes, Vnode>, paths: seq<Bytes>, inodes: Inodes, ids: map<Bytes, nat>,
                                  cs: seq<Bytes>)
    requires Listing(manifest, paths) && IsTree(manifest, BelowRoot(paths), inodes, ids) && AreNames(cs) && cs != []
    ensures var r := Walk(inodes, cs);
            && (r.Some? <==> forall k | 1 <= k <= |cs| :: Text(cs[..k]) in manifest)
            && (r.Some? ==> r.value in inodes && Text(cs) in manifest
                            && Shows(inodes[r.value].attr, manifest[Text(cs)]))
  {
    var ps := BelowRoot(paths);
    BelowRootNormal(paths);
    WalkReachesExactly(manifest, ps, inodes, ids, cs);
    ConnectedMeans(ps, cs);
    forall k | 1 <= k <= |cs|
      ensures Text(cs[..k]) in ps <==> Text(cs[..k]) in manifest
    {
      SplitText(cs[..k]);
      BelowRootElements(paths, Text(cs[..k]));
    }
    if Connected(ps, cs) {
      NodeShows(manifest, ps, inodes, ids, Text(cs));
    }
  }

  lemma {:induction false} BelowRootNormal(paths: seq<Bytes>)
    requires AllNormal(paths)
    ensures AllNormal(BelowRoot(paths))
  {
    var ps := BelowRoot(paths);
    forall i | 0 <= i < |ps|
      ensures Normal(ps[i])
    {
      BelowRootElements(paths, ps[i]);
      var j :| 0 <= j < |paths| && paths[j] == ps[i];
    }
  }

  // ---------------------------------------------------------------- directory listings

  datatype DirEntry = DirEntry(ino: nat, offset: nat, name: Bytes)

  function ChildEntry(children: seq<Child>, i: nat): DirEntry
    requires i < |children|
  {
    DirEntry(children[i].ino, i + 3, children[i].name)
  }

  function ChildEntries(children: seq<Child>, lo: nat, hi: nat): (r: seq<DirEntry>)
    requires lo <= hi <= |children|
    ensures |r| == hi - lo
    ensures hi > lo ==> r[hi - lo - 1].offset == hi + 2
  {
    var r := seq(hi - lo, i requires 0 <= i < hi - lo => ChildEntry(children, lo + i));
    assert hi > lo ==> r[hi - lo - 1] == ChildEntry(children, hi - 1);
    r
  }

  function Dots(ino: nat): seq<DirEntry> {
    [DirEntry(ino, 0, [DOT]), DirEntry(1, 1, [DOT, DOT])]
  }

  function Min(a: nat, b: nat): nat {
    if a < b then a else b
  }

  function Skip(children: seq<Child>, offset: nat): (k: nat)
    ensures k <= |children|
  {
    Min(if offset > 1 then offset - 2 else 0, |children|)
  }

  /** The entries of one reply whose buffer takes `fits` entries, or an unanswered request when the
      two dot entries do not both fit. */
  function Page(ino: nat, children: seq<Child>, offset: nat, fits: nat): Option<seq<DirEntry>> {
    if offset > 0 then Some(PageFrom(children, Skip(children, offset), fits))
    else if fits < 2 then None
    else Some(Dots(ino) + PageFrom(children, 0, fits - 2))
  }

  function PageFrom(children: seq<Child>, lo: nat, fits: nat): seq<DirEntry>
    requires lo <= |children|
  {
    ChildEntries(children, lo, Min(lo + fits, |children|))
  }

  method Readdir(ino: nat, children: seq<Child>, offset: nat, fits: nat) returns (r: Option<seq<DirEntry>>)
    ensures r == Page(ino, children, offset, fits)
  {
    var reply: seq<DirEntry> := [];
    var room := fits;
    if offset == 0 {
      if room == 0 {
        return None;
      }
      reply := [DirEntry(ino, 0, [DOT])];
      if room == 1 {
        return None;
      }
      reply := reply + [DirEntry(1, 1, [DOT, DOT])];
      room := room - 2;
    }
    var lo := Skip(children, offset);
    ghost var head := reply;
    var i := lo;
    while i < |children| && i - lo < room
      invariant lo <= i <= |children| && i <= lo + room
      invariant reply == head + ChildEntries(children, lo, i)
    {
      assert ChildEntries(children, lo, i + 1) == ChildEntries(children, lo, i) + [ChildEntry(children, i)];
      reply := reply + [DirEntry(children[i].ino, i + 3, children[i].name)];
      i := i + 1;
    }
    assert i == Min(lo + room, |children|);
    assert head == if offset == 0 then Dots(ino) else [];
    assert offset > 0 ==> reply == ChildEntries(children, lo, i);
    return Some(reply);
  }

  /** A reader asks for page after page, from the offset of the last entry it got, until a page is
      empty; the `n`-th buffer takes `fits(n)` entries. */
  function Rest(children: seq<Child>, offset: nat, fits: nat -> nat, n: nat): seq<DirEntry>
    requires offset > 0
    decreases |children| - Skip(children, offset)
  {
    var page := PageFrom(children, Skip(children, offset), fits(n));
    if page == [] then [] else page + Rest(children, page[|page| - 1].offset, fits, n + 1)
  }

  function LastOffset(page: seq<DirEntry>): nat
    requires page != []
  {
    page[|page| - 1].offset
  }

  function List(ino: nat, children: seq<Child>, fits: nat -> nat): Option<seq<DirEntry>> {
    match Page(ino, children, 0, fits(0))
    case None => None
    case Some(page) =>
      FirstOffset(ino, children, fits(0));
      Some(page + Rest(children, LastOffset(page), fits, 1))
  }

  /** The first page ends at the second dot entry or at its last child. */
  lemma {:induction false} FirstOffset(ino: nat, children: seq<Child>, fits: nat)
    requires fits >= 2
    ensures var page := Page(ino, children, 0, fits).value;
            var hi := Min(fits - 2, |children|);
            page != [] && LastOffset(page) == if hi == 0 then 1 else hi + 2
  {
    var hi := Min(fits - 2, |children|);
    var kids := PageFrom(children, 0, fits - 2);
    if hi > 0 {
      assert (Dots(ino) + kids)[hi + 1] == kids[hi - 1];
    }
  }

  lemma {:induction false} Glue(children: seq<Child>, lo: nat, mid: nat)
    requires lo <= mid <= |children|
    ensures ChildEntries(children, lo, mid) + ChildEntries(children, mid, |children|)
         == ChildEntries(children, lo, |children|)
  {
  }

  lemma {:induction false} RestIsAll(children: seq<Child>, offset: nat, fits: nat -> nat, n: nat)
    requires offset > 0 && forall m: nat | m >= n :: fits(m) >= 1
    ensures Rest(children, offset, fits, n) == ChildEntries(children, Skip(children, offset), |children|)
    decreases |children| - Skip(children, offset)
  {
    var lo := Skip(children, offset);
    var hi := Min(lo + fits(n), |children|);
    var page := PageFrom(children, lo, fits(n));
    assert page == ChildEntries(children, lo, hi);
    if page != [] {
      assert page[|page| - 1].offset == hi + 2 && Skip(children, hi + 2) == hi;
      RestIsAll(children, hi + 2, fits, n + 1);
      Glue(children, lo, hi);
    }
  }

  /** Paging lists the dot entries and every child once, in order, exactly when the first buffer
      takes both dot entries, provided every later one takes at least one. */
  lemma {:induction false} ListsAllExactly(ino: nat, children: seq<Child>, fits: nat -> nat)
    requires forall m: nat | m >= 1 :: fits(m) >= 1
    ensures fits(0) >= 2 ==> List(ino, children, fits) == Some(Dots(ino) + ChildEntries(children, 0, |children|))
    ensures fits(0) < 2 ==> List(ino, children, fits) == None
  {
    if fits(0) >= 2 {
      var hi := Min(fits(0) - 2, |children|);
      var next := if hi == 0 then 1 else hi + 2;
      FirstOffset(ino, children, fits(0));
      RestIsAll(children, next, fits, 1);
      Glue(children, 0, hi);
      Reassociate(Dots(ino), ChildEntries(children, 0, hi), ChildEntries(children, hi, |children|));
    }
  }

  function All(ino: nat, children: seq<Child>): seq<DirEntry> {
    Dots(ino) + ChildEntries(children, 0, |children|)
  }

  /** What each entry of a complete listing carries. The offset of a child is where the next one starts. */
  lemma {:induction false} EntriesAre(ino: nat, children: seq<Child>, fits: nat -> nat)
    requires fits(0) >= 2 && forall m: nat | m >= 1 :: fits(m) >= 1
    ensures var r := List(ino, children, fits);
            && r.Some? && |r.value| == |children| + 2
            && r.value[0] == DirEntry(ino, 0, [46]) && r.value[1] == DirEntry(1, 1, [46, 46])
            && forall k | 0 <= k < |children| ::
                 r.value[k + 2].ino == children[k].ino && r.value[k + 2].name == children[k].name
                 && r.value[k + 2].offset == k + 3
  {
    ListsAllExactly(ino, children, fits);
    var kids := ChildEntries(children, 0, |children|);
    forall k | 0 <= k < |children|
      ensures (Dots(ino) + kids)[k + 2] == ChildEntry(children, k)
    {
      assert kids[k] == ChildEntry(children, k);
    }
  }

  /** What a reader gets that starts from a given offset. */
  function From(ino: nat, children: seq<Child>, offset: nat, fits: nat -> nat): Option<seq<DirEntry>> {
    if offset == 0 then List(ino, children, fits) else Some(Rest(children, offset, fits, 0))
  }

  /** A reader that stops after entry `k` and resumes from that entry's offset gets exactly the entries
      after it, unless it stopped after the first: "." carries offset zero, so the reader starts over. */
  lemma {:induction false} ResumesExactly(ino: nat, children: seq<Child>, k: nat, fits: nat -> nat)
    requires k < |All(ino, children)| && fits(0) >= 2 && forall m: nat :: fits(m) >= 1
    ensures From(ino, children, All(ino, children)[k].offset, fits) == Some(All(ino, children)[k + 1..]) <==> k != 0
  {
    var all := All(ino, children);
    if k == 0 {
      ListsAllExactly(ino, children, fits);
      assert |all[1..]| < |all|;
    } else {
      var offset := all[k].offset;
      var lo := k - 1;
      assert offset == if k == 1 then 1 else k + 1;
      RestIsAll(children, offset, fits, 0);
      assert Skip(children, offset) == lo;
      Glue(children, 0, lo);
      Behind(Dots(ino), ChildEntries(children, 0, lo), ChildEntries(children, lo, |children|));
    }
  }

  lemma {:induction false} Behind(a: seq<DirEntry>, b: seq<DirEntry>, c: seq<DirEntry>)
    ensures (a + (b + c))[|a| + |b|..] == c
  {
  }

  lemma {:induction false} Reassociate(a: seq<DirEntry>, b: seq<DirEntry>, c: seq<DirEntry>)
    ensures (a + b) + c == a + (b + c)
  {
  }

  /** So the listing of a directory names each path below it once, with its inode. */
  lemma {:induction false} ListingNamesEachChild(manifest: map<Bytes, Vnode>, ps: seq<Bytes>, inodes: Inodes,
                                                 ids: map<Bytes, nat>, cs: seq<Bytes>, name: Bytes)
    requires IsTree(manifest, ps, inodes, ids) && AllNormal(ps)
    requires AreNames(cs) && IsName(name) && Text(cs) in ids
    ensures ids[Text(cs)] in inodes && Names(ps, name, Text(cs + [name]), inodes[ids[Text(cs)]].children)
    ensures forall i, j | 0 <= i < j < |inodes[ids[Text(cs)]].children| ::
              inodes[ids[Text(cs)]].children[i].ino < inodes[ids[Text(cs)]].children[j].ino
  {
    NodeKids(manifest, ps, inodes, ids, Text(cs));
    KidsNamed(ps, cs, name);
    KidsAscend(ps, Text(cs));
  }

  lemma {:induction false} KidsAscend(ps: seq<Bytes>, q: Bytes)
    ensures forall i | 0 <= i < |Kids(ps, q)| :: Kids(ps, q)[i].ino < |ps| + 2
    ensures forall i, j | 0 <= i < j < |Kids(ps, q)| :: Kids(ps, q)[i].ino < Kids(ps, q)[j].ino
    decreases |ps|
  {
    if ps != [] {
      KidsAscend(ps[..|ps| - 1], q);
    }
  }
}
