/** The read-only file system over a manifest (crates/vrift-fuse/src/lib.rs, `VeloFs`): the inode
    tree, lookup by name and the paging of directory listings. */
module FuseTree {
  import opened Bytes

  const SLASH: byte := 47
  const DOT: byte := 46
  const ROOT: Bytes := [47]

  datatype Vnode = Vnode(hash: Bytes, size: nat, mtime: nat, mode: nat, isDir: bool)

  datatype Kind = Directory | RegularFile

  datatype Attr = Attr(ino: nat, size: nat, blocks: nat, mtime: nat, kind: Kind, perm: nat, nlink: nat)

  datatype Child = Child(name: Bytes, ino: nat)

  datatype Inode = Inode(hash: Bytes, attr: Attr, children: seq<Child>)

  type Inodes = map<nat, Inode>

  // ---------------------------------------------------------------- paths

  /** A name that a normalised path can contain. */
  predicate IsName(c: Bytes) {
    c != [] && SLASH !in c && c != [DOT] && c != [DOT, DOT]
  }

  predicate AreNames(cs: seq<Bytes>) {
    forall i | 0 <= i < |cs| :: IsName(cs[i])
  }

  function Joined(cs: seq<Bytes>): Bytes {
    if cs == [] then [] else Joined(cs[..|cs| - 1]) + [SLASH] + cs[|cs| - 1]
  }

  /** The absolute path of a list of names. */
  function Text(cs: seq<Bytes>): Bytes {
    if cs == [] then ROOT else Joined(cs)
  }

  ghost predicate Normal(p: Bytes) {
    exists cs :: AreNames(cs) && p == Text(cs)
  }

  function LastSlash(p: Bytes): (k: nat)
    requires SLASH in p
    ensures k < |p| && p[k] == SLASH && SLASH !in p[k + 1..]
  {
    if p[|p| - 1] == SLASH then |p| - 1
    else
      assert p == p[..|p| - 1] + [p[|p| - 1]];
      var k := LastSlash(p[..|p| - 1]);
      assert p[k + 1..] == p[..|p| - 1][k + 1..] + [p[|p| - 1]];
      k
  }

  /** `Path::parent` and `Path::file_name` of a normalised path below the root. */
  function ParentOf(p: Bytes): Bytes
    requires SLASH in p
  {
    if LastSlash(p) == 0 then ROOT else p[..LastSlash(p)]
  }

  function NameOf(p: Bytes): Bytes
    requires SLASH in p
  {
    p[LastSlash(p) + 1..]
  }

  lemma {:induction false} LastSlashOf(a: Bytes, c: Bytes)
    requires SLASH !in c
    ensures LastSlash(a + [SLASH] + c) == |a|
    decreases |c|
  {
    var p := a + [SLASH] + c;
    assert p[|a|] == SLASH;
    assert forall i | |a| < i < |p| :: p[i] in c;
  }

  lemma {:induction false} SplitText(cs: seq<Bytes>)
    requires cs != [] && AreNames(cs)
    ensures SLASH in Text(cs) && ParentOf(Text(cs)) == Text(cs[..|cs| - 1]) && NameOf(Text(cs)) == cs[|cs| - 1]
    ensures Text(cs) != ROOT
  {
    var front, c := cs[..|cs| - 1], cs[|cs| - 1];
    assert IsName(c);
    var a := Joined(front);
    LastSlashOf(a, c);
    var p := a + [SLASH] + c;
    assert p[..|a|] == a && p[|a| + 1..] == c && p[|a|] == SLASH;
    if front != [] {
      assert |Joined(front)| > 0;
    }
  }

  lemma {:induction false} NormalHasSlash(p: Bytes)
    requires Normal(p)
    ensures SLASH in p
  {
    var cs :| AreNames(cs) && p == Text(cs);
    if cs != [] {
      SplitText(cs);
    }
  }

  // ---------------------------------------------------------------- the order

  /** Byte-wise lexicographic order, as strings are sorted. */
  predicate Less(a: Bytes, b: Bytes) {
    b != [] && (a == [] || a[0] < b[0] || (a[0] == b[0] && Less(a[1..], b[1..])))
  }

  lemma {:induction false} LessAsymmetric(a: Bytes, b: Bytes)
    requires Less(a, b)
    ensures !Less(b, a)
    decreases |a|
  {
    if a != [] && a[0] == b[0] {
      LessAsymmetric(a[1..], b[1..]);
    }
  }

  lemma {:induction false} PrefixLess(a: Bytes, b: Bytes)
    requires a <= b && a != b
    ensures Less(a, b)
    decreases |a|
  {
    if a != [] {
      assert a == b[..|a|] && a[1..] == b[1..][..|a| - 1];
      PrefixLess(a[1..], b[1..]);
    }
  }

  /** A parent sorts before its children. */
  lemma {:induction false} ParentLess(p: Bytes)
    requires Normal(p) && p != ROOT
    ensures SLASH in p && Less(ParentOf(p), p)
  {
    var cs :| AreNames(cs) && p == Text(cs);
    SplitText(cs);
    var front := cs[..|cs| - 1];
    assert IsName(cs[|cs| - 1]);
    if front == [] {
      assert Joined(front) == [];
      assert p == [SLASH] + cs[0];
    } else {
      assert p == Joined(front) + ([SLASH] + cs[|cs| - 1]);
    }
    PrefixLess(ParentOf(p), p);
  }

  ghost predicate Sorted(ps: seq<Bytes>) {
    forall i, j | 0 <= i < j < |ps| :: Less(ps[i], ps[j])
  }

  ghost predicate AllNormal(ps: seq<Bytes>) {
    forall i | 0 <= i < |ps| :: Normal(ps[i])
  }

  // ---------------------------------------------------------------- the tree

  function VnodeAttr(ino: nat, v: Vnode): Attr {
    Attr(ino, v.size, (v.size + 4095) / 4096, v.mtime, if v.isDir then Directory else RegularFile,
         v.mode % 0x1_0000, if v.isDir then 2 else 1)
  }

  const ROOT_ATTR := Attr(1, 0, 0, 0, Directory, 0x1ED, 2)  // mode 0o755

  /** The children of a path among the placed paths, in their order; path `i` has inode `i + 2`. */
  function Kids(ps: seq<Bytes>, q: Bytes): seq<Child> {
    if ps == [] then [] else Grown(Kids(ps[..|ps| - 1], q), ps[|ps| - 1], q, |ps| + 1)
  }

  /** A list of children of `q`, with `p` when that is one. */
  function Grown(kids: seq<Child>, p: Bytes, q: Bytes, k: nat): seq<Child> {
    if SLASH in p && ParentOf(p) == q then kids + [Child(NameOf(p), k)] else kids
  }

  /** The tables after the paths `ps` were placed. */
  ghost predicate IsTree(manifest: map<Bytes, Vnode>, ps: seq<Bytes>, inodes: Inodes, ids: map<Bytes, nat>) {
    && (forall i | 0 <= i < |ps| :: ps[i] in manifest && ps[i] != ROOT)
    && IdsOf(ps, ids)
    && (forall k :: k in inodes <==> 1 <= k < |ps| + 2)
    && inodes[1] == Inode(Zeros(32), ROOT_ATTR, Kids(ps, ROOT))
    && (forall k | 2 <= k < |ps| + 2 :: inodes[k] == NodeFor(manifest[ps[k - 2]], k, Kids(ps, ps[k - 2])))
  }

  function NodeFor(v: Vnode, k: nat, children: seq<Child>): Inode {
    Inode(v.hash, VnodeAttr(k, v), children)
  }

  ghost predicate IdsOf(ps: seq<Bytes>, ids: map<Bytes, nat>) {
    && (forall p :: p in ids <==> p == ROOT || p in ps)
    && ROOT in ids && ids[ROOT] == 1
    && (forall i | 0 <= i < |ps| :: ps[i] in ids && ids[ps[i]] == i + 2)
  }

  lemma {:induction false} KidsAppend(ps: seq<Bytes>, p: Bytes, q: Bytes)
    ensures Kids(ps + [p], q) == Grown(Kids(ps, q), p, q, |ps| + 2)
  {
    assert (ps + [p])[..|ps|] == ps;
  }

  /** Nothing placed before a path is its child. */
  lemma {:induction false} NoKidsYet(ps: seq<Bytes>, p: Bytes)
    requires AllNormal(ps) && (forall i | 0 <= i < |ps| :: ps[i] != ROOT && Less(ps[i], p))
    ensures Kids(ps, p) == []
    decreases |ps|
  {
    if ps != [] {
      var last := ps[|ps| - 1];
      NoKidsYet(ps[..|ps| - 1], p);
      ParentLess(last);
      LessAsymmetric(last, p);
    }
  }

  /** The inode table with a new entry, and that entry under its parent when the parent is known. */
  function Placed(inodes: Inodes, ids: map<Bytes, nat>, p: Bytes, k: nat, v: Vnode): Inodes
    requires SLASH in p
  {
    var grown := inodes[k := NodeFor(v, k, [])];
    if ParentOf(p) in ids && ids[ParentOf(p)] in grown then WithChild(grown, ids[ParentOf(p)], Child(NameOf(p), k))
    else grown
  }

  function WithChild(inodes: Inodes, k: nat, c: Child): Inodes
    requires k in inodes
  {
    inodes[k := inodes[k].(children := inodes[k].children + [c])]
  }

  lemma {:induction false} PlaceOne(manifest: map<Bytes, Vnode>, ps: seq<Bytes>, inodes: Inodes, ids: map<Bytes, nat>,
                                    p: Bytes)
    requires IsTree(manifest, ps, inodes, ids) && AllNormal(ps) && Normal(p) && p != ROOT && p in manifest
    requires SLASH in p && p !in ps && forall i | 0 <= i < |ps| :: Less(ps[i], p)
    ensures IsTree(manifest, ps + [p], Placed(inodes, ids, p, |ps| + 2, manifest[p]), ids[p := |ps| + 2])
  {
    ParentLess(p);
    assert ParentOf(p) != p by { if ParentOf(p) == p { LessAsymmetric(ParentOf(p), p); } }
    NoKidsYet(ps, p);
    PlaceChildless(manifest, ps, inodes, ids, p);
  }

  lemma {:induction false} PlaceChildless(manifest: map<Bytes, Vnode>, ps: seq<Bytes>, inodes: Inodes,
                                          ids: map<Bytes, nat>, p: Bytes)
    requires IsTree(manifest, ps, inodes, ids) && p != ROOT && p in manifest
    requires SLASH in p && p !in ps && ParentOf(p) != p && Kids(ps, p) == []
    ensures IsTree(manifest, ps + [p], Placed(inodes, ids, p, |ps| + 2, manifest[p]), ids[p := |ps| + 2])
  {
    IdsAppend(ps, ids, p);
    PlacedChildren(ps, inodes, ids, p, manifest[p]);
    TreeGrows(manifest, ps, inodes, ids, p, Placed(inodes, ids, p, |ps| + 2, manifest[p]), ids[p := |ps| + 2]);
  }

  lemma {:induction false} TreeGrows(manifest: map<Bytes, Vnode>, ps: seq<Bytes>, inodes: Inodes, ids: map<Bytes, nat>,
                                     p: Bytes, now: Inodes, ids': map<Bytes, nat>)
    requires IsTree(manifest, ps, inodes, ids) && p != ROOT && p in manifest && Kids(ps, p) == []
    requires IdsOf(ps + [p], ids') && Grew(ps, inodes, now, p, manifest[p])
    ensures IsTree(manifest, ps + [p], now, ids')
  {
    var all := ps + [p];
    RootGrows(manifest, ps, inodes, ids, p, now);
    forall k | 2 <= k < |all| + 2
      ensures k in now && all[k - 2] in manifest && now[k] == NodeFor(manifest[all[k - 2]], k, Kids(all, all[k - 2]))
    {
      NodeGrows(manifest, ps, inodes, ids, p, now, k);
    }
    IsTreeWhen(manifest, all, now, ids');
  }

  lemma {:induction false} IsTreeWhen(manifest: map<Bytes, Vnode>, ps: seq<Bytes>, inodes: Inodes, ids: map<Bytes, nat>)
    requires forall i | 0 <= i < |ps| :: ps[i] in manifest && ps[i] != ROOT
    requires IdsOf(ps, ids) && forall k :: k in inodes <==> 1 <= k < |ps| + 2
    requires inodes[1] == Inode(Zeros(32), ROOT_ATTR, Kids(ps, ROOT))
    requires forall k | 2 <= k < |ps| + 2 :: inodes[k] == NodeFor(manifest[ps[k - 2]], k, Kids(ps, ps[k - 2]))
    ensures IsTree(manifest, ps, inodes, ids)
  {
  }

  lemma {:induction false} RootGrows(manifest: map<Bytes, Vnode>, ps: seq<Bytes>, inodes: Inodes, ids: map<Bytes, nat>,
                                     p: Bytes, now: Inodes)
    requires IsTree(manifest, ps, inodes, ids) && p in manifest && Grew(ps, inodes, now, p, manifest[p])
    ensures 1 in now && now[1] == Inode(Zeros(32), ROOT_ATTR, Kids(ps + [p], ROOT))
  {
    KidsAppend(ps, p, ROOT);
    GrownRoot(inodes[1], now[1], Kids(ps, ROOT), Kids(ps + [p], ROOT), p, |ps| + 2);
  }

  lemma {:induction false} NodeGrows(manifest: map<Bytes, Vnode>, ps: seq<Bytes>, inodes: Inodes, ids: map<Bytes, nat>,
                                     p: Bytes, now: Inodes, k: nat)
    requires IsTree(manifest, ps, inodes, ids) && p != ROOT && p in manifest && Kids(ps, p) == []
    requires Grew(ps, inodes, now, p, manifest[p]) && 2 <= k < |ps| + 3
    ensures k in now && (ps + [p])[k - 2] in manifest
    ensures var q := (ps + [p])[k - 2]; now[k] == NodeFor(manifest[q], k, Kids(ps + [p], q))
  {
    var q := (ps + [p])[k - 2];
    KidsAppend(ps, p, q);
    if k < |ps| + 2 {
      GrownNode(manifest[q], k, inodes[k], now[k], Kids(ps, q), Kids(ps + [p], q), p, q, |ps| + 2);
    }
  }

  lemma {:induction false} GrownNode(v: Vnode, j: nat, was: Inode, now: Inode, kids: seq<Child>, more: seq<Child>,
                                     p: Bytes, q: Bytes, k: nat)
    requires was == NodeFor(v, j, kids) && now == Gains(was, p, q, k) && more == Grown(kids, p, q, k)
    ensures now == NodeFor(v, j, more)
  {
  }

  lemma {:induction false} GrownRoot(was: Inode, now: Inode, kids: seq<Child>, more: seq<Child>, p: Bytes, k: nat)
    requires was == Inode(Zeros(32), ROOT_ATTR, kids)
    requires now == Gains(was, p, ROOT, k) && more == Grown(kids, p, ROOT, k)
    ensures now == Inode(Zeros(32), ROOT_ATTR, more)
  {
  }

  lemma {:induction false} IdsAppend(ps: seq<Bytes>, ids: map<Bytes, nat>, p: Bytes)
    requires IdsOf(ps, ids) && p !in ps && p != ROOT
    ensures IdsOf(ps + [p], ids[p := |ps| + 2])
  {
  }

  /** Only the parent's node changes, and gains the new child. */
  ghost predicate Grew(ps: seq<Bytes>, inodes: Inodes, now: Inodes, p: Bytes, v: Vnode)
    requires forall k :: k in inodes <==> 1 <= k < |ps| + 2
  {
    var k := |ps| + 2;
    && (forall j :: j in now <==> 1 <= j < k + 1)
    && now[k] == NodeFor(v, k, Grown([], p, p, k))
    && now[1] == Gains(inodes[1], p, ROOT, k)
    && forall j | 2 <= j < k :: now[j] == Gains(inodes[j], p, ps[j - 2], k)
  }

  lemma {:induction false} PlacedChildren(ps: seq<Bytes>, inodes: Inodes, ids: map<Bytes, nat>, p: Bytes, v: Vnode)
    requires SLASH in p && p !in ps && p != ROOT && ParentOf(p) != p && IdsOf(ps, ids)
    requires forall k :: k in inodes <==> 1 <= k < |ps| + 2
    requires forall i | 0 <= i < |ps| :: ps[i] != ROOT
    ensures Grew(ps, inodes, Placed(inodes, ids, p, |ps| + 2, v), p, v)
  {
    var q := ParentOf(p);
    forall i | 0 <= i < |ps|
      ensures q in ids && ids[q] == i + 2 <==> q == ps[i]
    {
      if q in ids && q != ROOT {
        var j :| 0 <= j < |ps| && ps[j] == q;
        assert ids[ps[j]] == j + 2;
      }
    }
  }

  function Gains(n: Inode, p: Bytes, q: Bytes, k: nat): Inode {
    n.(children := Grown(n.children, p, q, k))
  }

  // ---------------------------------------------------------------- building it

  /** The paths that get an inode of their own. */
  function BelowRoot(ps: seq<Bytes>): seq<Bytes> {
    if ps == [] then []
    else BelowRoot(ps[..|ps| - 1]) + if ps[|ps| - 1] == ROOT then [] else [ps[|ps| - 1]]
  }

  lemma {:induction false} BelowRootElements(ps: seq<Bytes>, x: Bytes)
    ensures x in BelowRoot(ps) <==> x in ps && x != ROOT
    decreases |ps|
  {
    if ps != [] {
      BelowRootElements(ps[..|ps| - 1], x);
      assert ps == ps[..|ps| - 1] + [ps[|ps| - 1]];
    }
  }

  /** The next path of a sorted list can be placed after those before it. */
  lemma {:induction false} NextIsLater(paths: seq<Bytes>, i: nat)
    requires i < |paths| && Sorted(paths) && AllNormal(paths)
    ensures var ps := BelowRoot(paths[..i]);
            AllNormal(ps) && paths[i] !in ps && forall j | 0 <= j < |ps| :: Less(ps[j], paths[i])
  {
    var ps := BelowRoot(paths[..i]);
    forall j | 0 <= j < |ps|
      ensures Normal(ps[j]) && Less(ps[j], paths[i]) && ps[j] != paths[i]
    {
      BelowRootElements(paths[..i], ps[j]);
      var k :| 0 <= k < i && paths[k] == ps[j];
      if ps[j] == paths[i] {
        LessAsymmetric(paths[k], paths[i]);
      }
    }
  }

  lemma {:induction false} BelowRootNext(paths: seq<Bytes>, i: nat)
    requires i < |paths|
    ensures BelowRoot(paths[..i + 1]) == BelowRoot(paths[..i]) + if paths[i] == ROOT then [] else [paths[i]]
  {
    assert paths[..i + 1][..i] == paths[..i];
  }

  /** The manifest's paths, sorted. */
  ghost predicate Listing(manifest: map<Bytes, Vnode>, paths: seq<Bytes>) {
    Sorted(paths) && AllNormal(paths) && forall p :: p in paths <==> p in manifest
  }

  ghost predicate CanPlace(manifest: map<Bytes, Vnode>, ps: seq<Bytes>, p: Bytes) {
    && AllNormal(ps) && Normal(p) && p != ROOT && p in manifest && p !in ps
    && forall j | 0 <= j < |ps| :: Less(ps[j], p)
  }

  lemma {:induction false} NextCanPlace(manifest: map<Bytes, Vnode>, paths: seq<Bytes>, i: nat)
    requires Listing(manifest, paths) && i < |paths|
    ensures paths[i] != ROOT ==> CanPlace(manifest, BelowRoot(paths[..i]), paths[i])
  {
    NextIsLater(paths, i);
    assert paths[i] in manifest;
  }

  lemma {:induction false} EmptyTree(manifest: map<Bytes, Vnode>)
    ensures IsTree(manifest, [], map[1 := Inode(Zeros(32), ROOT_ATTR, [])], map[ROOT := 1])
  {
  }

  class VeloFs {
    var inodes: Inodes
    var pathToInode: map<Bytes, nat>

    method PlacePath(manifest: map<Bytes, Vnode>, path: Bytes, inode: nat, ghost ps: seq<Bytes>)
      requires IsTree(manifest, ps, inodes, pathToInode) && inode == |ps| + 2 && CanPlace(manifest, ps, path)
      modifies this
      ensures IsTree(manifest, ps + [path], inodes, pathToInode)
    {
      NormalHasSlash(path);
      PlaceOne(manifest, ps, inodes, pathToInode, path);
      inodes := Placed(inodes, pathToInode, path, inode, manifest[path]);
      pathToInode := pathToInode[path := inode];
    }

    /** The paths come sorted, which is how the source makes parents come before their children. */
    method InitFromManifest(manifest: map<Bytes, Vnode>, paths: seq<Bytes>)
      requires Listing(manifest, paths)
      modifies this
      ensures IsTree(manifest, BelowRoot(paths), inodes, pathToInode)
    {
      var nextInode := 2;
      inodes := map[1 := Inode(Zeros(32), ROOT_ATTR, [])];
      pathToInode := map[ROOT := 1];
      EmptyTree(manifest);
      ghost var ps: seq<Bytes> := [];
      for i := 0 to |paths|
        invariant ps == BelowRoot(paths[..i]) && nextInode == |ps| + 2
        invariant IsTree(manifest, ps, inodes, pathToInode)
      {
        BelowRootNext(paths, i);
        NextCanPlace(manifest, paths, i);
        if paths[i] == ROOT {
          continue;
        }
        PlacePath(manifest, paths[i], nextInode, ps);
        nextInode := nextInode + 1;
        ps := ps + [paths[i]];
      }
      assert paths[..|paths|] == paths;
    }

    method Lookup(parent: nat, name: Bytes) returns (r: Option<Attr>)
      ensures r == match LookupIn(inodes, parent, name) case None => None case Some(k) => Some(inodes[k].attr)
    {
      if parent !in inodes {
        return None;
      }
      var children := inodes[parent].children;
      for i := 0 to |children|
        invariant FindChild(inodes, children, name) == FindChild(inodes, children[i..], name)
      {
        assert children[i..][1..] == children[i + 1..];
        if children[i].name == name && children[i].ino in inodes {
          return Some(inodes[children[i].ino].attr);
        }
      }
      return None;
    }
  }

  // ---------------------------------------------------------------- lookup

  function FindChild(inodes: Inodes, children: seq<Child>, name: Bytes): (r: Option<nat>)
    ensures r.Some? ==> r.value in inodes && Child(name, r.value) in children
    ensures r.None? ==> forall c | c in children :: c.name != name || c.ino !in inodes
  {
    if children == [] then None
    else if children[0].name == name && children[0].ino in inodes then Some(children[0].ino)
    else FindChild(inodes, children[1..], name)
  }

  function LookupIn(inodes: Inodes, parent: nat, name: Bytes): (r: Option<nat>)
    ensures r.Some? ==> r.value in inodes
  {
    if parent in inodes then FindChild(inodes, inodes[parent].children, name) else None
  }

  /** Looking up one name after the other from the root. */
  function Walk(inodes: Inodes, cs: seq<Bytes>): Option<nat> {
    if cs == [] then Some(1)
    else match Walk(inodes, cs[..|cs| - 1])
      case None => None
      case Some(k) => LookupIn(inodes, k, cs[|cs| - 1])
  }

  lemma {:induction false} TextInjective(a: seq<Bytes>, b: seq<Bytes>)
    requires AreNames(a) && AreNames(b) && Text(a) == Text(b)
    ensures a == b
    decreases |a|
  {
    if a != [] { SplitText(a); }
    if b != [] { SplitText(b); }
    if a != [] && b != [] {
      TextInjective(a[..|a| - 1], b[..|b| - 1]);
      assert a == a[..|a| - 1] + [a[|a| - 1]] && b == b[..|b| - 1] + [b[|b| - 1]];
    }
  }

  /** The child of a directory with a given name is one path only. */
  lemma {:induction false} ChildPath(cs: seq<Bytes>, name: Bytes, p: Bytes)
    requires AreNames(cs) && IsName(name) && Normal(p) && p != ROOT
    ensures IsKid(p, Text(cs), name) <==> p == Text(cs + [name])
  {
    var ds :| AreNames(ds) && p == Text(ds);
    SplitText(ds);
    if IsKid(p, Text(cs), name) {
      TextInjective(ds[..|ds| - 1], cs);
      assert ds == cs + [name];
    }
    ChildIsKid(cs, name);
  }

  lemma {:induction false} ChildIsKid(cs: seq<Bytes>, name: Bytes)
    requires AreNames(cs) && IsName(name)
    ensures AreNames(cs + [name]) && IsKid(Text(cs + [name]), Text(cs), name)
  {
    SplitText(cs + [name]);
    assert (cs + [name])[..|cs|] == cs;
  }

  predicate IsKid(p: Bytes, q: Bytes, name: Bytes) {
    SLASH in p && ParentOf(p) == q && NameOf(p) == name
  }
}
