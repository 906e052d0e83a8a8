/** What the two-layer manifest answers, in terms of the operations it has seen
    (crates/vrift-manifest/src/lmdb.rs, `insert`, `remove`, `mark_stale`, `get` and `commit`). */
module LmdbHistory {
  import opened Bytes
  import opened LmdbManifest

  predicate Inserts(op: Op, p: Bytes) {
    op.Insert? && op.path == p
  }

  predicate Removes(op: Op, p: Bytes) {
    op.Remove? && op.path == p
  }

  /** No insertion or removal of the path from operation `i` on. */
  predicate Settled(ops: seq<Op>, i: nat, p: Bytes) {
    forall j :: i <= j < |ops| ==> !Inserts(ops[j], p) && !Removes(ops[j], p)
  }

  predicate Marked(ops: seq<Op>, i: nat, p: Bytes) {
    exists j :: i <= j < |ops| && ops[j] == MarkStale(p)
  }

  /** The answer for a path after the operations, when it was `before` at first: the last insertion counts
      unless a removal follows it, and the entry is stale when it is marked after that. */
  ghost predicate Answers(before: Option<Entry>, ops: seq<Op>, p: Bytes, now: Option<Entry>) {
    && (forall i :: 0 <= i < |ops| && Inserts(ops[i], p) && Settled(ops, i + 1, p)
                    ==> now == Some(Entry(ops[i].vnode, ops[i].tier, Marked(ops, i + 1, p))))
    && (forall i :: 0 <= i < |ops| && Removes(ops[i], p) && Settled(ops, i + 1, p) ==> now == None)
    && (Settled(ops, 0, p) ==>
        match before
        case None => now == None
        case Some(e) => now == Some(Entry(e.vnode, e.tier, e.stale || Marked(ops, 0, p))))
  }

  function At(m: map<PathHash, Entry>, h: PathHash): Option<Entry> {
    if h in m then Some(m[h]) else None
  }

  /** One more operation. */
  lemma {:induction false} AnswersNext(before: Option<Entry>, ops: seq<Op>, op: Op, p: Bytes, now: Option<Entry>,
                                       next: Option<Entry>)
    requires Answers(before, ops, p, now)
    requires next == if Inserts(op, p) then Some(Entry(op.vnode, op.tier, false))
                     else if Removes(op, p) then None
                     else if op == MarkStale(p) && now.Some? then Some(now.value.(stale := true))
                     else now
    ensures Answers(before, ops + [op], p, next)
  {
    var all := ops + [op];
    if !Inserts(op, p) && !Removes(op, p) {
      forall i | 0 <= i <= |ops|
        ensures Settled(all, i, p) <==> Settled(ops, i, p)
        ensures Marked(all, i, p) <==> Marked(ops, i, p) || op == MarkStale(p)
      {
        SettledNext(ops, op, i, p);
      }
    } else {
      LastTouch(ops, op, p);
    }
  }

  lemma {:induction false} SettledNext(ops: seq<Op>, op: Op, i: nat, p: Bytes)
    requires i <= |ops| && !Inserts(op, p) && !Removes(op, p)
    ensures Settled(ops + [op], i, p) <==> Settled(ops, i, p)
    ensures Marked(ops + [op], i, p) <==> Marked(ops, i, p) || op == MarkStale(p)
  {
    var all := ops + [op];
    assert all[|ops|] == op && forall j | 0 <= j < |ops| :: all[j] == ops[j];
    if Settled(all, i, p) {
      forall j | i <= j < |ops|
        ensures !Inserts(ops[j], p) && !Removes(ops[j], p)
      {
        assert !Inserts(all[j], p) && !Removes(all[j], p);
      }
    }
    if Marked(ops, i, p) {
      var j :| i <= j < |ops| && ops[j] == MarkStale(p);
      assert all[j] == MarkStale(p);
    }
  }

  /** After an insertion or removal at the end no earlier operation is the last of its path. */
  lemma {:induction false} LastTouch(ops: seq<Op>, op: Op, p: Bytes)
    requires Inserts(op, p) || Removes(op, p)
    ensures var all := ops + [op];
            && (forall i :: 0 <= i <= |ops| ==> !Settled(all, i, p))
            && Settled(all, |all|, p) && !Marked(all, |all|, p)
  {
    var all := ops + [op];
    forall i | 0 <= i <= |ops|
      ensures !Settled(all, i, p)
    {
      assert all[|ops|] == op;
    }
  }

  lemma {:induction false} ApplyAnswers(hash: Bytes -> PathHash, view: map<PathHash, Entry>, op: Op, p: Bytes)
    requires Injective(hash)
    ensures var now := At(view, hash(p));
            At(Apply(hash, view, op), hash(p))
            == if Inserts(op, p) then Some(Entry(op.vnode, op.tier, false))
               else if Removes(op, p) then None
               else if op == MarkStale(p) && now.Some? then Some(now.value.(stale := true))
               else now
  {
    if !op.Commit? && hash(op.path) == hash(p) {
      assert op.path == p;
    }
  }

  lemma {:induction false} RunAnswers(hash: Bytes -> PathHash, view: map<PathHash, Entry>, ops: seq<Op>, p: Bytes)
    requires Injective(hash)
    ensures Answers(At(view, hash(p)), ops, p, At(ApplyAll(hash, view, ops), hash(p)))
    decreases |ops|
  {
    if ops != [] {
      var n := |ops| - 1;
      var mid := ApplyAll(hash, view, ops[..n]);
      RunAnswers(hash, view, ops[..n], p);
      ApplyAnswers(hash, mid, ops[n], p);
      AnswersNext(At(view, hash(p)), ops[..n], ops[n], p, At(mid, hash(p)), At(Apply(hash, mid, ops[n]), hash(p)));
      assert ops[..n] + [ops[n]] == ops;
    }
  }

  /** Whatever was done to a manifest, and whichever of it was committed: a path is answered by its last
      insertion, unless it was removed since; stale exactly when it was marked since. */
  method GetAfter(m: Manifest, ops: seq<Op>, p: Bytes) returns (before: Option<Entry>, now: Option<Entry>)
    requires m.Valid() && Injective(m.hash)
    modifies m
    ensures m.Valid() && Answers(before, ops, p, now)
    ensures old(m.View()) == map[] ==> before == None
  {
    before := m.Get(p);
    ghost var view := m.View();
    m.Execute(ops);
    RunAnswers(m.hash, view, ops, p);
    now := m.Get(p);
  }

  /** So in a new manifest a path is absent exactly when it was never inserted or a removal follows its last
      insertion. */
  method GetInNew(hash: Bytes -> PathHash, ops: seq<Op>, p: Bytes) returns (r: Option<Entry>)
    requires Injective(hash)
    ensures r == None <==> forall i :: 0 <= i < |ops| && Inserts(ops[i], p) ==> RemovedAfter(ops, i, p)
    ensures forall i :: 0 <= i < |ops| && Inserts(ops[i], p) && Settled(ops, i + 1, p)
                        ==> r == Some(Entry(ops[i].vnode, ops[i].tier, Marked(ops, i + 1, p)))
  {
    var m := new Manifest(hash);
    var before, now := GetAfter(m, ops, p);
    AbsentExactly(ops, p, now);
    return now;
  }

  predicate RemovedAfter(ops: seq<Op>, i: nat, p: Bytes) {
    exists j :: i < j < |ops| && Removes(ops[j], p)
  }

  lemma {:induction false} AbsentExactly(ops: seq<Op>, p: Bytes, now: Option<Entry>)
    requires Answers(None, ops, p, now)
    ensures now == None <==> forall i :: 0 <= i < |ops| && Inserts(ops[i], p) ==> RemovedAfter(ops, i, p)
  {
    var last := LastOf(ops, p);
    if last.None? {
      assert Settled(ops, 0, p);
    } else {
      var k := last.value;
      if Removes(ops[k], p) {
        assert now == None;
        forall i | 0 <= i < |ops| && Inserts(ops[i], p)
          ensures RemovedAfter(ops, i, p)
        {
          assert i < k;
        }
      } else {
        assert now.Some? && !RemovedAfter(ops, k, p);
      }
    }
  }

  lemma {:induction false} LastOf(ops: seq<Op>, p: Bytes) returns (k: Option<nat>)
    ensures k.None? ==> Settled(ops, 0, p)
    ensures k.Some? ==> k.value < |ops| && (Inserts(ops[k.value], p) || Removes(ops[k.value], p))
                        && Settled(ops, k.value + 1, p)
    decreases |ops|
  {
    if ops == [] {
      k := None;
    } else {
      var n := |ops| - 1;
      if Inserts(ops[n], p) || Removes(ops[n], p) {
        k := Some(n);
      } else {
        k := LastOf(ops[..n], p);
        if k.Some? {
          assert forall j | k.value + 1 <= j < n :: ops[j] == ops[..n][j];
        } else {
          assert forall j | 0 <= j < n :: ops[j] == ops[..n][j];
        }
      }
    }
  }
}
