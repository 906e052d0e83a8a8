/** The parallel batch with a shared seen set: when its results are backed by blobs, and what its
    `was_new` flags count. */
module IngestDedup {
  import opened Bytes
  import opened IngestProtocol

  ghost predicate AllDedup(b: Batch) {
    forall w :: 0 <= w < |b.jobs| ==> IsDedup(b.jobs[w].mode)
  }

  function DigestOf(b: Batch, w: nat): Digest
    requires w < |b.jobs|
  {
    b.hash(b.jobs[w].content)
  }

  // ---------------------------------------------------------------- one claimant per hash

  predicate HasClaimed(pc: Pc) {
    pc.ToLink? || pc.Linking? || HalfWay(pc) || pc.Linked? || pc.Removed? || pc.Done? || pc == Failed(true)
  }

  /** The worker is to link the hash it claimed, is copying it, or failed at that. */
  predicate Pending(b: Batch, s: State, w: nat)
    requires WellFormed(b, s) && w < |b.jobs|
  {
    OwesLink(b, s, w) || HalfWay(s.pc[w])
  }

  ghost predicate ClaimsSeen(b: Batch, s: State)
    requires WellFormed(b, s)
  {
    forall w :: 0 <= w < |b.jobs| && HasClaimed(s.pc[w]) ==> DigestOf(b, w) in s.seen
  }

  ghost predicate OnePending(b: Batch, s: State)
    requires WellFormed(b, s)
  {
    forall u, v :: 0 <= u < v < |b.jobs| && Pending(b, s, u) && Pending(b, s, v) ==> DigestOf(b, u) != DigestOf(b, v)
  }

  /** What a failed copy left is not the content. */
  ghost predicate TornOk(b: Batch, s: State)
    requires WellFormed(b, s)
  {
    forall w :: 0 <= w < |b.jobs| && s.pc[w].Torn? ==> Name(b, w) in s.cas ==> s.cas[Name(b, w)] != b.jobs[w].content
  }

  /** A blob the batch added belongs to a claimed hash whose link is not owed any more. */
  ghost predicate AddedOk(b: Batch, s: State)
    requires WellFormed(b, s)
  {
    && (forall n :: n in s.cas && n !in b.cas0 ==> n.hash in s.seen)
    && (forall w :: 0 <= w < |b.jobs| && OwesLink(b, s, w) && Name(b, w) in s.cas ==> Name(b, w) in b.cas0)
    && (forall w :: 0 <= w < |b.jobs| && s.pc[w].Linking? ==> Name(b, w) !in s.cas)
  }

  ghost predicate NoPhantom(b: Batch, s: State)
    requires WellFormed(b, s)
  {
    forall w :: 0 <= w < |b.jobs| ==> !s.pc[w].ToRename? && !s.pc[w].Renaming? && !s.pc[w].Dup?
  }

  ghost predicate DedupInv(b: Batch, s: State) {
    WellFormed(b, s) && ClaimsSeen(b, s) && OnePending(b, s) && AddedOk(b, s) && NoPhantom(b, s) && TornOk(b, s)
  }

  /** The effect of a dedup step in terms of the claim it makes or the blob it adds. */
  lemma {:induction false} DedupLocal(b: Batch, s: State, w: nat, o: Outcome)
    requires WellFormed(b, s) && w < |b.jobs| && IsDedup(b.jobs[w].mode)
    requires !s.pc[w].ToRename? && !s.pc[w].Renaming? && !s.pc[w].Dup?
    ensures var s' := Step(b, s, w, o);
            && !s'.pc[w].ToRename? && !s'.pc[w].Renaming? && !s'.pc[w].Dup?
            && (HasClaimed(s'.pc[w]) && !HasClaimed(s.pc[w]) ==> DigestOf(b, w) in s'.seen)
            && (Pending(b, s', w) && !Pending(b, s, w) ==> DigestOf(b, w) !in s.seen)
            && (OwesLink(b, s', w) ==> s'.cas == s.cas && (OwesLink(b, s, w) || DigestOf(b, w) !in s.seen))
            && (s'.pc[w].Linking? ==> Name(b, w) !in s'.cas)
            && (s'.pc[w].Torn? && !s.pc[w].Torn? && Name(b, w) in s'.cas ==> s'.cas[Name(b, w)] != b.jobs[w].content)
  {
    match s.pc[w] case Start => case Hashed => case ToLink => case Linking => case Copying => case Linked(_) =>
    case Removed(_) => case Done(_) => case Failed(_) => case Torn =>
  }

  lemma {:induction false} StepKeepsOnePending(b: Batch, s: State, w: nat, o: Outcome)
    requires AllDedup(b) && DedupInv(b, s) && w < |b.jobs|
    ensures OnePending(b, Step(b, s, w, o)) && ClaimsSeen(b, Step(b, s, w, o))
  {
    StepFrame(b, s, w, o);
    DedupLocal(b, s, w, o);
    var s' := Step(b, s, w, o);
    forall u, v | 0 <= u < v < |b.jobs| && Pending(b, s', u) && Pending(b, s', v)
      ensures DigestOf(b, u) != DigestOf(b, v)
    {
      assert u != w ==> Pending(b, s, u) && HasClaimed(s.pc[u]);
      assert v != w ==> Pending(b, s, v) && HasClaimed(s.pc[v]);
    }
  }

  lemma {:induction false} StepKeepsAdded(b: Batch, s: State, w: nat, o: Outcome)
    requires AllDedup(b) && DedupInv(b, s) && w < |b.jobs|
    ensures AddedOk(b, Step(b, s, w, o)) && TornOk(b, Step(b, s, w, o))
  {
    StepFrame(b, s, w, o);
    DedupLocal(b, s, w, o);
    var s' := Step(b, s, w, o);
    forall v | 0 <= v < |b.jobs| && OwesLink(b, s', v) && Name(b, v) in s'.cas
      ensures Name(b, v) in b.cas0
    {
      if v != w {
        OtherBlobStays(b, s, s', w, v);
      }
    }
    forall v | 0 <= v < |b.jobs| && s'.pc[v].Linking?
      ensures Name(b, v) !in s'.cas
    {
      if v != w {
        OtherBlobStays(b, s, s', w, v);
      }
    }
    forall v | 0 <= v < |b.jobs| && s'.pc[v].Torn? && Name(b, v) in s'.cas
      ensures s'.cas[Name(b, v)] != b.jobs[v].content
    {
      if v != w {
        OtherBlobStays(b, s, s', w, v);
      }
    }
  }

  /** A step does not touch the blob that another worker has pending. */
  lemma {:induction false} OtherBlobStays(b: Batch, s: State, s': State, w: nat, v: nat)
    requires AllDedup(b) && DedupInv(b, s) && w < |b.jobs| && v < |b.jobs| && v != w
    requires SameElsewhere(s, s', w) && Grows(b, s, s', w) && (s'.cas != s.cas ==> Writes(s.pc[w]))
    requires Pending(b, s', v)
    ensures Pending(b, s, v) && (OwesLink(b, s', v) ==> OwesLink(b, s, v)) && s.pc[v] == s'.pc[v]
    ensures Name(b, v) in s'.cas <==> Name(b, v) in s.cas
    ensures Name(b, v) in s.cas ==> s'.cas[Name(b, v)] == s.cas[Name(b, v)]
  {
    if s'.cas != s.cas {
      assert Pending(b, s, w) && Pending(b, s, v);
      assert DigestOf(b, v) != DigestOf(b, w);
    }
  }

  lemma {:induction false} RunKeepsDedup(b: Batch, sched: Schedule)
    requires AllDedup(b) && IsSchedule(b, sched)
    ensures DedupInv(b, Run(b, sched))
    decreases |sched|
  {
    if sched != [] {
      var k := |sched| - 1;
      var s := Run(b, sched[..k]);
      var (w, o) := sched[k];
      RunKeepsDedup(b, sched[..k]);
      StepKeepsOnePending(b, s, w, o);
      StepKeepsAdded(b, s, w, o);
      StepFrame(b, s, w, o);
      DedupLocal(b, s, w, o);
    }
  }

  // ---------------------------------------------------------------- results without a blob

  /** Some worker with the same content failed after claiming its hash and before its blob was whole. */
  ghost predicate ClaimantFailed(b: Batch, s: State, w: nat)
    requires WellFormed(b, s) && w < |b.jobs|
  {
    exists v :: 0 <= v < |b.jobs| && b.jobs[v].content == b.jobs[w].content
                && (s.pc[v] == Failed(true) || s.pc[v].Torn?)
  }

  /** The store holds the worker's content under its name. */
  predicate Intact(b: Batch, s: State, w: nat)
    requires w < |b.jobs|
  {
    Name(b, w) in s.cas && s.cas[Name(b, w)] == b.jobs[w].content
  }

  /** When a batch has ended, a reported result has its content in the store exactly when the store
      already held it or no worker failed between claiming that content and storing it whole. */
  lemma {:induction false} ResultIsBackedExactly(b: Batch, sched: Schedule, w: nat)
    requires AllDedup(b) && IsSchedule(b, sched) && Addressed(b, b.cas0) && Injective(b) && w < |b.jobs|
    requires Finished(Run(b, sched)) && Run(b, sched).pc[w].Done?
    ensures var s := Run(b, sched);
            Intact(b, s, w) <==> Name(b, w) in b.cas0 || !ClaimantFailed(b, s, w)
  {
    RunKeepsDedup(b, sched);
    RunKeepsInv(b, sched);
    var s := Run(b, sched);
    if Name(b, w) in b.cas0 {
      SameHash(b, b.cas0[Name(b, w)], b.jobs[w].content);
    } else if ClaimantFailed(b, s, w) {
      ClaimantLeavesNone(b, s, w);
    } else {
      ClaimedIsIntact(b, s, w);
    }
  }

  lemma {:induction false} SameHash(b: Batch, x: Content, y: Content)
    requires Injective(b) && b.hash(x) == b.hash(y)
    ensures x == y
  {
  }

  lemma {:induction false} ClaimantLeavesNone(b: Batch, s: State, w: nat)
    requires AllDedup(b) && DedupInv(b, s) && w < |b.jobs| && Name(b, w) !in b.cas0 && ClaimantFailed(b, s, w)
    ensures !Intact(b, s, w)
  {
    var v :| 0 <= v < |b.jobs| && b.jobs[v].content == b.jobs[w].content && (s.pc[v] == Failed(true) || s.pc[v].Torn?);
    assert Name(b, v) == Name(b, w);
    if s.pc[v] == Failed(true) {
      assert OwesLink(b, s, v);
    }
  }

  lemma {:induction false} HalfCopiedFailed(b: Batch, s: State, w: nat)
    requires WellFormed(b, s) && Injective(b) && Finished(s) && w < |b.jobs| && HalfCopied(b, s, Name(b, w))
    ensures ClaimantFailed(b, s, w)
  {
    var u :| 0 <= u < |b.jobs| && Name(b, u) == Name(b, w) && HalfWay(s.pc[u]);
    SameHash(b, b.jobs[u].content, b.jobs[w].content);
    assert s.pc[u].Torn?;
  }

  lemma {:induction false} ClaimedIsIntact(b: Batch, s: State, w: nat)
    requires AllDedup(b) && DedupInv(b, s) && Inv(b, s) && Injective(b) && Finished(s)
    requires w < |b.jobs| && s.pc[w].Done? && !ClaimantFailed(b, s, w)
    ensures Intact(b, s, w)
  {
    var d := DigestOf(b, w);
    assert ClaimOk(b, s, d);
    var v :| 0 <= v < |b.jobs| && b.hash(b.jobs[v].content) == d && (Name(b, v) in s.cas || OwesLink(b, s, v));
    SameHash(b, b.jobs[v].content, b.jobs[w].content);
    assert s.pc[v] != Failed(true);
    if HalfCopied(b, s, Name(b, w)) {
      HalfCopiedFailed(b, s, w);
    }
    SameHash(b, s.cas[Name(b, w)], b.jobs[w].content);
  }

  predicate SymlinkOk(b: Batch, s: State, w: nat)
    requires WellFormed(b, s) && w < |b.jobs|
  {
    && (s.pc[w].Done? ==> w in s.sources && s.sources[w] == Symlink(Name(b, w)))
    && !s.pc[w].ToRename? && !s.pc[w].Renaming? && !s.pc[w].Dup?
  }

  lemma {:induction false} SymlinkStep(b: Batch, s: State, w: nat, o: Outcome)
    requires WellFormed(b, s) && w < |b.jobs| && Replaces(b.jobs[w].mode) && SymlinkOk(b, s, w)
    ensures SymlinkOk(b, Step(b, s, w, o), w)
  {
    match s.pc[w] case Start => case Hashed => case ToLink => case Linking => case Copying => case Linked(_) =>
    case Removed(_) => case Done(_) => case Failed(_) => case Torn =>
  }

  /** A finished tier-1 worker has replaced its file by a symlink to the blob's name. */
  lemma {:induction false} DoneIsSymlink(b: Batch, sched: Schedule, w: nat)
    requires IsSchedule(b, sched) && w < |b.jobs| && Replaces(b.jobs[w].mode)
    ensures SymlinkOk(b, Run(b, sched), w)
    decreases |sched|
  {
    if sched != [] {
      var k := |sched| - 1;
      DoneIsSymlink(b, sched[..k], w);
      if sched[k].0 == w {
        SymlinkStep(b, Run(b, sched[..k]), w, sched[k].1);
      } else {
        StepFrame(b, Run(b, sched[..k]), sched[k].0, sched[k].1);
      }
    }
  }

  // ---------------------------------------------------------------- a dangling symlink

  /** Two equal files: the first worker claims the hash, the second sees it claimed and replaces its
      file by a symlink, then the first worker's link fails. The second worker has reported success,
      and its symlink points to a blob that does not exist. */
  lemma {:induction false} LinkFailureDangles(hash: Content -> Digest, c: Content) returns (b: Batch, sched: Schedule)
    ensures b == Batch(hash, [Job(Tier1Dedup, c), Job(Tier1Dedup, c)], map[]) && IsSchedule(b, sched)
    ensures var s := Run(b, sched);
            && Finished(s) && s.pc[1] == Done(false)
            && 1 in s.sources && s.sources[1] == Symlink(Name(b, 1)) && Name(b, 1) !in s.cas
  {
    b := Batch(hash, [Job(Tier1Dedup, c), Job(Tier1Dedup, c)], map[]);
    sched := [];
    RunSnoc(b, sched, 0, Success);
    sched := sched + [(0, Success)];
    RunSnoc(b, sched, 0, Success);
    sched := sched + [(0, Success)];
    assert Run(b, sched).pc == [ToLink, Start];
    RunSnoc(b, sched, 1, Success);
    sched := sched + [(1, Success)];
    RunSnoc(b, sched, 1, Success);
    sched := sched + [(1, Success)];
    assert Run(b, sched).pc == [ToLink, Linked(false)];
    RunSnoc(b, sched, 1, Success);
    sched := sched + [(1, Success)];
    RunSnoc(b, sched, 1, Success);
    sched := sched + [(1, Success)];
    assert Run(b, sched).pc == [ToLink, Done(false)];
    RunSnoc(b, sched, 0, Failure);
    sched := sched + [(0, Failure)];
  }

  // ---------------------------------------------------------------- what was_new counts

  predicate IsNew(pc: Pc) {
    pc == Linked(true) || pc == Removed(true) || pc == Done(true)
  }

  predicate Claimant(b: Batch, s: State, w: nat)
    requires WellFormed(b, s) && w < |b.jobs|
  {
    Pending(b, s, w) || IsNew(s.pc[w])
  }

  /** The worker has put its blob, or begun to. */
  predicate Adds(pc: Pc) {
    IsNew(pc) || pc.Copying?
  }

  ghost predicate OneClaimant(b: Batch, s: State)
    requires WellFormed(b, s)
  {
    forall u, v :: 0 <= u < v < |b.jobs| && Claimant(b, s, u) && Claimant(b, s, v) ==> DigestOf(b, u) != DigestOf(b, v)
  }

  ghost predicate NewOk(b: Batch, s: State, w: nat)
    requires WellFormed(b, s) && w < |b.jobs|
  {
    Adds(s.pc[w]) ==> Name(b, w) in s.cas && (b.jobs[w].mode.Tier2Dedup? ==> Name(b, w) !in b.cas0)
  }

  ghost predicate AddedByNew(b: Batch, s: State, n: BlobName)
    requires WellFormed(b, s)
  {
    exists w :: 0 <= w < |b.jobs| && Adds(s.pc[w]) && Name(b, w) == n
  }

  ghost predicate ClaimedByTier1(b: Batch, s: State, d: Digest)
    requires WellFormed(b, s)
  {
    exists w :: 0 <= w < |b.jobs| && Claimant(b, s, w) && DigestOf(b, w) == d
  }

  ghost predicate CountInv(b: Batch, s: State)
    requires WellFormed(b, s)
  {
    && OneClaimant(b, s) && b.cas0.Keys <= s.cas.Keys
    && (forall w :: 0 <= w < |b.jobs| ==> NewOk(b, s, w))
    && (forall n :: n in s.cas && n !in b.cas0 ==> AddedByNew(b, s, n))
  }

  ghost predicate Tier1Claims(b: Batch, s: State)
    requires WellFormed(b, s)
  {
    forall d :: d in s.seen ==> ClaimedByTier1(b, s, d)
  }

  ghost predicate AllTier1(b: Batch) {
    forall w :: 0 <= w < |b.jobs| ==> b.jobs[w].mode.Tier1Dedup?
  }

  ghost predicate AllTier2(b: Batch) {
    forall w :: 0 <= w < |b.jobs| ==> b.jobs[w].mode.Tier2Dedup?
  }

  /** No worker has failed. */
  predicate NoneFailed(s: State) {
    forall w :: 0 <= w < |s.pc| ==> !s.pc[w].Failed? && !s.pc[w].Torn?
  }

  lemma {:induction false} FailedStays(b: Batch, s: State, w: nat, o: Outcome)
    requires WellFormed(b, s) && w < |b.jobs| && NoneFailed(Step(b, s, w, o))
    ensures NoneFailed(s)
  {
    StepFrame(b, s, w, o);
    var s' := Step(b, s, w, o);
    forall v | 0 <= v < |s.pc|
      ensures !s.pc[v].Failed? && !s.pc[v].Torn?
    {
      assert !s'.pc[v].Failed? && !s'.pc[v].Torn?;
    }
  }

  /** What a step that does not fail does to the flags of the worker that takes it. */
  lemma {:induction false} CountLocal(b: Batch, s: State, w: nat, o: Outcome)
    requires WellFormed(b, s) && w < |b.jobs| && IsDedup(b.jobs[w].mode)
    requires !s.pc[w].ToRename? && !s.pc[w].Renaming? && !s.pc[w].Dup?
    requires var pc := Step(b, s, w, o).pc[w]; !pc.Failed? && !pc.Torn?
    requires NewOk(b, s, w) && b.cas0.Keys <= s.cas.Keys && (s.pc[w].Linking? ==> Name(b, w) !in s.cas)
    ensures var s' := Step(b, s, w, o);
            && NewOk(b, s', w)
            && (Adds(s.pc[w]) ==> Adds(s'.pc[w]))
            && (s'.cas != s.cas ==> Adds(s'.pc[w]))
  {
    match s.pc[w] case Start => case Hashed => case ToLink => case Linking => case Copying => case Linked(_) =>
    case Removed(_) => case Done(_) =>
  }

  /** And to its claim. */
  lemma {:induction false} ClaimLocal(b: Batch, s: State, w: nat, o: Outcome)
    requires WellFormed(b, s) && w < |b.jobs| && IsDedup(b.jobs[w].mode)
    requires !s.pc[w].ToRename? && !s.pc[w].Renaming? && !s.pc[w].Dup?
    requires var pc := Step(b, s, w, o).pc[w]; !pc.Failed? && !pc.Torn?
    ensures var s' := Step(b, s, w, o);
            && (Claimant(b, s', w) && !Claimant(b, s, w) ==> DigestOf(b, w) !in s.seen)
            && (b.jobs[w].mode.Tier1Dedup? && Claimant(b, s, w) ==> Claimant(b, s', w))
            && (s'.seen != s.seen ==> Claimant(b, s', w))
  {
    match s.pc[w] case Start => case Hashed => case ToLink => case Linking => case Copying => case Linked(_) =>
    case Removed(_) => case Done(_) =>
  }

  lemma {:induction false} StepKeepsCount(b: Batch, s: State, w: nat, o: Outcome)
    requires AllDedup(b) && DedupInv(b, s) && CountInv(b, s) && w < |b.jobs| && NoneFailed(Step(b, s, w, o))
    ensures CountInv(b, Step(b, s, w, o))
  {
    var s' := Step(b, s, w, o);
    StepFrame(b, s, w, o);
    assert NewOk(b, s, w);
    CountLocal(b, s, w, o);
    ClaimLocal(b, s, w, o);
    KeepsOneClaimant(b, s, s', w);
    forall n | n in s'.cas && n !in b.cas0
      ensures AddedByNew(b, s', n)
    {
      if n in s.cas {
        var v :| 0 <= v < |b.jobs| && Adds(s.pc[v]) && Name(b, v) == n;
        assert Adds(s'.pc[v]);
      } else {
        assert Adds(s'.pc[w]) && Name(b, w) == n;
      }
    }
  }

  lemma {:induction false} KeepsOneClaimant(b: Batch, s: State, s': State, w: nat)
    requires AllDedup(b) && DedupInv(b, s) && CountInv(b, s) && w < |b.jobs| && SameElsewhere(s, s', w)
    requires Grows(b, s, s', w) && NewOk(b, s', w)
    requires Claimant(b, s', w) && !Claimant(b, s, w) ==> DigestOf(b, w) !in s.seen
    ensures OneClaimant(b, s') && forall v :: 0 <= v < |b.jobs| ==> NewOk(b, s', v)
  {
    forall u, v | 0 <= u < v < |b.jobs| && Claimant(b, s', u) && Claimant(b, s', v)
      ensures DigestOf(b, u) != DigestOf(b, v)
    {
      assert u != w ==> Claimant(b, s, u) && HasClaimed(s.pc[u]);
      assert v != w ==> Claimant(b, s, v) && HasClaimed(s.pc[v]);
      assert Claimant(b, s, w) ==> HasClaimed(s.pc[w]);
    }
    forall v | 0 <= v < |b.jobs|
      ensures NewOk(b, s', v)
    {
      assert NewOk(b, s, v);
    }
  }

  lemma {:induction false} StepKeepsTier1Claims(b: Batch, s: State, w: nat, o: Outcome)
    requires AllTier1(b) && DedupInv(b, s) && CountInv(b, s) && Tier1Claims(b, s) && w < |b.jobs|
    requires NoneFailed(Step(b, s, w, o))
    ensures Tier1Claims(b, Step(b, s, w, o))
  {
    var s' := Step(b, s, w, o);
    StepFrame(b, s, w, o);
    assert NewOk(b, s, w);
    ClaimLocal(b, s, w, o);
    forall d | d in s'.seen
      ensures ClaimedByTier1(b, s', d)
    {
      if d in s.seen {
        var v :| 0 <= v < |b.jobs| && Claimant(b, s, v) && DigestOf(b, v) == d;
        assert Claimant(b, s', v);
      }
    }
  }

  lemma {:induction false} RunKeepsCount(b: Batch, sched: Schedule)
    requires AllDedup(b) && IsSchedule(b, sched) && NoneFailed(Run(b, sched))
    ensures CountInv(b, Run(b, sched)) && (AllTier1(b) ==> Tier1Claims(b, Run(b, sched)))
    decreases |sched|
  {
    if sched != [] {
      var k := |sched| - 1;
      var s := Run(b, sched[..k]);
      FailedStays(b, s, sched[k].0, sched[k].1);
      RunKeepsCount(b, sched[..k]);
      RunKeepsDedup(b, sched[..k]);
      StepKeepsCount(b, s, sched[k].0, sched[k].1);
      if AllTier1(b) {
        StepKeepsTier1Claims(b, s, sched[k].0, sched[k].1);
      }
    }
  }

  /** The workers that reported `was_new`. */
  function NewWorkers(b: Batch, s: State): set<nat>
    requires WellFormed(b, s)
  {
    set w | 0 <= w < |b.jobs| && s.pc[w] == Done(true)
  }

  function AddedBlobs(b: Batch, s: State): set<BlobName> {
    s.cas.Keys - b.cas0.Keys
  }

  function NamesOf(b: Batch, ws: set<nat>): set<BlobName>
    requires forall w :: w in ws ==> w < |b.jobs|
  {
    set w | w in ws :: Name(b, w)
  }

  lemma {:induction false} NamesSize(b: Batch, ws: set<nat>)
    requires forall w :: w in ws ==> w < |b.jobs|
    requires forall u, v :: u in ws && v in ws && u != v ==> Name(b, u) != Name(b, v)
    ensures |NamesOf(b, ws)| == |ws|
    decreases |ws|
  {
    if ws != {} {
      var w :| w in ws;
      NamesSize(b, ws - {w});
      assert NamesOf(b, ws) == NamesOf(b, ws - {w}) + {Name(b, w)};
    }
  }

  lemma {:induction false} NewNamesSize(b: Batch, s: State)
    requires WellFormed(b, s) && OneClaimant(b, s)
    ensures |NamesOf(b, NewWorkers(b, s))| == |NewWorkers(b, s)|
  {
    var ws := NewWorkers(b, s);
    forall u, v | u in ws && v in ws && u != v
      ensures Name(b, u) != Name(b, v)
    {
      assert Claimant(b, s, u) && Claimant(b, s, v);
    }
    NamesSize(b, ws);
  }

  lemma {:induction false} AddedAreNew(b: Batch, s: State)
    requires WellFormed(b, s) && CountInv(b, s) && Finished(s)
    ensures AddedBlobs(b, s) == NamesOf(b, NewWorkers(b, s)) - b.cas0.Keys
  {
    var ws := NewWorkers(b, s);
    forall n | n in AddedBlobs(b, s)
      ensures n in NamesOf(b, ws)
    {
      assert AddedByNew(b, s, n);
      var w :| 0 <= w < |b.jobs| && Adds(s.pc[w]) && Name(b, w) == n;
      assert w in ws;
    }
    forall w | w in ws
      ensures Name(b, w) in s.cas
    {
      assert NewOk(b, s, w);
    }
  }

  /** A tier-2 batch in which no worker fails ends with every content in the store, and with exactly as
      many `was_new` results as blobs added. */
  lemma {:induction false} Tier2CountsBlobs(b: Batch, sched: Schedule)
    requires AllTier2(b) && IsSchedule(b, sched) && NoneFailed(Run(b, sched))
    requires Addressed(b, b.cas0) && Injective(b) && Finished(Run(b, sched))
    ensures var s := Run(b, sched);
            && (forall w :: 0 <= w < |b.jobs| ==> s.pc[w].Done? && Intact(b, s, w))
            && |NewWorkers(b, s)| == |AddedBlobs(b, s)|
  {
    var s := Run(b, sched);
    RunKeepsCount(b, sched);
    forall w | 0 <= w < |b.jobs|
      ensures s.pc[w].Done? && Intact(b, s, w)
    {
      assert !s.pc[w].Failed? && !s.pc[w].Torn?;
      ResultIsBackedExactly(b, sched, w);
    }
    NewNamesSize(b, s);
    AddedAreNew(b, s);
    assert NamesOf(b, NewWorkers(b, s)) !! b.cas0.Keys by {
      forall w | w in NewWorkers(b, s)
        ensures Name(b, w) !in b.cas0
      {
        assert NewOk(b, s, w);
      }
    }
  }

  /** A tier-1 batch flags the claim, not the link: it reports as many new blobs as it added exactly
      when the store held none of the contents before. */
  lemma {:induction false} Tier1CountsBlobsExactly(b: Batch, sched: Schedule)
    requires AllTier1(b) && IsSchedule(b, sched) && NoneFailed(Run(b, sched))
    requires Injective(b) && Finished(Run(b, sched))
    ensures var s := Run(b, sched);
            |NewWorkers(b, s)| == |AddedBlobs(b, s)|
            <==> forall w :: 0 <= w < |b.jobs| ==> Name(b, w) !in b.cas0
  {
    var s := Run(b, sched);
    RunKeepsCount(b, sched);
    RunKeepsDedup(b, sched);
    NewNamesSize(b, s);
    AddedAreNew(b, s);
    var names := NamesOf(b, NewWorkers(b, s));
    assert |names| == |AddedBlobs(b, s)| + |names * b.cas0.Keys|;
    forall w | 0 <= w < |b.jobs|
      ensures Name(b, w) in names
    {
      EveryNameIsNew(b, s, w);
    }
    if w :| 0 <= w < |b.jobs| && Name(b, w) in b.cas0 {
      assert Name(b, w) in names * b.cas0.Keys;
    }
  }

  lemma {:induction false} EveryNameIsNew(b: Batch, s: State, w: nat)
    requires WellFormed(b, s) && DedupInv(b, s) && CountInv(b, s) && Tier1Claims(b, s)
    requires Injective(b) && Finished(s) && NoneFailed(s) && w < |b.jobs|
    ensures Name(b, w) in NamesOf(b, NewWorkers(b, s))
  {
    assert NewOk(b, s, w) && s.pc[w].Done?;
    assert ClaimedByTier1(b, s, DigestOf(b, w));
    var v :| 0 <= v < |b.jobs| && Claimant(b, s, v) && DigestOf(b, v) == DigestOf(b, w);
    assert b.hash(b.jobs[v].content) == b.hash(b.jobs[w].content);
    assert NewOk(b, s, v) && v in NewWorkers(b, s) && Name(b, v) == Name(b, w);
  }
}
