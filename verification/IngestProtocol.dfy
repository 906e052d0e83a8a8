/** Concurrent zero-copy ingest (crates/vrift-cas/src/zero_copy_ingest.rs, the five ingest
    functions; crates/vrift-cas/src/parallel_ingest.rs, the batch over a shared seen set).

    One worker per source file. A worker moves by atomic steps, each a file-system call or an
    insertion into the shared set, and each call may succeed or fail. A schedule picks the worker
    and the outcome of every step, so the schedules are exactly the interleavings. */
module IngestProtocol {
  import opened Bytes

  type Content = Bytes
  type Digest = Bytes

  /** The five ingest functions, `*_dedup` being the ones a parallel batch calls. */
  datatype Mode = Tier1 | Tier1Dedup | Tier2 | Tier2Dedup | Phantom

  datatype Job = Job(mode: Mode, content: Content)

  /** `blake3/ab/cd/HASH_SIZE.bin` */
  datatype BlobName = BlobName(hash: Digest, size: nat)

  type Cas = map<BlobName, Content>

  /** A batch: the hash function, the source files and the store before the batch. */
  datatype Batch = Batch(hash: Content -> Digest, jobs: seq<Job>, cas0: Cas)

  /** What a source path holds; a removed path is absent from the map. */
  datatype Node = File(content: Content) | Symlink(target: BlobName)

  /** Where a worker stands.
      Start: the file is not yet opened, locked and hashed.
      Hashed: the hash is known.
      ToLink: about to create the shard directory and test for the blob.
      Linking: the blob was absent; about to link it.
      Copying: the blob lies on another device and is being copied into place.
      Linked: the blob is taken care of; about to remove the source (tier 1) or to return (tier 2).
      Removed: the source is gone; about to put the symlink.
      ToRename, Renaming, Dup: the phantom worker's test, rename and clean-up.
      Failed(true): failed while it alone was to link a claimed hash.
      Torn: a copy failed and left something other than the content under the blob's name. */
  datatype Pc =
    | Start | Hashed | ToLink | Linking | Copying | Linked(wasNew: bool) | Removed(wasNew: bool)
    | ToRename | Renaming | Dup(wasNew: bool)
    | Done(wasNew: bool) | Failed(claim: bool) | Torn

  datatype State = State(sources: map<nat, Node>, seen: set<Digest>, cas: Cas, pc: seq<Pc>)

  /** Copies: a copy across devices has created, truncated or written the target, which now holds `data`. */
  datatype Outcome = Success | Failure | AlreadyExists | Denied | Copies(data: Content)

  function Name(b: Batch, w: nat): BlobName
    requires w < |b.jobs|
  {
    NameOf(b, b.jobs[w].content)
  }

  function NameOf(b: Batch, c: Content): BlobName {
    BlobName(b.hash(c), |c|)
  }

  function Init(b: Batch): State {
    State(map w | 0 <= w < |b.jobs| :: File(b.jobs[w].content), {}, b.cas0, seq(|b.jobs|, w => Start))
  }

  predicate IsDedup(m: Mode) {
    m.Tier1Dedup? || m.Tier2Dedup?
  }

  predicate Replaces(m: Mode) {
    m.Tier1? || m.Tier1Dedup?
  }

  predicate WellFormed(b: Batch, s: State) {
    |s.pc| == |b.jobs|
  }

  function Goto(s: State, w: nat, pc: Pc): State
    requires w < |s.pc|
  {
    s.(pc := s.pc[w := pc])
  }

  predicate CopyWrites(job: Job, o: Outcome) {
    o.Copies? && |o.data| <= |job.content|
  }

  /** The worker is in the middle of a copy, or was when it failed. */
  predicate HalfWay(pc: Pc) {
    pc.Copying? || pc.Torn?
  }

  /** The worker's next step may change its blob. */
  predicate Writes(pc: Pc) {
    pc.Linking? || pc.Copying? || pc.Renaming?
  }

  /** No other worker has written to the same target without finishing: a finished copy may otherwise
      have lost what the other one truncated. */
  predicate AloneCopying(b: Batch, s: State, w: nat)
    requires WellFormed(b, s) && w < |b.jobs|
  {
    forall v :: 0 <= v < |b.jobs| && v != w && Name(b, v) == Name(b, w) ==> !HalfWay(s.pc[v])
  }

  function CopyStep(b: Batch, s: State, w: nat, o: Outcome): (s': State)
    requires WellFormed(b, s) && w < |b.jobs|
    ensures WellFormed(b, s')
  {
    var job := b.jobs[w];
    var name := Name(b, w);
    if o.Success? then
      Goto(if AloneCopying(b, s, w) then s.(cas := s.cas[name := job.content]) else s, w, Linked(true))
    else if CopyWrites(job, o) then s.(cas := s.cas[name := o.data])
    else Goto(s, w, if name in s.cas && s.cas[name] == job.content then Failed(false) else Torn)
  }

  /** One step of worker `w`. */
  function Step(b: Batch, s: State, w: nat, o: Outcome): (s': State)
    requires WellFormed(b, s) && w < |b.jobs|
    ensures WellFormed(b, s')
  {
    var job := b.jobs[w];
    var name := Name(b, w);
    match s.pc[w]
    case Start => if o.Success? then Goto(s, w, Hashed) else Goto(s, w, Failed(false))
    case Hashed =>
      if job.mode.Phantom? then Goto(s, w, ToRename)
      else if !IsDedup(job.mode) then Goto(s, w, ToLink)
      else if name.hash !in s.seen then Goto(s.(seen := s.seen + {name.hash}), w, ToLink)
      else Goto(s, w, if job.mode.Tier1Dedup? then Linked(false) else Done(false))
    case ToLink =>
      if !o.Success? then Goto(s, w, Failed(IsDedup(job.mode)))
      else if name in s.cas then Goto(s, w, Linked(job.mode.Tier1Dedup?))
      else Goto(s, w, Linking)
    case Linking =>
      if o.Success? then Goto(if name in s.cas then s else s.(cas := s.cas[name := job.content]), w, Linked(true))
      else if CopyWrites(job, o) then Goto(s.(cas := s.cas[name := o.data]), w, Copying)
      else Goto(s, w, Failed(IsDedup(job.mode)))
    case Copying => CopyStep(b, s, w, o)
    case Linked(n) =>
      if !Replaces(job.mode) then Goto(s, w, Done(n))
      else if o.Success? then Goto(s.(sources := s.sources - {w}), w, Removed(n))
      else Goto(s, w, Failed(false))
    case Removed(n) =>
      if o.Success? then Goto(s.(sources := s.sources[w := Symlink(name)]), w, Done(n))
      else Goto(s, w, Failed(false))
    case ToRename =>
      if !o.Success? then Goto(s, w, Failed(false))
      else if name in s.cas then Goto(s, w, Dup(false))
      else Goto(s, w, Renaming)
    case Renaming =>
      if o.Success? then
        Goto(s.(cas := s.cas[name := job.content], sources := s.sources - {w}), w, Done(true))
      else if o.AlreadyExists? && name in s.cas then Goto(s, w, Dup(true))
      else if o.Denied? && name in s.cas then Goto(s, w, Dup(false))
      else Goto(s, w, Failed(false))
    case Dup(n) => Goto(if o.Success? then s.(sources := s.sources - {w}) else s, w, Done(n))
    case Done(_) => s
    case Failed(_) => s
    case Torn => s
  }

  type Schedule = seq<(nat, Outcome)>

  predicate IsSchedule(b: Batch, sched: Schedule) {
    forall k :: 0 <= k < |sched| ==> sched[k].0 < |b.jobs|
  }

  /** The state after a schedule. */
  function Run(b: Batch, sched: Schedule): (s: State)
    requires IsSchedule(b, sched)
    ensures WellFormed(b, s)
  {
    if sched == [] then Init(b)
    else
      var last := sched[|sched| - 1];
      Step(b, Run(b, sched[..|sched| - 1]), last.0, last.1)
  }

  predicate Finished(s: State) {
    forall w :: 0 <= w < |s.pc| ==> s.pc[w].Done? || s.pc[w].Failed? || s.pc[w].Torn?
  }

  // ---------------------------------------------------------------- assumptions

  ghost predicate Injective(b: Batch) {
    forall x, y :: b.hash(x) == b.hash(y) ==> x == y
  }

  /** Every blob's content hashes to the hash in its name. */
  ghost predicate Addressed(b: Batch, cas: Cas) {
    forall n :: n in cas ==> NameOf(b, cas[n]) == n
  }

  /** Some worker has begun to copy the blob and not finished. */
  ghost predicate HalfCopied(b: Batch, s: State, n: BlobName)
    requires WellFormed(b, s)
  {
    exists w :: 0 <= w < |b.jobs| && Name(b, w) == n && HalfWay(s.pc[w])
  }

  /** Every blob's content hashes to the hash in its name, or its copy is not finished. */
  ghost predicate AddressedOrHalf(b: Batch, s: State)
    requires WellFormed(b, s)
  {
    forall n :: n in s.cas ==> NameOf(b, s.cas[n]) == n || HalfCopied(b, s, n)
  }

  // ---------------------------------------------------------------- content preservation

  /** The content lives in its blob or in a source file still present. */
  ghost predicate Kept(b: Batch, s: State, c: Content) {
    || (NameOf(b, c) in s.cas && s.cas[NameOf(b, c)] == c)
    || exists w :: w in s.sources && s.sources[w] == File(c)
  }

  /** Worker `w` has not touched its source yet. */
  predicate Untouched(pc: Pc) {
    !pc.Removed? && !pc.Done? && (pc.Failed? ==> pc.claim)
  }

  /** Worker `w` claimed its hash and has not linked it. */
  predicate OwesLink(b: Batch, s: State, w: nat)
    requires WellFormed(b, s) && w < |b.jobs|
  {
    IsDedup(b.jobs[w].mode) && (s.pc[w].ToLink? || s.pc[w].Linking? || s.pc[w] == Failed(true))
  }

  ghost predicate SourcesOk(b: Batch, s: State)
    requires WellFormed(b, s)
  {
    forall w :: 0 <= w < |b.jobs| && Untouched(s.pc[w]) ==> w in s.sources && s.sources[w] == File(b.jobs[w].content)
  }

  /** The hash is linked, or some worker that still has its source owes the link. */
  ghost predicate ClaimOk(b: Batch, s: State, d: Digest)
    requires WellFormed(b, s)
  {
    exists w :: 0 <= w < |b.jobs| && b.hash(b.jobs[w].content) == d && (Name(b, w) in s.cas || OwesLink(b, s, w))
  }

  ghost predicate ClaimsOk(b: Batch, s: State)
    requires WellFormed(b, s)
  {
    forall d :: d in s.seen ==> ClaimOk(b, s, d)
  }

  /** Past its link step, a worker's content is in the store, or its hash was claimed by another. */
  ghost predicate Backed(b: Batch, s: State, w: nat)
    requires WellFormed(b, s) && w < |b.jobs|
  {
    Name(b, w) in s.cas || (IsDedup(b.jobs[w].mode) && b.hash(b.jobs[w].content) in s.seen)
  }

  ghost predicate AllBacked(b: Batch, s: State)
    requires WellFormed(b, s)
  {
    forall w :: 0 <= w < |b.jobs| ==>
      Backed(b, s, w) || (w in s.sources && s.sources[w] == File(b.jobs[w].content))
  }

  ghost predicate PcOkAt(b: Batch, s: State, w: nat)
    requires WellFormed(b, s) && w < |b.jobs|
  {
    PastLinkOk(b, s, w) && WritesOk(b, s, w)
  }

  ghost predicate PastLinkOk(b: Batch, s: State, w: nat)
    requires WellFormed(b, s) && w < |b.jobs|
  {
    && (s.pc[w].Linked? || s.pc[w].Removed? || s.pc[w].Dup? || s.pc[w].Done? ==> Backed(b, s, w))
    && (s.pc[w].Dup? ==> Name(b, w) in s.cas)
    && (s.pc[w].ToRename? || s.pc[w].Renaming? || s.pc[w].Dup? ==> b.jobs[w].mode.Phantom?)
  }

  ghost predicate WritesOk(b: Batch, s: State, w: nat)
    requires WellFormed(b, s) && w < |b.jobs|
  {
    && (Writes(s.pc[w]) || s.pc[w].Torn? ==> Name(b, w) !in b.cas0)
    && (HalfWay(s.pc[w]) ==> Name(b, w) in s.cas)
  }

  ghost predicate PcOk(b: Batch, s: State)
    requires WellFormed(b, s)
  {
    forall w :: 0 <= w < |b.jobs| ==> PcOkAt(b, s, w)
  }

  /** None of the blobs from before the batch is lost or changed. */
  ghost predicate Original(b: Batch, cas: Cas) {
    forall n :: n in b.cas0 ==> n in cas && cas[n] == b.cas0[n]
  }

  ghost predicate Inv(b: Batch, s: State) {
    && WellFormed(b, s) && AddressedOrHalf(b, s) && Original(b, s.cas)
    && SourcesOk(b, s) && ClaimsOk(b, s) && AllBacked(b, s) && PcOk(b, s)
  }

  lemma {:induction false} InitInv(b: Batch)
    requires Addressed(b, b.cas0)
    ensures Inv(b, Init(b))
  {
  }

  // What a step leaves alone.

  ghost predicate SameElsewhere(s: State, s': State, w: nat) {
    && |s'.pc| == |s.pc|
    && (forall v :: 0 <= v < |s.pc| && v != w ==> s'.pc[v] == s.pc[v])
    && (forall v :: v != w ==> (v in s'.sources <==> v in s.sources))
    && (forall v :: v != w && v in s.sources ==> s'.sources[v] == s.sources[v])
  }

  ghost predicate Grows(b: Batch, s: State, s': State, w: nat)
    requires w < |b.jobs|
  {
    && (s'.cas == s.cas || (s'.cas.Keys == s.cas.Keys + {Name(b, w)}
                            && (forall n :: n in s.cas && n != Name(b, w) ==> s'.cas[n] == s.cas[n])))
    && (s'.seen == s.seen || s'.seen == s.seen + {Name(b, w).hash})
  }

  lemma {:induction false} StepFrame(b: Batch, s: State, w: nat, o: Outcome)
    requires WellFormed(b, s) && w < |b.jobs|
    ensures SameElsewhere(s, Step(b, s, w, o), w) && Grows(b, s, Step(b, s, w, o), w)
    ensures Step(b, s, w, o).cas != s.cas ==> Writes(s.pc[w])
  {
    StepElsewhere(b, s, w, o);
    StepGrows(b, s, w, o);
  }

  lemma {:induction false} StepElsewhere(b: Batch, s: State, w: nat, o: Outcome)
    requires WellFormed(b, s) && w < |b.jobs|
    ensures SameElsewhere(s, Step(b, s, w, o), w)
  {
    match s.pc[w] case Start => case Hashed => case ToLink => case Linking => case Copying => case Linked(_) =>
    case Removed(_) => case ToRename => case Renaming => case Dup(_) => case Done(_) => case Failed(_) => case Torn =>
  }

  lemma {:induction false} StepGrows(b: Batch, s: State, w: nat, o: Outcome)
    requires WellFormed(b, s) && w < |b.jobs|
    ensures Grows(b, s, Step(b, s, w, o), w) && (Step(b, s, w, o).cas != s.cas ==> Writes(s.pc[w]))
  {
    match s.pc[w] case Start => case Hashed => case ToLink => case Linking => case Copying => case Linked(_) =>
    case Removed(_) => case ToRename => case Renaming => case Dup(_) => case Done(_) => case Failed(_) => case Torn =>
  }

  /** What a step does to the source of the worker that takes it. */
  lemma {:induction false} StepSource(b: Batch, s: State, w: nat, o: Outcome)
    requires WellFormed(b, s) && w < |b.jobs| && PcOkAt(b, s, w)
    ensures var s' := Step(b, s, w, o);
            && (Untouched(s'.pc[w]) ==> Untouched(s.pc[w]))
            && (Untouched(s'.pc[w]) && w in s.sources ==> w in s'.sources && s'.sources[w] == s.sources[w])
            && (w in s.sources && s.sources[w].File? ==>
                  Backed(b, s', w) || (w in s'.sources && s'.sources[w] == s.sources[w]))
  {
    match s.pc[w] case Start => case Hashed => case ToLink => case Linking => case Copying => case Linked(_) =>
    case Removed(_) => case ToRename => case Renaming => case Dup(_) => case Done(_) => case Failed(_) => case Torn =>
  }

  /** And to what it has claimed. */
  lemma {:induction false} StepClaim(b: Batch, s: State, w: nat, o: Outcome)
    requires WellFormed(b, s) && w < |b.jobs|
    ensures var s' := Step(b, s, w, o);
            && (OwesLink(b, s, w) ==> OwesLink(b, s', w) || Name(b, w) in s'.cas)
            && (Name(b, w).hash in s'.seen && Name(b, w).hash !in s.seen ==> OwesLink(b, s', w))
  {
    match s.pc[w] case Start => case Hashed => case ToLink => case Linking => case Copying => case Linked(_) =>
    case Removed(_) => case ToRename => case Renaming => case Dup(_) => case Done(_) => case Failed(_) => case Torn =>
  }

  lemma {:induction false} StepPastLink(b: Batch, s: State, w: nat, o: Outcome)
    requires WellFormed(b, s) && w < |b.jobs| && PcOkAt(b, s, w)
    ensures PastLinkOk(b, Step(b, s, w, o), w)
  {
    match s.pc[w] case Start => case Hashed => case ToLink => case Linking => case Copying => case Linked(_) =>
    case Removed(_) => case ToRename => case Renaming => case Dup(_) => case Done(_) => case Failed(_) => case Torn =>
  }

  lemma {:induction false} StepWrites(b: Batch, s: State, w: nat, o: Outcome)
    requires WellFormed(b, s) && w < |b.jobs| && WritesOk(b, s, w) && Original(b, s.cas)
    ensures WritesOk(b, Step(b, s, w, o), w)
  {
    match s.pc[w] case Start => case Hashed => case ToLink => case Linking => case Copying => case Linked(_) =>
    case Removed(_) => case ToRename => case Renaming => case Dup(_) => case Done(_) => case Failed(_) => case Torn =>
  }

  lemma {:induction false} StepKeepsClaims(b: Batch, s: State, w: nat, o: Outcome)
    requires Inv(b, s) && w < |b.jobs|
    ensures ClaimsOk(b, Step(b, s, w, o))
  {
    var s' := Step(b, s, w, o);
    StepFrame(b, s, w, o);
    StepClaim(b, s, w, o);
    forall d | d in s'.seen
      ensures ClaimOk(b, s', d)
    {
      if d in s.seen {
        var v :| 0 <= v < |b.jobs| && b.hash(b.jobs[v].content) == d && (Name(b, v) in s.cas || OwesLink(b, s, v));
        assert Name(b, v) in s'.cas || OwesLink(b, s', v);
      } else {
        assert OwesLink(b, s', w);
      }
    }
  }

  /** A step leaves its own blob addressed, or its copy not finished. */
  lemma {:induction false} StepOwnBlob(b: Batch, s: State, w: nat, o: Outcome)
    requires WellFormed(b, s) && w < |b.jobs| && AddressedOrHalf(b, s)
    ensures var s', n := Step(b, s, w, o), Name(b, w); n in s'.cas ==> NameOf(b, s'.cas[n]) == n || HalfCopied(b, s', n)
  {
    var s', n := Step(b, s, w, o), Name(b, w);
    StepFrame(b, s, w, o);
    if HalfWay(s'.pc[w]) {
      assert HalfCopied(b, s', n);
    } else if v :| 0 <= v < |b.jobs| && v != w && Name(b, v) == n && HalfWay(s.pc[v]) {
      assert HalfWay(s'.pc[v]);
    } else {
      OwnBlobAlone(b, s, w, o);
    }
  }

  lemma {:induction false} OwnBlobAlone(b: Batch, s: State, w: nat, o: Outcome)
    requires WellFormed(b, s) && w < |b.jobs| && AddressedOrHalf(b, s) && AloneCopying(b, s, w)
    requires !HalfWay(Step(b, s, w, o).pc[w])
    ensures var s', n := Step(b, s, w, o), Name(b, w); n in s'.cas ==> NameOf(b, s'.cas[n]) == n
  {
    assert HalfCopied(b, s, Name(b, w)) ==> HalfWay(s.pc[w]);
    match s.pc[w] case Start => case Hashed => case ToLink => case Linking => case Copying => case Linked(_) =>
    case Removed(_) => case ToRename => case Renaming => case Dup(_) => case Done(_) => case Failed(_) =>
  }

  lemma {:induction false} StepAddressed(b: Batch, s: State, w: nat, o: Outcome)
    requires Inv(b, s) && w < |b.jobs|
    ensures AddressedOrHalf(b, Step(b, s, w, o)) && Original(b, Step(b, s, w, o).cas)
  {
    var s' := Step(b, s, w, o);
    StepFrame(b, s, w, o);
    StepOwnBlob(b, s, w, o);
    assert PcOkAt(b, s, w);
    forall n | n in s'.cas && n != Name(b, w)
      ensures NameOf(b, s'.cas[n]) == n || HalfCopied(b, s', n)
    {
      if HalfCopied(b, s, n) {
        var v :| 0 <= v < |b.jobs| && Name(b, v) == n && HalfWay(s.pc[v]);
        assert HalfWay(s'.pc[v]);
      }
    }
  }

  lemma {:induction false} GrowthKeeps(b: Batch, s: State, s': State, w: nat)
    requires Inv(b, s) && w < |b.jobs| && SameElsewhere(s, s', w) && Grows(b, s, s', w)
    ensures WellFormed(b, s')
    ensures forall v :: 0 <= v < |b.jobs| && Backed(b, s, v) ==> Backed(b, s', v)
    ensures forall v :: 0 <= v < |b.jobs| && v != w ==> PcOkAt(b, s', v)
  {
    forall v | 0 <= v < |b.jobs| && v != w
      ensures PcOkAt(b, s', v)
    {
      assert PcOkAt(b, s, v) && s'.pc[v] == s.pc[v];
      assert Backed(b, s, v) ==> Backed(b, s', v);
    }
  }

  lemma {:induction false} StepKeepsInv(b: Batch, s: State, w: nat, o: Outcome)
    requires Inv(b, s) && w < |b.jobs|
    ensures Inv(b, Step(b, s, w, o))
  {
    var s' := Step(b, s, w, o);
    StepKeepsClaims(b, s, w, o);
    StepFrame(b, s, w, o);
    assert PcOkAt(b, s, w);
    StepSource(b, s, w, o);
    StepPastLink(b, s, w, o);
    StepWrites(b, s, w, o);
    StepAddressed(b, s, w, o);
    GrowthKeeps(b, s, s', w);
    SourcesKept(b, s, s', w);
  }

  lemma {:induction false} SourcesKept(b: Batch, s: State, s': State, w: nat)
    requires WellFormed(b, s) && SourcesOk(b, s) && AllBacked(b, s) && w < |b.jobs| && SameElsewhere(s, s', w)
    requires forall v :: 0 <= v < |b.jobs| && Backed(b, s, v) ==> Backed(b, s', v)
    requires Untouched(s'.pc[w]) ==> Untouched(s.pc[w])
    requires Untouched(s'.pc[w]) && w in s.sources ==> w in s'.sources && s'.sources[w] == s.sources[w]
    requires w in s.sources && s.sources[w].File? ==>
               Backed(b, s', w) || (w in s'.sources && s'.sources[w] == s.sources[w])
    ensures SourcesOk(b, s') && AllBacked(b, s')
  {
  }

  lemma {:induction false} RunKeepsInv(b: Batch, sched: Schedule)
    requires IsSchedule(b, sched) && Addressed(b, b.cas0)
    ensures Inv(b, Run(b, sched))
    decreases |sched|
  {
    if sched == [] {
      InitInv(b);
    } else {
      var n := |sched| - 1;
      RunKeepsInv(b, sched[..n]);
      StepKeepsInv(b, Run(b, sched[..n]), sched[n].0, sched[n].1);
    }
  }

  /** A blob under the content's name holds the content, or a worker that is copying it, or failed to,
      still has its source. */
  lemma {:induction false} NamedIsKept(b: Batch, s: State, w: nat)
    requires Inv(b, s) && Injective(b) && w < |b.jobs| && Name(b, w) in s.cas
    ensures Kept(b, s, b.jobs[w].content)
  {
    var n := Name(b, w);
    if HalfCopied(b, s, n) {
      var v :| 0 <= v < |b.jobs| && Name(b, v) == n && HalfWay(s.pc[v]);
      assert b.hash(b.jobs[v].content) == b.hash(b.jobs[w].content);
      assert Untouched(s.pc[v]) && s.sources[v] == File(b.jobs[w].content);
    } else {
      assert b.hash(s.cas[n]) == b.hash(b.jobs[w].content);
    }
  }

  lemma {:induction false} BackedIsKept(b: Batch, s: State, w: nat)
    requires Inv(b, s) && Injective(b) && w < |b.jobs| && Backed(b, s, w)
    ensures Kept(b, s, b.jobs[w].content)
  {
    if Name(b, w) in s.cas {
      NamedIsKept(b, s, w);
    } else {
      var d := b.hash(b.jobs[w].content);
      assert ClaimOk(b, s, d);
      var v :| 0 <= v < |b.jobs| && b.hash(b.jobs[v].content) == d && (Name(b, v) in s.cas || OwesLink(b, s, v));
      assert b.jobs[v].content == b.jobs[w].content;
      assert s.sources[v] == File(b.jobs[w].content);
    }
  }

  /** For every interleaving of any workers of any modes, and whatever calls fail, after every step
      the content of every source file is in a blob of the store or in a source file still
      present. */
  lemma {:induction false} ContentIsPreserved(b: Batch, sched: Schedule, w: nat)
    requires IsSchedule(b, sched) && Addressed(b, b.cas0) && Injective(b) && w < |b.jobs|
    ensures Kept(b, Run(b, sched), b.jobs[w].content)
  {
    RunKeepsInv(b, sched);
    var s := Run(b, sched);
    if Backed(b, s, w) {
      BackedIsKept(b, s, w);
    }
  }

  /** And every blob of the store is content-addressed unless a worker is still copying it or failed
      to; none of the original ones is lost or changed. */
  lemma {:induction false} StoreStaysAddressed(b: Batch, sched: Schedule, n: BlobName)
    requires IsSchedule(b, sched) && Addressed(b, b.cas0)
    ensures var s := Run(b, sched);
            && (n in s.cas && !HalfCopied(b, s, n) ==> NameOf(b, s.cas[n]) == n)
            && (n in b.cas0 ==> n in s.cas && s.cas[n] == b.cas0[n])
  {
    RunKeepsInv(b, sched);
  }

  // ---------------------------------------------------------------- exactly when the store can go wrong

  /** The worker has nothing to copy: it moves its file, its blob is there before the batch, or it is empty. */
  predicate NothingToCopy(b: Batch, job: Job) {
    job.mode.Phantom? || NameOf(b, job.content) in b.cas0 || job.content == []
  }

  ghost predicate AlwaysAddressed(b: Batch) {
    forall sched :: IsSchedule(b, sched) ==> Addressed(b, Run(b, sched).cas)
  }

  /** After every step of every schedule the whole store is content-addressed exactly when no worker has
      anything to copy across devices. */
  lemma {:induction false} AlwaysAddressedExactly(b: Batch)
    requires Addressed(b, b.cas0) && Injective(b)
    ensures AlwaysAddressed(b) <==> forall w :: 0 <= w < |b.jobs| ==> NothingToCopy(b, b.jobs[w])
  {
    if w :| 0 <= w < |b.jobs| && !NothingToCopy(b, b.jobs[w]) {
      var sched := CopyBegins(b, w);
      assert Name(b, w) in Run(b, sched).cas;
    } else {
      forall sched | IsSchedule(b, sched)
        ensures Addressed(b, Run(b, sched).cas)
      {
        NothingCopied(b, sched);
      }
    }
  }

  lemma {:induction false} NothingCopied(b: Batch, sched: Schedule)
    requires Addressed(b, b.cas0) && IsSchedule(b, sched)
    requires forall w :: 0 <= w < |b.jobs| ==> NothingToCopy(b, b.jobs[w])
    ensures Addressed(b, Run(b, sched).cas)
  {
    RunKeepsInv(b, sched);
    EmptyCopies(b, sched);
    var s := Run(b, sched);
    forall n | n in s.cas
      ensures NameOf(b, s.cas[n]) == n
    {
      if HalfCopied(b, s, n) {
        var w :| 0 <= w < |b.jobs| && Name(b, w) == n && HalfWay(s.pc[w]);
        assert PcOkAt(b, s, w);
      }
    }
  }

  /** Only empty files are copied, and their blobs are empty. */
  ghost predicate CopiesEmpty(b: Batch, s: State)
    requires WellFormed(b, s)
  {
    forall w :: 0 <= w < |b.jobs| ==>
      && (b.jobs[w].content == [] && Name(b, w) in s.cas && Name(b, w) !in b.cas0 ==> s.cas[Name(b, w)] == [])
      && (b.jobs[w].mode.Phantom? ==> !s.pc[w].ToLink? && !s.pc[w].Linking? && !HalfWay(s.pc[w]))
  }

  lemma {:induction false} EmptyCopies(b: Batch, sched: Schedule)
    requires Addressed(b, b.cas0) && IsSchedule(b, sched)
    requires forall w :: 0 <= w < |b.jobs| ==> NothingToCopy(b, b.jobs[w])
    ensures CopiesEmpty(b, Run(b, sched))
    decreases |sched|
  {
    if sched != [] {
      var k := |sched| - 1;
      EmptyCopies(b, sched[..k]);
      RunKeepsInv(b, sched[..k]);
      StepCopiesEmpty(b, Run(b, sched[..k]), sched[k].0, sched[k].1);
    }
  }

  lemma {:induction false} StepCopiesEmpty(b: Batch, s: State, w: nat, o: Outcome)
    requires Inv(b, s) && CopiesEmpty(b, s) && w < |b.jobs|
    ensures CopiesEmpty(b, Step(b, s, w, o))
  {
    var s' := Step(b, s, w, o);
    StepFrame(b, s, w, o);
    OwnCopyEmpty(b, s, w, o);
    forall v | 0 <= v < |b.jobs|
      ensures b.jobs[v].content == [] && Name(b, v) in s'.cas && Name(b, v) !in b.cas0 ==> s'.cas[Name(b, v)] == []
      ensures b.jobs[v].mode.Phantom? ==> !s'.pc[v].ToLink? && !s'.pc[v].Linking? && !HalfWay(s'.pc[v])
    {
      if v != w {
        assert s'.pc[v] == s.pc[v];
      }
    }
  }

  lemma {:induction false} OwnCopyEmpty(b: Batch, s: State, w: nat, o: Outcome)
    requires WellFormed(b, s) && w < |b.jobs|
    ensures var s' := Step(b, s, w, o);
            && (b.jobs[w].content == [] && s'.cas != s.cas ==> s'.cas[Name(b, w)] == [])
            && (b.jobs[w].mode.Phantom? && !s.pc[w].ToLink? && !s.pc[w].Linking? && !HalfWay(s.pc[w])
                ==> !s'.pc[w].ToLink? && !s'.pc[w].Linking? && !HalfWay(s'.pc[w]))
  {
    match s.pc[w] case Start => case Hashed => case ToLink => case Linking => case Copying => case Linked(_) =>
    case Removed(_) => case ToRename => case Renaming => case Dup(_) => case Done(_) => case Failed(_) => case Torn =>
  }

  /** Worker `w` alone comes to the point where it links or copies. */
  lemma {:induction false} LinkBegins(b: Batch, w: nat) returns (sched: Schedule)
    requires w < |b.jobs| && !NothingToCopy(b, b.jobs[w])
    ensures IsSchedule(b, sched) && Run(b, sched).pc[w] == Linking && Run(b, sched).cas == b.cas0
  {
    sched := [];
    var s0 := Run(b, sched);
    assert s0.pc[w] == Start && s0.cas == b.cas0 && s0.seen == {};
    sched := Alone(b, sched, w);
    var s1 := Run(b, sched);
    assert s1.pc[w] == Hashed && s1.cas == b.cas0 && s1.seen == {};
    sched := Alone(b, sched, w);
    var s2 := Run(b, sched);
    assert s2.pc[w] == ToLink && s2.cas == b.cas0;
    sched := Alone(b, sched, w);
  }

  lemma {:induction false} Alone(b: Batch, before: Schedule, w: nat) returns (sched: Schedule)
    requires IsSchedule(b, before) && w < |b.jobs|
    ensures IsSchedule(b, sched) && Run(b, sched) == Step(b, Run(b, before), w, Success)
  {
    RunSnoc(b, before, w, Success);
    sched := before + [(w, Success)];
  }

  /** Worker `w` alone comes to copy its file, and the target is empty at first. */
  lemma {:induction false} CopyBegins(b: Batch, w: nat) returns (sched: Schedule)
    requires Addressed(b, b.cas0) && Injective(b) && w < |b.jobs| && !NothingToCopy(b, b.jobs[w])
    ensures IsSchedule(b, sched)
    ensures var cas := Run(b, sched).cas; Name(b, w) in cas && NameOf(b, cas[Name(b, w)]) != Name(b, w)
  {
    sched := LinkBegins(b, w);
    RunSnoc(b, sched, w, Copies([]));
    sched := sched + [(w, Copies([]))];
    assert NameOf(b, []) != Name(b, w);
  }

  lemma {:induction false} RunSnoc(b: Batch, sched: Schedule, w: nat, o: Outcome)
    requires IsSchedule(b, sched) && w < |b.jobs|
    ensures IsSchedule(b, sched + [(w, o)]) && Run(b, sched + [(w, o)]) == Step(b, Run(b, sched), w, o)
  {
    var more := sched + [(w, o)];
    assert more[..|more| - 1] == sched;
  }

  /** Two equal files: the first worker's copy fails half way, the second takes what it left for the blob,
      replaces its file by a symlink to it and reports success. */
  lemma {:induction false} TornCopyIsTaken(hash: Content -> Digest, c: Content, part: Content)
    returns (b: Batch, sched: Schedule)
    requires part != c && |part| <= |c|
    ensures b == Batch(hash, [Job(Tier2, c), Job(Tier1, c)], map[]) && IsSchedule(b, sched)
    ensures var s := Run(b, sched);
            && Finished(s) && s.pc[1] == Done(false) && 1 in s.sources && s.sources[1] == Symlink(Name(b, 1))
            && Name(b, 1) in s.cas && s.cas[Name(b, 1)] == part
  {
    b := Batch(hash, [Job(Tier2, c), Job(Tier1, c)], map[]);
    sched := [];
    RunSnoc(b, sched, 0, Success);
    sched := sched + [(0, Success)];
    RunSnoc(b, sched, 0, Success);
    sched := sched + [(0, Success)];
    RunSnoc(b, sched, 0, Success);
    sched := sched + [(0, Success)];
    assert Run(b, sched).pc == [Linking, Start];
    RunSnoc(b, sched, 0, Copies(part));
    sched := sched + [(0, Copies(part))];
    RunSnoc(b, sched, 0, Failure);
    sched := sched + [(0, Failure)];
    assert Run(b, sched).pc == [Torn, Start] && Run(b, sched).cas == map[Name(b, 1) := part];
    sched := TakesBlob(b, sched);
  }

  lemma {:induction false} TakesBlob(b: Batch, sched: Schedule) returns (sched': Schedule)
    requires |b.jobs| == 2 && b.jobs[1].mode == Tier1 && IsSchedule(b, sched)
    requires Run(b, sched).pc == [Torn, Start] && Name(b, 1) in Run(b, sched).cas
    ensures IsSchedule(b, sched')
    ensures var s := Run(b, sched');
            && s.pc == [Torn, Done(false)] && s.cas == Run(b, sched).cas
            && 1 in s.sources && s.sources[1] == Symlink(Name(b, 1))
  {
    sched' := sched;
    RunSnoc(b, sched', 1, Success);
    sched' := sched' + [(1, Success)];
    RunSnoc(b, sched', 1, Success);
    sched' := sched' + [(1, Success)];
    assert Run(b, sched').pc == [Torn, ToLink];
    RunSnoc(b, sched', 1, Success);
    sched' := sched' + [(1, Success)];
    assert Run(b, sched').pc == [Torn, Linked(false)];
    RunSnoc(b, sched', 1, Success);
    sched' := sched' + [(1, Success)];
    RunSnoc(b, sched', 1, Success);
    sched' := sched' + [(1, Success)];
  }
}
