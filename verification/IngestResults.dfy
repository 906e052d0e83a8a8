/** What a worker's result means: where its content is, what became of its source, what `was_new`
    tells and when it fails (crates/vrift-cas/src/zero_copy_ingest.rs, the five ingest functions). */
module IngestResults {
  import opened Bytes
  import opened IngestProtocol

  // ---------------------------------------------------------------- the content

  /** In every schedule, a worker that reports success without the shared set has a blob under its name,
      which holds its content unless another worker's copy into it is not finished. */
  lemma {:induction false} DoneIsStored(b: Batch, sched: Schedule, w: nat)
    requires IsSchedule(b, sched) && Addressed(b, b.cas0) && Injective(b) && w < |b.jobs|
    requires !IsDedup(b.jobs[w].mode) && Run(b, sched).pc[w].Done?
    ensures var s, n := Run(b, sched), Name(b, w);
            n in s.cas && (!HalfCopied(b, s, n) ==> s.cas[n] == b.jobs[w].content)
  {
    RunKeepsInv(b, sched);
    var s, n := Run(b, sched), Name(b, w);
    assert PcOkAt(b, s, w);
    if !HalfCopied(b, s, n) {
      assert b.hash(s.cas[n]) == b.hash(b.jobs[w].content);
    }
  }

  // ---------------------------------------------------------------- turns of one worker

  /** Turn `k` of the schedule is worker `w`'s, and meets it at this point with this outcome. */
  ghost predicate Turn(b: Batch, sched: Schedule, w: nat, k: nat, pc: Pc, o: Outcome)
    requires IsSchedule(b, sched) && w < |b.jobs|
  {
    k < |sched| && sched[k] == (w, o) && Run(b, sched[..k]).pc[w] == pc
  }

  /** The turns of a schedule are those of its front and its last step. */
  lemma {:induction false} TurnsOf(b: Batch, sched: Schedule, w: nat, k: nat, pc: Pc, o: Outcome)
    requires IsSchedule(b, sched) && w < |b.jobs| && sched != []
    ensures var n := |sched| - 1;
            && IsSchedule(b, sched[..n])
            && (Turn(b, sched, w, k, pc, o)
                <==> if k == n then sched[n] == (w, o) && Run(b, sched[..n]).pc[w] == pc
                     else Turn(b, sched[..n], w, k, pc, o))
  {
    var n := |sched| - 1;
    if k < n {
      assert sched[..n][..k] == sched[..k];
    }
  }

  /** Some turn of the worker satisfies a condition on its point and outcome. */
  ghost predicate Meets(b: Batch, sched: Schedule, w: nat, when: (Pc, Outcome) -> bool)
    requires IsSchedule(b, sched) && w < |b.jobs|
  {
    exists k: nat, pc, o :: Turn(b, sched, w, k, pc, o) && when(pc, o)
  }

  lemma {:induction false} MeetsLast(b: Batch, sched: Schedule, w: nat, when: (Pc, Outcome) -> bool)
    requires IsSchedule(b, sched) && w < |b.jobs| && sched != []
    ensures var n := |sched| - 1;
            && IsSchedule(b, sched[..n])
            && (Meets(b, sched, w, when)
                <==> Meets(b, sched[..n], w, when)
                     || (sched[n].0 == w && when(Run(b, sched[..n]).pc[w], sched[n].1)))
  {
    var n := |sched| - 1;
    if Meets(b, sched, w, when) {
      var k: nat, pc, o :| Turn(b, sched, w, k, pc, o) && when(pc, o);
      TurnsOf(b, sched, w, k, pc, o);
    }
    if Meets(b, sched[..n], w, when) {
      var k: nat, pc, o :| Turn(b, sched[..n], w, k, pc, o) && when(pc, o);
      TurnsOf(b, sched, w, k, pc, o);
      assert Turn(b, sched, w, k, pc, o);
    }
    if sched[n].0 == w && when(Run(b, sched[..n]).pc[w], sched[n].1) {
      var pc, o := Run(b, sched[..n]).pc[w], sched[n].1;
      TurnsOf(b, sched, w, n, pc, o);
      assert Turn(b, sched, w, n, pc, o);
    }
  }

  // ---------------------------------------------------------------- the source

  /** Removing the source of a duplicate failed. */
  function RemovalFails(): (Pc, Outcome) -> bool {
    (pc: Pc, o: Outcome) => pc.Dup? && !o.Success?
  }

  /** The worker renamed its source into the store. */
  function Renames(): (Pc, Outcome) -> bool {
    (pc: Pc, o: Outcome) => pc.Renaming? && o.Success?
  }

  /** A phantom worker's source: there until its result, and then gone unless a removal failed; a worker
      that renamed it met no duplicate. */
  ghost predicate PhantomSource(b: Batch, s: State, w: nat, failed: bool, renamed: bool)
    requires WellFormed(b, s) && w < |b.jobs|
  {
    && (w in s.sources ==> s.sources[w] == File(b.jobs[w].content))
    && !(failed && renamed) && (failed || renamed ==> s.pc[w].Done?)
    && (w in s.sources <==> !s.pc[w].Done? || failed)
    && (s.pc[w].Start? || s.pc[w].Hashed? || s.pc[w].ToRename? || s.pc[w].Renaming? || s.pc[w].Dup? || s.pc[w].Done?
        || s.pc[w].Failed?)
  }

  lemma {:induction false} PhantomStep(b: Batch, s: State, w: nat, o: Outcome, failed: bool, renamed: bool)
    requires WellFormed(b, s) && w < |b.jobs| && b.jobs[w].mode.Phantom? && PhantomSource(b, s, w, failed, renamed)
    ensures PhantomSource(b, Step(b, s, w, o), w, failed || RemovalFails()(s.pc[w], o),
                          renamed || Renames()(s.pc[w], o))
  {
    match s.pc[w] case Start => case Hashed => case ToRename => case Renaming => case Dup(_) => case Done(_) =>
    case Failed(_) =>
  }

  lemma {:induction false} PhantomRun(b: Batch, sched: Schedule, w: nat)
    requires IsSchedule(b, sched) && w < |b.jobs| && b.jobs[w].mode.Phantom?
    ensures PhantomSource(b, Run(b, sched), w, Meets(b, sched, w, RemovalFails()), Meets(b, sched, w, Renames()))
    decreases |sched|
  {
    if sched != [] {
      var n := |sched| - 1;
      PhantomRun(b, sched[..n], w);
      MeetsLast(b, sched, w, RemovalFails());
      MeetsLast(b, sched, w, Renames());
      var s := Run(b, sched[..n]);
      var failed, renamed := Meets(b, sched[..n], w, RemovalFails()), Meets(b, sched[..n], w, Renames());
      if sched[n].0 == w {
        PhantomStep(b, s, w, sched[n].1, failed, renamed);
      } else {
        StepFrame(b, s, sched[n].0, sched[n].1);
        PhantomOthers(b, s, Run(b, sched), w, sched[n].0, failed, renamed);
      }
    }
  }

  lemma {:induction false} PhantomOthers(b: Batch, s: State, s': State, w: nat, v: nat, failed: bool, renamed: bool)
    requires WellFormed(b, s) && w < |b.jobs| && w != v && SameElsewhere(s, s', v)
    requires PhantomSource(b, s, w, failed, renamed)
    ensures WellFormed(b, s') && PhantomSource(b, s', w, failed, renamed)
  {
  }

  /** When a phantom worker reports success its source is gone, unless it was a duplicate and its removal
      failed; so it is gone whenever the worker renamed it itself. Until then it is there. */
  lemma {:induction false} PhantomSourceExactly(b: Batch, sched: Schedule, w: nat)
    requires IsSchedule(b, sched) && w < |b.jobs| && b.jobs[w].mode.Phantom?
    ensures var s := Run(b, sched);
            && (s.pc[w].Done? ==> (w in s.sources <==> Meets(b, sched, w, RemovalFails())))
            && (Meets(b, sched, w, Renames()) ==> s.pc[w].Done? && w !in s.sources)
            && (!s.pc[w].Done? ==> w in s.sources && s.sources[w] == File(b.jobs[w].content))
  {
    PhantomRun(b, sched, w);
  }

  predicate KeepsSource(m: Mode) {
    m.Tier2? || m.Tier2Dedup?
  }

  lemma {:induction false} Tier2Step(b: Batch, s: State, w: nat, o: Outcome)
    requires WellFormed(b, s) && w < |b.jobs| && KeepsSource(b.jobs[w].mode) && Tier2Source(b, s, w)
    ensures Tier2Source(b, Step(b, s, w, o), w)
  {
    match s.pc[w] case Start => case Hashed => case ToLink => case Linking => case Copying => case Linked(_) =>
    case Done(_) => case Failed(_) => case Torn =>
  }

  predicate Tier2Source(b: Batch, s: State, w: nat)
    requires WellFormed(b, s) && w < |b.jobs|
  {
    && w in s.sources && s.sources[w] == File(b.jobs[w].content)
    && !s.pc[w].Removed? && !s.pc[w].ToRename? && !s.pc[w].Renaming? && !s.pc[w].Dup?
  }

  /** A tier-2 worker never touches its source. */
  lemma {:induction false} Tier2KeepsSource(b: Batch, sched: Schedule, w: nat)
    requires IsSchedule(b, sched) && w < |b.jobs| && KeepsSource(b.jobs[w].mode)
    ensures Tier2Source(b, Run(b, sched), w)
    decreases |sched|
  {
    if sched != [] {
      var n := |sched| - 1;
      Tier2KeepsSource(b, sched[..n], w);
      if sched[n].0 == w {
        Tier2Step(b, Run(b, sched[..n]), w, sched[n].1);
      } else {
        StepFrame(b, Run(b, sched[..n]), sched[n].0, sched[n].1);
      }
    }
  }

  // ---------------------------------------------------------------- was_new

  /** At some turn the worker looked for its blob, and found it or not. */
  ghost predicate Looked(b: Batch, sched: Schedule, w: nat, there: bool)
    requires IsSchedule(b, sched) && w < |b.jobs|
  {
    exists k: nat, pc: Pc :: (pc.ToLink? || pc.ToRename?) && Turn(b, sched, w, k, pc, Success)
                         && (there <==> Name(b, w) in Run(b, sched[..k]).cas)
  }

  lemma {:induction false} LookedBefore(b: Batch, sched: Schedule, w: nat, there: bool)
    requires IsSchedule(b, sched) && w < |b.jobs| && sched != []
    requires IsSchedule(b, sched[..|sched| - 1]) && Looked(b, sched[..|sched| - 1], w, there)
    ensures Looked(b, sched, w, there)
  {
    var front := sched[..|sched| - 1];
    var k: nat, pc: Pc :| (pc.ToLink? || pc.ToRename?) && Turn(b, front, w, k, pc, Success)
                      && (there <==> Name(b, w) in Run(b, front[..k]).cas);
    TurnsOf(b, sched, w, k, pc, Success);
    assert front[..k] == sched[..k];
    assert Turn(b, sched, w, k, pc, Success);
  }

  lemma {:induction false} LooksNow(b: Batch, sched: Schedule, w: nat)
    requires IsSchedule(b, sched) && w < |b.jobs| && sched != [] && sched[|sched| - 1] == (w, Success)
    requires var pc := Run(b, sched[..|sched| - 1]).pc[w]; pc.ToLink? || pc.ToRename?
    ensures Looked(b, sched, w, Name(b, w) in Run(b, sched[..|sched| - 1]).cas)
  {
    var n := |sched| - 1;
    var pc := Run(b, sched[..n]).pc[w];
    assert Turn(b, sched, w, n, pc, Success);
  }

  /** The rename was refused because the blob may not be replaced. */
  function RenameDenied(): (Pc, Outcome) -> bool {
    (pc: Pc, o: Outcome) => pc.Renaming? && o.Denied?
  }

  /** What the point a worker has reached says about its look. */
  ghost predicate NewOk(pc: Pc, absent: bool, present: bool, denied: bool) {
    match pc
    case Start => true
    case Hashed => true
    case ToLink => true
    case ToRename => !denied
    case Linking => absent
    case Copying => absent
    case Linked(n) => if n then absent else present
    case Removed(n) => if n then absent else present
    case Renaming => absent && !denied
    case Dup(n) => if n then absent && !denied else present || denied
    case Done(n) => if n then absent && !denied else present || denied
    case Failed(_) => true
    case Torn => true
  }

  ghost predicate NotDenied(b: Batch, s: State, w: nat, denied: bool)
    requires WellFormed(b, s) && w < |b.jobs|
  {
    denied ==> b.jobs[w].mode.Phantom? && (s.pc[w].Dup? || s.pc[w].Done? || s.pc[w].Failed?)
  }

  lemma {:induction false} NewStep(b: Batch, s: State, w: nat, o: Outcome, absent: bool, present: bool, denied: bool,
                                   absent': bool, present': bool)
    requires WellFormed(b, s) && w < |b.jobs| && !IsDedup(b.jobs[w].mode)
    requires NewOk(s.pc[w], absent, present, denied) && NotDenied(b, s, w, denied)
    requires s.pc[w].ToRename? || s.pc[w].Renaming? || s.pc[w].Dup? ==> b.jobs[w].mode.Phantom?
    requires s.pc[w].ToLink? || s.pc[w].Linking? || s.pc[w].Copying? ==> !b.jobs[w].mode.Phantom?
    requires (absent ==> absent') && (present ==> present')
    requires (s.pc[w].ToLink? || s.pc[w].ToRename?) && o.Success?
             ==> if Name(b, w) in s.cas then present' else absent'
    ensures var s' := Step(b, s, w, o);
            && NewOk(s'.pc[w], absent', present', denied || RenameDenied()(s.pc[w], o))
            && NotDenied(b, s', w, denied || RenameDenied()(s.pc[w], o))
            && (s'.pc[w].ToLink? || s'.pc[w].Linking? || s'.pc[w].Copying? ==> !b.jobs[w].mode.Phantom?)
  {
    match s.pc[w] case Start => case Hashed => case ToLink => case Linking => case Copying => case Linked(_) =>
    case Removed(_) => case ToRename => case Renaming => case Dup(_) => case Done(_) => case Failed(_) => case Torn =>
  }

  ghost predicate NewInv(b: Batch, sched: Schedule, w: nat)
    requires IsSchedule(b, sched) && w < |b.jobs|
  {
    var s, denied := Run(b, sched), Meets(b, sched, w, RenameDenied());
    && NewOk(s.pc[w], Looked(b, sched, w, false), Looked(b, sched, w, true), denied) && NotDenied(b, s, w, denied)
    && (s.pc[w].ToLink? || s.pc[w].Linking? || s.pc[w].Copying? ==> !b.jobs[w].mode.Phantom?)
  }

  lemma {:induction false} NewRun(b: Batch, sched: Schedule, w: nat)
    requires IsSchedule(b, sched) && Addressed(b, b.cas0) && w < |b.jobs| && !IsDedup(b.jobs[w].mode)
    ensures NewInv(b, sched, w)
    decreases |sched|
  {
    if sched != [] {
      var n := |sched| - 1;
      NewRun(b, sched[..n], w);
      MeetsLast(b, sched, w, RenameDenied());
      LookedOnward(b, sched, w);
      if sched[n].0 == w {
        RunKeepsInv(b, sched[..n]);
        NewTurn(b, sched, w);
      } else {
        StepFrame(b, Run(b, sched[..n]), sched[n].0, sched[n].1);
      }
    }
  }

  lemma {:induction false} LookedOnward(b: Batch, sched: Schedule, w: nat)
    requires IsSchedule(b, sched) && w < |b.jobs| && sched != []
    ensures var front := sched[..|sched| - 1];
            && IsSchedule(b, front)
            && (Looked(b, front, w, false) ==> Looked(b, sched, w, false))
            && (Looked(b, front, w, true) ==> Looked(b, sched, w, true))
  {
    var front := sched[..|sched| - 1];
    if Looked(b, front, w, false) {
      LookedBefore(b, sched, w, false);
    }
    if Looked(b, front, w, true) {
      LookedBefore(b, sched, w, true);
    }
  }

  lemma {:induction false} NewTurn(b: Batch, sched: Schedule, w: nat)
    requires IsSchedule(b, sched) && w < |b.jobs| && !IsDedup(b.jobs[w].mode)
    requires sched != [] && sched[|sched| - 1].0 == w
    requires var front := sched[..|sched| - 1]; IsSchedule(b, front) && NewInv(b, front, w) && Inv(b, Run(b, front))
    ensures NewInv(b, sched, w)
  {
    var n := |sched| - 1;
    var front, o := sched[..n], sched[n].1;
    var s := Run(b, front);
    MeetsLast(b, sched, w, RenameDenied());
    LookedOnward(b, sched, w);
    assert PcOkAt(b, s, w);
    if (s.pc[w].ToLink? || s.pc[w].ToRename?) && o.Success? {
      LooksNow(b, sched, w);
    }
    NewStep(b, s, w, o, Looked(b, front, w, false), Looked(b, front, w, true), Meets(b, front, w, RenameDenied()),
            Looked(b, sched, w, false), Looked(b, sched, w, true));
  }

  // A worker looks only once.

  predicate HasLooked(pc: Pc) {
    pc.Linking? || pc.Copying? || pc.Linked? || pc.Removed? || pc.Renaming? || pc.Dup? || pc.Done? || pc.Failed?
    || pc.Torn?
  }

  lemma {:induction false} LookStep(b: Batch, s: State, w: nat, o: Outcome)
    requires WellFormed(b, s) && w < |b.jobs|
    ensures HasLooked(s.pc[w]) ==> HasLooked(Step(b, s, w, o).pc[w])
    ensures s.pc[w].ToLink? || s.pc[w].ToRename? ==> HasLooked(Step(b, s, w, o).pc[w])
  {
    match s.pc[w] case Start => case Hashed => case ToLink => case Linking => case Copying => case Linked(_) =>
    case Removed(_) => case ToRename => case Renaming => case Dup(_) => case Done(_) => case Failed(_) => case Torn =>
  }

  lemma {:induction false} LookedOnce(b: Batch, sched: Schedule, w: nat)
    requires IsSchedule(b, sched) && w < |b.jobs|
    ensures !(Looked(b, sched, w, false) && Looked(b, sched, w, true))
    ensures Looked(b, sched, w, false) || Looked(b, sched, w, true) ==> HasLooked(Run(b, sched).pc[w])
    decreases |sched|
  {
    if sched != [] {
      var n := |sched| - 1;
      LookedOnce(b, sched[..n], w);
      LookedByLast(b, sched, w, false);
      LookedByLast(b, sched, w, true);
      if sched[n].0 == w {
        LookStep(b, Run(b, sched[..n]), w, sched[n].1);
      } else {
        StepFrame(b, Run(b, sched[..n]), sched[n].0, sched[n].1);
      }
    }
  }

  lemma {:induction false} LookedByLast(b: Batch, sched: Schedule, w: nat, there: bool)
    requires IsSchedule(b, sched) && w < |b.jobs| && sched != []
    ensures var n := |sched| - 1;
            && IsSchedule(b, sched[..n])
            && (Looked(b, sched, w, there) ==>
                || Looked(b, sched[..n], w, there)
                || (sched[n].0 == w && (Run(b, sched[..n]).pc[w].ToLink? || Run(b, sched[..n]).pc[w].ToRename?)
                    && (there <==> Name(b, w) in Run(b, sched[..n]).cas)))
  {
    if Looked(b, sched, w, there) {
      var n := |sched| - 1;
      var k: nat, pc: Pc :| (pc.ToLink? || pc.ToRename?) && Turn(b, sched, w, k, pc, Success)
                            && (there <==> Name(b, w) in Run(b, sched[..k]).cas);
      TurnsOf(b, sched, w, k, pc, Success);
      if k < n {
        assert sched[..n][..k] == sched[..k];
      }
    }
  }

  /** Without the shared set, `was_new` tells that the blob was absent when the worker looked for it; a
      phantom worker whose rename is then denied reports a duplicate all the same. */
  lemma {:induction false} NewMeansAbsent(b: Batch, sched: Schedule, w: nat, n: bool)
    requires IsSchedule(b, sched) && Addressed(b, b.cas0) && w < |b.jobs|
    requires !IsDedup(b.jobs[w].mode) && Run(b, sched).pc[w] == Done(n)
    ensures n <==> Looked(b, sched, w, false) && !Meets(b, sched, w, RenameDenied())
  {
    NewRun(b, sched, w);
    LookedOnce(b, sched, w);
  }

  // ---------------------------------------------------------------- what was_new counts

  ghost predicate NoneDedup(b: Batch) {
    forall w :: 0 <= w < |b.jobs| ==> !IsDedup(b.jobs[w].mode)
  }

  predicate SaysNew(pc: Pc) {
    pc == Linked(true) || pc == Removed(true) || pc == Dup(true) || pc == Done(true)
  }

  /** The worker added its blob, or may have before it failed. */
  predicate MayHaveAdded(pc: Pc) {
    SaysNew(pc) || HalfWay(pc) || pc.Failed?
  }

  ghost predicate CountInv(b: Batch, s: State)
    requires WellFormed(b, s)
  {
    && (forall w :: 0 <= w < |b.jobs| && SaysNew(s.pc[w]) ==> Name(b, w) in s.cas && Name(b, w) !in b.cas0)
    && (forall n :: n in s.cas && n !in b.cas0 ==> AddedBy(b, s, n))
  }

  ghost predicate AddedBy(b: Batch, s: State, n: BlobName)
    requires WellFormed(b, s)
  {
    exists w :: 0 <= w < |b.jobs| && Name(b, w) == n && MayHaveAdded(s.pc[w])
  }

  lemma {:induction false} CountLocal(b: Batch, s: State, w: nat, o: Outcome)
    requires WellFormed(b, s) && w < |b.jobs| && !IsDedup(b.jobs[w].mode) && WritesOk(b, s, w)
    requires s.pc[w].Dup? ==> Name(b, w) in s.cas
    requires SaysNew(s.pc[w]) ==> Name(b, w) in s.cas && Name(b, w) !in b.cas0
    ensures var s' := Step(b, s, w, o);
            && (SaysNew(s'.pc[w]) ==> Name(b, w) in s'.cas && Name(b, w) !in b.cas0)
            && (MayHaveAdded(s.pc[w]) ==> MayHaveAdded(s'.pc[w]))
            && (s'.cas != s.cas ==> MayHaveAdded(s'.pc[w]))
  {
    match s.pc[w] case Start => case Hashed => case ToLink => case Linking => case Copying => case Linked(_) =>
    case Removed(_) => case ToRename => case Renaming => case Dup(_) => case Done(_) => case Failed(_) => case Torn =>
  }

  lemma {:induction false} CountStep(b: Batch, s: State, w: nat, o: Outcome)
    requires NoneDedup(b) && Inv(b, s) && CountInv(b, s) && w < |b.jobs|
    ensures CountInv(b, Step(b, s, w, o))
  {
    var s' := Step(b, s, w, o);
    StepFrame(b, s, w, o);
    assert PcOkAt(b, s, w);
    CountLocal(b, s, w, o);
    CountKept(b, s, s', w);
  }

  lemma {:induction false} CountKept(b: Batch, s: State, s': State, w: nat)
    requires WellFormed(b, s) && CountInv(b, s) && w < |b.jobs| && SameElsewhere(s, s', w) && Grows(b, s, s', w)
    requires SaysNew(s'.pc[w]) ==> Name(b, w) in s'.cas && Name(b, w) !in b.cas0
    requires MayHaveAdded(s.pc[w]) || s'.cas != s.cas ==> MayHaveAdded(s'.pc[w])
    ensures WellFormed(b, s') && CountInv(b, s')
  {
    forall n | n in s'.cas && n !in b.cas0
      ensures AddedBy(b, s', n)
    {
      if n in s.cas {
        var v :| 0 <= v < |b.jobs| && Name(b, v) == n && MayHaveAdded(s.pc[v]);
        assert MayHaveAdded(s'.pc[v]);
      } else {
        assert Name(b, w) == n && MayHaveAdded(s'.pc[w]);
      }
    }
  }

  lemma {:induction false} CountRun(b: Batch, sched: Schedule)
    requires NoneDedup(b) && IsSchedule(b, sched) && Addressed(b, b.cas0)
    ensures CountInv(b, Run(b, sched))
    decreases |sched|
  {
    if sched != [] {
      var n := |sched| - 1;
      CountRun(b, sched[..n]);
      RunKeepsInv(b, sched[..n]);
      CountStep(b, Run(b, sched[..n]), sched[n].0, sched[n].1);
    }
  }

  /** Some worker reported this blob as new. */
  ghost predicate ReportedNew(b: Batch, s: State, n: BlobName)
    requires WellFormed(b, s)
  {
    exists w :: 0 <= w < |b.jobs| && Name(b, w) == n && s.pc[w] == Done(true)
  }

  /** Without the shared set, a blob that some worker reports as new was not there before; and when all
      have ended and none failed, the blobs reported as new are exactly the blobs added, though several
      workers may report the same one. */
  lemma {:induction false} NewNamesAreAdded(b: Batch, sched: Schedule, n: BlobName)
    requires NoneDedup(b) && IsSchedule(b, sched) && Addressed(b, b.cas0)
    ensures var s := Run(b, sched);
            && (ReportedNew(b, s, n) ==> n in s.cas && n !in b.cas0)
            && ((forall w :: 0 <= w < |b.jobs| ==> s.pc[w].Done?) ==>
                (ReportedNew(b, s, n) <==> n in s.cas && n !in b.cas0))
  {
    CountRun(b, sched);
    var s := Run(b, sched);
    if n in s.cas && n !in b.cas0 {
      var w :| 0 <= w < |b.jobs| && Name(b, w) == n && MayHaveAdded(s.pc[w]);
      assert s.pc[w].Done? ==> s.pc[w] == Done(true);
    }
  }

  // ---------------------------------------------------------------- failures and progress

  /** The call that the worker makes at this point fails, and the function returns its error: opening and
      hashing, creating the directory, linking, copying, replacing the source and renaming. Removing the
      source of a duplicate is a best effort, and so is a rename that meets an existing blob. */
  predicate Fatal(m: Mode, there: bool, pc: Pc, o: Outcome) {
    match pc
    case Start => !o.Success?
    case ToLink => !o.Success?
    case Linking => !o.Success? && !o.Copies?
    case Copying => !o.Success? && !o.Copies?
    case Linked(_) => Replaces(m) && !o.Success?
    case Removed(_) => !o.Success?
    case ToRename => !o.Success?
    case Renaming => !o.Success? && !(there && (o.AlreadyExists? || o.Denied?))
    case _ => false
  }

  predicate HasFailed(pc: Pc) {
    pc.Failed? || pc.Torn?
  }

  predicate HasEnded(pc: Pc) {
    pc.Done? || HasFailed(pc)
  }

  /** No copy reports more than the content. */
  predicate Plausible(b: Batch, sched: Schedule) {
    forall k :: 0 <= k < |sched| && sched[k].0 < |b.jobs| && sched[k].1.Copies?
                ==> |sched[k].1.data| <= |b.jobs[sched[k].0].content|
  }

  lemma {:induction false} FailsStep(b: Batch, s: State, w: nat, o: Outcome)
    requires WellFormed(b, s) && w < |b.jobs| && (o.Copies? ==> |o.data| <= |b.jobs[w].content|)
    ensures HasFailed(Step(b, s, w, o).pc[w])
            <==> HasFailed(s.pc[w]) || Fatal(b.jobs[w].mode, Name(b, w) in s.cas, s.pc[w], o)
  {
    match s.pc[w] case Start => case Hashed => case ToLink => case Linking => case Copying => case Linked(_) =>
    case Removed(_) => case ToRename => case Renaming => case Dup(_) => case Done(_) => case Failed(_) => case Torn =>
  }

  /** Some turn of the worker is fatal in the state it meets. */
  ghost predicate MeetsFatal(b: Batch, sched: Schedule, w: nat)
    requires IsSchedule(b, sched) && w < |b.jobs|
  {
    exists k :: 0 <= k < |sched| && FatalTurn(b, sched, w, k)
  }

  ghost predicate FatalTurn(b: Batch, sched: Schedule, w: nat, k: nat)
    requires IsSchedule(b, sched) && w < |b.jobs| && k < |sched|
  {
    var s := Run(b, sched[..k]);
    sched[k].0 == w && Fatal(b.jobs[w].mode, Name(b, w) in s.cas, s.pc[w], sched[k].1)
  }

  lemma {:induction false} MeetsFatalLast(b: Batch, sched: Schedule, w: nat)
    requires IsSchedule(b, sched) && w < |b.jobs| && sched != []
    ensures var n := |sched| - 1;
            IsSchedule(b, sched[..n])
            && (MeetsFatal(b, sched, w) <==> MeetsFatal(b, sched[..n], w) || FatalTurn(b, sched, w, n))
  {
    var n := |sched| - 1;
    assert forall k | 0 <= k < n :: sched[..n][..k] == sched[..k] && sched[..n][k] == sched[k];
    if MeetsFatal(b, sched[..n], w) {
      var k :| 0 <= k < n && FatalTurn(b, sched[..n], w, k);
      assert FatalTurn(b, sched, w, k);
    }
    if MeetsFatal(b, sched, w) {
      var k :| 0 <= k < |sched| && FatalTurn(b, sched, w, k);
      assert k < n ==> FatalTurn(b, sched[..n], w, k);
    }
  }

  /** A worker has failed exactly when one of its calls failed that it does not tolerate. */
  lemma {:induction false} FailsExactly(b: Batch, sched: Schedule, w: nat)
    requires IsSchedule(b, sched) && Plausible(b, sched) && w < |b.jobs|
    ensures HasFailed(Run(b, sched).pc[w]) <==> MeetsFatal(b, sched, w)
    decreases |sched|
  {
    if sched != [] {
      var n := |sched| - 1;
      FailsExactly(b, sched[..n], w);
      MeetsFatalLast(b, sched, w);
      if sched[n].0 == w {
        FailsStep(b, Run(b, sched[..n]), w, sched[n].1);
      } else {
        StepFrame(b, Run(b, sched[..n]), sched[n].0, sched[n].1);
      }
    }
  }

  /** How many turns the worker has, not counting writes in the middle of a copy. */
  function Turns(sched: Schedule, w: nat): nat {
    if sched == [] then 0
    else
      var last := sched[|sched| - 1];
      Turns(sched[..|sched| - 1], w) + if last.0 == w && !last.1.Copies? then 1 else 0
  }

  function Left(pc: Pc): nat {
    match pc
    case Start => 7
    case Hashed => 6
    case ToLink => 5
    case ToRename => 5
    case Linking => 4
    case Renaming => 4
    case Copying => 4
    case Linked(_) => 3
    case Removed(_) => 2
    case Dup(_) => 1
    case _ => 0
  }

  lemma {:induction false} LeftStep(b: Batch, s: State, w: nat, o: Outcome)
    requires WellFormed(b, s) && w < |b.jobs|
    ensures var pc, pc' := s.pc[w], Step(b, s, w, o).pc[w];
            Left(pc') <= Left(pc) && (!o.Copies? && Left(pc) > 0 ==> Left(pc') < Left(pc))
  {
    match s.pc[w] case Start => case Hashed => case ToLink => case Linking => case Copying => case Linked(_) =>
    case Removed(_) => case ToRename => case Renaming => case Dup(_) => case Done(_) => case Failed(_) => case Torn =>
  }

  lemma {:induction false} LeftRun(b: Batch, sched: Schedule, w: nat)
    requires IsSchedule(b, sched) && w < |b.jobs|
    ensures var left := Left(Run(b, sched).pc[w]); left == 0 || left + Turns(sched, w) <= 7
    decreases |sched|
  {
    if sched != [] {
      var n := |sched| - 1;
      LeftRun(b, sched[..n], w);
      if sched[n].0 == w {
        LeftStep(b, Run(b, sched[..n]), w, sched[n].1);
      } else {
        StepFrame(b, Run(b, sched[..n]), sched[n].0, sched[n].1);
      }
    }
  }

  /** After seven turns a worker has ended, whatever the others do: with success exactly when none of its
      calls failed that it does not tolerate. */
  lemma {:induction false} EndsExactly(b: Batch, sched: Schedule, w: nat)
    requires IsSchedule(b, sched) && Plausible(b, sched) && w < |b.jobs| && Turns(sched, w) >= 7
    ensures var pc := Run(b, sched).pc[w];
            HasEnded(pc) && (pc.Done? <==> !MeetsFatal(b, sched, w))
  {
    LeftRun(b, sched, w);
    FailsExactly(b, sched, w);
  }
}
