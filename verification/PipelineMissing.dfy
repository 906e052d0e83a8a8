/** When a commit of the streaming pipeline finds its temporary file missing.

    Committing or discarding a file takes away a temporary file that another file in flight may share. */
module PipelineMissing {
  import opened Bytes
  import opened Pipeline
  import opened PipelineRuns
  import opened PipelineFlight
  import opened PipelineContent

  /** The next file to commit has neither its temporary file nor its blob: the commit fails. */
  predicate Missing(s: State) {
    && s.back.committer.Committing? && s.back.committer.rest != []
    && NameOf(s.back.committer.rest[0]) !in s.back.cas && s.back.committer.rest[0].temp !in s.temps
  }

  predicate Present(s: State, f: File) {
    f.temp in s.temps || NameOf(f) in s.back.cas
  }

  // ---------------------------------------------------------------- files that do not change

  /** No file is found modified after it was read; writes may fail. */
  predicate Steady(contents: set<Bytes>, s: State, a: Action) {
    Sized(contents, s, a) && (a.Check? ==> a.seen != Modified)
  }

  function SteadyRule(contents: set<Bytes>): Rule {
    (s, a) => Steady(contents, s, a)
  }

  function BlobOf(cfg: Config, c: Bytes): Name {
    Name(cfg.hash(c), |c|)
  }

  /** Small contents whose hashes share their first four bytes belong to the same blob. */
  ghost predicate SameBlobs(cfg: Config, contents: set<Bytes>) {
    forall c, d | c in contents && d in contents && Small(cfg, c) && Small(cfg, d) ::
      Prefix4(cfg.hash(c)) == Prefix4(cfg.hash(d)) ==> BlobOf(cfg, c) == BlobOf(cfg, d)
  }

  /** A file in flight under a short name belongs to the blob of one of the small contents. */
  ghost predicate BlobOk(cfg: Config, contents: set<Bytes>, f: File) {
    f.temp.Short? ==> exists c :: c in contents && Small(cfg, c) && NameOf(f) == BlobOf(cfg, c)
                                  && f.temp.prefix == Prefix4(cfg.hash(c))
  }

  /** Every file in flight can be committed, and files that share a temporary name share the blob. */
  ghost predicate Calm(s: State) {
    && (forall f :: InFlight(s, f) ==> Present(s, f))
    && (forall f, g :: InFlight(s, f) && InFlight(s, g) && f.temp == g.temp ==> NameOf(f) == NameOf(g))
  }

  ghost predicate SteadyInv(cfg: Config, contents: set<Bytes>, s: State) {
    && NamesOk(s) && Conserved(cfg, s.front)
    && (forall f :: InFlight(s, f) ==> BlobOk(cfg, contents, f))
    && Calm(s)
  }

  lemma {:induction false} NewBlobOk(cfg: Config, contents: set<Bytes>, s: State, a: Action)
    requires Sized(contents, s, a) && Creates(s, a) && Conserved(cfg, s.front)
    ensures BlobOk(cfg, contents, NewFile(cfg, s, a))
  {
    HeldAtLeast(cfg, s.front.workers, a.w);
    assert a.content.value in contents;
  }

  /** Two files in flight that share a temporary name, one of which may be new. */
  lemma {:induction false} SharedBlob(cfg: Config, contents: set<Bytes>, s: State, a: Action, f: File)
    requires SameBlobs(cfg, contents) && SteadyInv(cfg, contents, s) && Sized(contents, s, a) && Creates(s, a)
    requires InFlight(s, f) && f.temp == NewFile(cfg, s, a).temp
    ensures NameOf(f) == NameOf(NewFile(cfg, s, a))
  {
    var g := NewFile(cfg, s, a);
    assert DrawnBelow(s.front.nextId, f) && BlobOk(cfg, contents, f);
    NewBlobOk(cfg, contents, s, a);
    var c :| c in contents && Small(cfg, c) && NameOf(f) == BlobOf(cfg, c) && f.temp.prefix == Prefix4(cfg.hash(c));
    var d :| d in contents && Small(cfg, d) && NameOf(g) == BlobOf(cfg, d) && g.temp.prefix == Prefix4(cfg.hash(d));
  }

  lemma {:induction false} StepSteady(cfg: Config, contents: set<Bytes>, s: State, a: Action)
    requires SameBlobs(cfg, contents) && SteadyInv(cfg, contents, s) && Steady(contents, s, a)
    ensures SteadyInv(cfg, contents, Step(cfg, s, a))
  {
    var s' := Step(cfg, s, a);
    StepNames(cfg, s, a);
    StepConserves(cfg, s, a);
    forall f | InFlight(s', f)
      ensures BlobOk(cfg, contents, f)
    {
      FlightStep(cfg, s, a, f);
      if !InFlight(s, f) {
        NewBlobOk(cfg, contents, s, a);
      }
    }
    if Creates(s, a) {
      forall f | InFlight(s, f) && f.temp == NewFile(cfg, s, a).temp
        ensures NameOf(f) == NameOf(NewFile(cfg, s, a))
      {
        SharedBlob(cfg, contents, s, a, f);
      }
    }
    StepCalm(cfg, s, a);
  }

  /** As long as nothing is discarded and a new file shares its name only with files of its blob, every
      file in flight can still be committed. */
  lemma {:induction false} StepCalm(cfg: Config, s: State, a: Action)
    requires Calm(s) && (a.Check? ==> a.seen != Modified)
    requires Creates(s, a) ==> forall f :: InFlight(s, f) && f.temp == NewFile(cfg, s, a).temp
                                           ==> NameOf(f) == NameOf(NewFile(cfg, s, a))
    ensures Calm(Step(cfg, s, a))
  {
    var s' := Step(cfg, s, a);
    forall f | InFlight(s', f)
      ensures Present(s', f)
    {
      FlightStep(cfg, s, a, f);
      if InFlight(s, f) {
        StaysPresent(cfg, s, a, f);
      }
    }
    forall f, g | InFlight(s', f) && InFlight(s', g) && f.temp == g.temp
      ensures NameOf(f) == NameOf(g)
    {
      FlightStep(cfg, s, a, f);
      FlightStep(cfg, s, a, g);
    }
  }

  /** A commit takes away a temporary file only when the blob of everything that shares it is stored. */
  lemma {:induction false} StaysPresent(cfg: Config, s: State, a: Action, f: File)
    requires Calm(s) && (a.Check? ==> a.seen != Modified) && InFlight(s, f)
    ensures Present(Step(cfg, s, a), f)
  {
    assert Present(s, f);
    match a
    case CommitOne(ok) => CommitPresent(cfg, s, ok, f);
    case Read(w, c) =>
    case Write(w, k) =>
    case Check(w, seen) =>
    case _ => OtherPresent(cfg, s, a, f);
  }

  lemma {:induction false} OtherPresent(cfg: Config, s: State, a: Action, f: File)
    requires !a.CommitOne? && !a.Read? && !a.Write? && !a.Check? && Present(s, f)
    ensures Present(Step(cfg, s, a), f)
  {
  }

  lemma {:induction false} CommitPresent(cfg: Config, s: State, ok: bool, f: File)
    requires Calm(s) && InFlight(s, f)
    ensures Present(Step(cfg, s, CommitOne(ok)), f)
  {
    assert Present(s, f);
    var turn := TurnOf(s.back, s.temps, ok);
    if turn.Duplicate? || turn.Rename? {
      var g := s.back.committer.rest[0];
      assert InFlight(s, g);
      assert g.temp == f.temp ==> NameOf(g) == NameOf(f);
    }
  }

  lemma {:induction false} RunSteady(cfg: Config, contents: set<Bytes>, items: seq<Item>, workers: nat,
                                     cas0: map<Name, Bytes>, acts: seq<Action>)
    requires SameBlobs(cfg, contents) && Obeys(cfg, Init(cfg, items, workers, cas0), acts, SteadyRule(contents))
    ensures SteadyInv(cfg, contents, Run(cfg, Init(cfg, items, workers, cas0), acts))
    decreases |acts|
  {
    var s0 := Init(cfg, items, workers, cas0);
    if acts == [] {
      IdleWorkers(cfg, s0.front.workers);
    } else {
      ObeysFront(cfg, s0, acts, SteadyRule(contents));
      RunSteady(cfg, contents, items, workers, cas0, acts[..|acts| - 1]);
      StepSteady(cfg, contents, Run(cfg, s0, acts[..|acts| - 1]), acts[|acts| - 1]);
    }
  }

  /** Both files are sent before the first is committed. */
  const DRAIN := [Drain, Decide] + [EndDrain, Timeout]

  lemma {:induction false} DrainsSecond(cfg: Config, s: State, f: File, g: File) returns (s': State)
    requires s.back == Back([g], [f], Draining, map[], 1, 0, []) && !IsSentinel(g)
    ensures s' == Run(cfg, s, DRAIN) && s'.temps == s.temps
    ensures s'.back.committer.Committing? && s'.back.committer.rest == [f, g] && s'.back.cas == map[]
  {
    var s1 := Step(cfg, s, Drain);
    assert s1.back == Back([], [f, g], Added, map[], 2, 0, []);
    var s2 := Step(cfg, s1, Decide);
    s' := Flushes(cfg, s2, [f, g]);
    RunConcat(cfg, s, [Drain, Decide], [EndDrain, Timeout]);
    RunTwo(cfg, s, Drain, Decide);
  }

  lemma {:induction false} Flushes(cfg: Config, s: State, files: seq<File>) returns (s': State)
    requires files != [] && s.back.commits == [] && s.back.cas == map[]
    requires (s.back.committer == Draining && s.back.batch == files) || s.back.committer == Committing(files, true)
    ensures s' == Run(cfg, s, [EndDrain, Timeout]) && s'.temps == s.temps
    ensures s'.back.committer.Committing? && s'.back.committer.rest == files && s'.back.cas == map[]
  {
    s' := Step(cfg, Step(cfg, s, EndDrain), Timeout);
    RunTwo(cfg, s, EndDrain, Timeout);
  }

  function SecondFile(cfg: Config, d: Bytes): File {
    File([2], cfg.hash(d), |d|, SharedTemp(cfg, d))
  }

  /** The second file is sent while the committer drains. */
  lemma {:induction false} SendsSecond(cfg: Config, contents: set<Bytes>, s: State, c: Bytes, d: Bytes)
    returns (s': State)
    requires Reads2(cfg, s, c, d) && Small(cfg, d) && d in contents && Prefix4(cfg.hash(c)) == Prefix4(cfg.hash(d))
    ensures s' == Run(cfg, s, ReadAndSend(d)) && Obeys(cfg, s, ReadAndSend(d), SteadyRule(contents))
    ensures s'.back == Back([SecondFile(cfg, d)], [FirstFile(cfg, c)], Draining, map[], 1, 0, [])
    ensures s'.temps == map[SharedTemp(cfg, c) := d]
  {
    s' := ReadAndSent(cfg, s, [2], d);
    assert FileRead(cfg, s, [2], d) == SecondFile(cfg, d);
    SteadySend(cfg, contents, s, [2], d);
  }

  /** Committing the first file takes the shared temporary file away. */
  lemma {:induction false} CommitTakesTemp(cfg: Config, s: State, f: File, g: File) returns (s': State)
    requires s.back == Back([g], [f], Draining, map[], 1, 0, []) && !IsSentinel(g)
    requires f.temp == g.temp && f.temp in s.temps && NameOf(f) != NameOf(g)
    ensures s' == Run(cfg, s, DRAIN + [CommitOne(true)]) && Missing(s')
  {
    var s3 := DrainsSecond(cfg, s, f, g);
    s' := Step(cfg, s3, CommitOne(true));
    RunConcat(cfg, s, DRAIN, [CommitOne(true)]);
    RunOne(cfg, s3, CommitOne(true));
  }

  lemma {:induction false} NoDiscards(c: Bytes)
    ensures forall a | a in Lead(c) :: a.Check? ==> a.seen != Modified
  {
    assert forall a | a in BEGIN :: !a.Check?;
    assert forall a | a in ReadAndSend(c) :: a.Check? ==> a.seen != Modified;
  }

  lemma {:induction false} BothSent(cfg: Config, contents: set<Bytes>, c: Bytes, d: Bytes) returns (s: State)
    requires c in contents && d in contents && Small(cfg, c) && Small(cfg, d)
    requires Prefix4(cfg.hash(c)) == Prefix4(cfg.hash(d))
    ensures s == Run(cfg, Init(cfg, Pair(c, d), 1, map[]), Lead(c) + ReadAndSend(d))
    ensures Obeys(cfg, Init(cfg, Pair(c, d), 1, map[]), Lead(c) + ReadAndSend(d), SteadyRule(contents))
    ensures s.back == Back([SecondFile(cfg, d)], [FirstFile(cfg, c)], Draining, map[], 1, 0, [])
    ensures s.temps == map[SharedTemp(cfg, c) := d]
  {
    var s0 := Init(cfg, Pair(c, d), 1, map[]);
    var s1 := OneSentOneReading(cfg, contents, c, d);
    s := SendsSecond(cfg, contents, s1, c, d);
    NoDiscards(c);
    SteadyIfClean(cfg, contents, s0, Lead(c));
    Then(cfg, s0, Lead(c), ReadAndSend(d), SteadyRule(contents));
  }

  /** Two small contents of different blobs that share four bytes of hash: after the first file's commit
      the second one's temporary file is missing. */
  lemma {:induction false} ClashLosesTemp(cfg: Config, contents: set<Bytes>, c: Bytes, d: Bytes)
    returns (acts: seq<Action>)
    requires c in contents && d in contents && Small(cfg, c) && Small(cfg, d)
    requires Prefix4(cfg.hash(c)) == Prefix4(cfg.hash(d)) && BlobOf(cfg, c) != BlobOf(cfg, d)
    ensures Obeys(cfg, Init(cfg, Pair(c, d), 1, map[]), acts, SteadyRule(contents))
    ensures Missing(Run(cfg, Init(cfg, Pair(c, d), 1, map[]), acts))
  {
    var s0 := Init(cfg, Pair(c, d), 1, map[]);
    var s1 := BothSent(cfg, contents, c, d);
    var tail := DRAIN + [CommitOne(true)];
    var s2 := CommitTakesTemp(cfg, s1, FirstFile(cfg, c), SecondFile(cfg, d));
    acts := (Lead(c) + ReadAndSend(d)) + tail;
    TailIsSteady(cfg, contents, s1);
    Then(cfg, s0, Lead(c) + ReadAndSend(d), tail, SteadyRule(contents));
  }

  lemma {:induction false} TailIsSteady(cfg: Config, contents: set<Bytes>, s: State)
    ensures Obeys(cfg, s, DRAIN + [CommitOne(true)], SteadyRule(contents))
  {
    var tail := DRAIN + [CommitOne(true)];
    assert forall a | a in tail :: !a.Read? && !a.Check? && !a.Write?;
    ObeysAnywhere(cfg, s, tail, SteadyRule(contents));
  }

  lemma {:induction false} SteadySend(cfg: Config, contents: set<Bytes>, s: State, p: Bytes, c: Bytes)
    requires s.front.workers == [Reading(p, |c|)] && c in contents
    ensures Obeys(cfg, s, ReadAndSend(c), SteadyRule(contents))
  {
    CleanSend(cfg, contents, s, p, c);
    SteadyIfClean(cfg, contents, s, ReadAndSend(c));
  }

  lemma {:induction false} SteadyIfClean(cfg: Config, contents: set<Bytes>, s: State, acts: seq<Action>)
    requires Obeys(cfg, s, acts, CleanRule(contents)) && forall a | a in acts :: a.Check? ==> a.seen != Modified
    ensures Obeys(cfg, s, acts, SteadyRule(contents))
  {
    forall i | 0 <= i < |acts|
      ensures SteadyRule(contents)(Run(cfg, s, acts[..i]), acts[i])
    {
      assert acts[i] in acts && CleanRule(contents)(Run(cfg, s, acts[..i]), acts[i]);
    }
  }

  ghost predicate NeverMissing(cfg: Config, contents: set<Bytes>) {
    forall items: seq<Item>, workers: nat, cas0: map<Name, Bytes>, acts: seq<Action> ::
      Obeys(cfg, Init(cfg, items, workers, cas0), acts, SteadyRule(contents))
      ==> !Missing(Run(cfg, Init(cfg, items, workers, cas0), acts))
  }

  /** While no file changes, no commit of any run over the contents misses its temporary file exactly
      when small contents that share four bytes of hash belong to the same blob, whatever writes fail. */
  lemma {:induction false} NoTempIsMissingExactly(cfg: Config, contents: set<Bytes>)
    ensures NeverMissing(cfg, contents) <==> SameBlobs(cfg, contents)
  {
    if SameBlobs(cfg, contents) {
      forall items: seq<Item>, workers: nat, cas0: map<Name, Bytes>, acts: seq<Action>
        | Obeys(cfg, Init(cfg, items, workers, cas0), acts, SteadyRule(contents))
        ensures !Missing(Run(cfg, Init(cfg, items, workers, cas0), acts))
      {
        RunSteady(cfg, contents, items, workers, cas0, acts);
        CalmIsNotMissing(Run(cfg, Init(cfg, items, workers, cas0), acts));
      }
    } else {
      var c, d :| c in contents && d in contents && Small(cfg, c) && Small(cfg, d)
                  && Prefix4(cfg.hash(c)) == Prefix4(cfg.hash(d)) && BlobOf(cfg, c) != BlobOf(cfg, d);
      var acts := ClashLosesTemp(cfg, contents, c, d);
      assert Obeys(cfg, Init(cfg, Pair(c, d), 1, map[]), acts, SteadyRule(contents));
    }
  }

  lemma {:induction false} CalmIsNotMissing(s: State)
    requires Calm(s)
    ensures !Missing(s)
  {
    if s.back.committer.Committing? && s.back.committer.rest != [] {
      assert InFlight(s, s.back.committer.rest[0]);
    }
  }
}
