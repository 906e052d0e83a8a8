/** What holds throughout every run of the streaming pipeline, and when it ends. */
module PipelineRuns {
  import opened Bytes
  import opened Pipeline

  // ---------------------------------------------------------------- the batch

  function AtLeastOne(n: nat): nat {
    if n == 0 then 1 else n
  }

  /** How full the batch may be at each point of the committer's loop. */
  predicate BatchFits(cfg: Config, b: Back) {
    match b.committer
    case Outer => |b.batch| < AtLeastOne(cfg.batchSize)
    case Draining => |b.batch| <= AtLeastOne(cfg.batchSize)
    case Added => |b.batch| <= AtLeastOne(cfg.batchSize) + 1
    case _ => b.batch == []
  }

  lemma {:induction false} StepBatchFits(cfg: Config, s: State, a: Action)
    requires BatchFits(cfg, s.back)
    ensures BatchFits(cfg, Step(cfg, s, a).back)
  {
    match a
    case Receive =>
    case Drain =>
    case Decide =>
    case EndDrain =>
    case CommitOne(ok) =>
    case _ =>
  }

  // ---------------------------------------------------------------- open handles

  /** A handle whose file became a blob leads to one that this run added. */
  ghost predicate Placed(s: State, cas: map<Name, Bytes>) {
    forall i | 0 <= i < |s.front.workers| :: PlaceOk(s.front.workers[i], s.back.cas, cas)
  }

  predicate PlaceOk(x: Worker, now: map<Name, Bytes>, cas: map<Name, Bytes>) {
    x.Writing? && x.place.AtBlob? ==> x.place.name in now && x.place.name !in cas
  }

  lemma {:induction false} StepPlaced(cfg: Config, s: State, a: Action, cas: map<Name, Bytes>)
    requires Placed(s, cas) && Stored(s.back, cas)
    ensures Placed(Step(cfg, s, a), cas)
  {
    match a
    case Take(w, found) =>
    case Acquire(w) =>
    case Read(w, c) =>
    case Write(w, k) =>
    case Check(w, seen) =>
    case Send(w) =>
    case Exit(w, sentinel) =>
    case CommitOne(ok) => CommitPlaced(cfg, s, ok, cas);
    case _ =>
  }

  lemma {:induction false} CommitPlaced(cfg: Config, s: State, ok: bool, cas: map<Name, Bytes>)
    requires Placed(s, cas) && Stored(s.back, cas)
    ensures Placed(Step(cfg, s, CommitOne(ok)), cas)
  {
    var s' := Step(cfg, s, CommitOne(ok));
    assert forall n :: n in s.back.cas ==> n in s'.back.cas;
    forall i | 0 <= i < |s'.front.workers|
      ensures PlaceOk(s'.front.workers[i], s'.back.cas, cas)
    {
      assert PlaceOk(s.front.workers[i], s.back.cas, cas);
    }
  }

  // ---------------------------------------------------------------- the counters

  /** Files counted are in the batch, being committed or committed; every committed file was a
      duplicate or added one blob. */
  predicate Tallied(b: Back, before: nat) {
    && b.processed == |b.batch| + |Rest(b.committer)| + |b.committed|
    && b.deduplicated + |b.cas| == |b.committed| + before
  }

  lemma {:induction false} StepTallies(cfg: Config, s: State, a: Action, cas: map<Name, Bytes>)
    requires Tallied(s.back, |cas|) && BatchFits(cfg, s.back) && Placed(s, cas)
    ensures Tallied(Step(cfg, s, a).back, |cas|)
  {
    match a
    case Write(w, k) => WriteTallies(cfg, s, w, k, cas);
    case Receive =>
    case Drain =>
    case Decide =>
    case EndDrain =>
    case Timeout =>
    case CommitOne(ok) => CommitTallies(s.back, s.temps, ok, |cas|);
    case Disconnect =>
    case _ =>
  }

  lemma {:induction false} CommitTallies(b: Back, temps: Temps, ok: bool, before: nat)
    requires Tallied(b, before)
    ensures Tallied(CommitStep(b, temps, ok), before)
  {
    if TurnOf(b, temps, ok).Rename? {
      OneMore(b.cas, NameOf(b.committer.rest[0]), temps[b.committer.rest[0].temp]);
    }
  }

  lemma {:induction false} WriteTallies(cfg: Config, s: State, w: nat, k: nat, cas: map<Name, Bytes>)
    requires Tallied(s.back, |cas|) && Placed(s, cas)
    ensures Tallied(Step(cfg, s, Write(w, k)).back, |cas|)
  {
    if w < |s.front.workers| && s.front.workers[w].Writing? && s.front.workers[w].place.AtBlob? {
      var n := s.front.workers[w].place.name;
      assert s.back.cas[n := Written(s.front.workers[w], k)].Keys == s.back.cas.Keys;
    }
  }

  lemma {:induction false} OneMore(m: map<Name, Bytes>, n: Name, c: Bytes)
    requires n !in m
    ensures |m[n := c]| == |m| + 1
  {
    assert m[n := c].Keys == m.Keys + {n};
  }

  // ---------------------------------------------------------------- the store

  /** The store only grows, and holds a blob under every committed file's name. */
  ghost predicate Stored(b: Back, cas: map<Name, Bytes>) {
    && (forall n :: n in cas ==> n in b.cas && b.cas[n] == cas[n])
    && (forall i | 0 <= i < |b.committed| :: NameOf(b.committed[i]) in b.cas)
  }

  lemma {:induction false} StepStored(cfg: Config, s: State, a: Action, cas: map<Name, Bytes>)
    requires Stored(s.back, cas) && Placed(s, cas)
    ensures Stored(Step(cfg, s, a).back, cas)
  {
    match a
    case Write(w, k) => WriteStored(cfg, s, w, k, cas);
    case CommitOne(ok) => CommitStored(cfg, s, ok, cas);
    case _ =>
  }

  lemma {:induction false} WriteStored(cfg: Config, s: State, w: nat, k: nat, cas: map<Name, Bytes>)
    requires Stored(s.back, cas) && Placed(s, cas)
    ensures Stored(Step(cfg, s, Write(w, k)).back, cas)
  {
    if w < |s.front.workers| {
      assert PlaceOk(s.front.workers[w], s.back.cas, cas);
    }
  }

  lemma {:induction false} CommitStored(cfg: Config, s: State, ok: bool, cas: map<Name, Bytes>)
    requires Stored(s.back, cas)
    ensures Stored(Step(cfg, s, CommitOne(ok)).back, cas)
  {
    match TurnOf(s.back, s.temps, ok) case Nothing => case Duplicate => case Failure => case Rename =>
  }

  // ---------------------------------------------------------------- the walk

  /** A path the walk found is still to be scanned, in the channel, or claimed. */
  ghost predicate Reached(s: Front, p: Bytes) {
    p in s.seen || Walks(s.toScan, p) || Walks(s.paths, p)
  }

  ghost predicate Walks(items: seq<Item>, p: Bytes) {
    exists i :: 0 <= i < |items| && items[i].Walked? && items[i].path == p
  }

  lemma {:induction false} StepReaches(cfg: Config, s: State, a: Action, p: Bytes)
    requires Reached(s.front, p)
    ensures Reached(Step(cfg, s, a).front, p)
  {
    match a
    case Scan => ScanReaches(cfg, s.front, p);
    case Take(w, found) => TakeReaches(s.front, w, found, p);
    case _ =>
  }

  lemma {:induction false} ScanReaches(cfg: Config, s: Front, p: Bytes)
    requires Reached(s, p)
    ensures Reached(ScanStep(cfg, s), p)
  {
    var s' := ScanStep(cfg, s);
    if s' != s {
      if i :| 0 <= i < |s.toScan| && s.toScan[i].Walked? && s.toScan[i].path == p {
        if i == 0 {
          assert s'.paths[|s.paths|] == s.toScan[0];
        } else {
          assert s'.toScan[i - 1] == s.toScan[i];
        }
      }
      if i :| 0 <= i < |s.paths| && s.paths[i].Walked? && s.paths[i].path == p {
        assert s'.paths[i] == s.paths[i];
      }
    }
  }

  lemma {:induction false} TakeReaches(s: Front, w: nat, found: Option<nat>, p: Bytes)
    requires Reached(s, p)
    ensures Reached(TakeStep(s, w, found), p)
  {
    var s' := TakeStep(s, w, found);
    if i :| 0 <= i < |s.paths| && s.paths[i].Walked? && s.paths[i].path == p {
      if s'.paths != s.paths && i > 0 {
        assert s'.paths[i - 1] == s.paths[i];
      }
    }
  }

  // ---------------------------------------------------------------- whole runs

  /** Workers return only when nothing is left to take, and the committer leaves its loop only when
      all have returned and nothing is left to receive. */
  predicate EndsInOrder(s: State) {
    && (s.front.mark != Unsent ==> s.front.toScan == [])
    && (Exited in s.front.workers ==> s.front.paths == [] && s.front.mark == Taken)
    && (s.back.committer.Finished? ==> Closed(s.front) && s.back.commits == [])
  }

  lemma {:induction false} StepEndsInOrder(cfg: Config, s: State, a: Action)
    requires EndsInOrder(s)
    ensures EndsInOrder(Step(cfg, s, a)) && |Step(cfg, s, a).front.workers| == |s.front.workers|
  {
    match a
    case Scan =>
    case Take(w, found) => WorkerEndsInOrder(cfg, s, a);
    case Acquire(w) => WorkerEndsInOrder(cfg, s, a);
    case Read(w, c) => WorkerEndsInOrder(cfg, s, a);
    case Write(w, k) => WorkerEndsInOrder(cfg, s, a);
    case Check(w, seen) => WorkerEndsInOrder(cfg, s, a);
    case Send(w) => WorkerEndsInOrder(cfg, s, a);
    case Exit(w, sentinel) => ExitEndsInOrder(cfg, s, w, sentinel);
    case Disconnect =>
    case CommitOne(ok) => WorkerEndsInOrder(cfg, s, a);
    case _ =>
  }

  /** No other step makes a worker return, or starts one that has. */
  lemma {:induction false} WorkerEndsInOrder(cfg: Config, s: State, a: Action)
    requires EndsInOrder(s)
    requires a.Take? || a.Acquire? || a.Read? || a.Write? || a.Check? || a.Send? || a.CommitOne?
    ensures EndsInOrder(Step(cfg, s, a)) && |Step(cfg, s, a).front.workers| == |s.front.workers|
  {
    var s' := Step(cfg, s, a);
    assert forall i | 0 <= i < |s.front.workers| :: s'.front.workers[i] == Exited <==> s.front.workers[i] == Exited;
    if Exited in s'.front.workers {
      var i :| 0 <= i < |s'.front.workers| && s'.front.workers[i] == Exited;
      assert s.front.workers[i] == Exited;
    }
  }

  lemma {:induction false} ExitEndsInOrder(cfg: Config, s: State, w: nat, sentinel: bool)
    requires EndsInOrder(s)
    ensures EndsInOrder(Step(cfg, s, Exit(w, sentinel)))
    ensures |Step(cfg, s, Exit(w, sentinel)).front.workers| == |s.front.workers|
  {
    var s' := Step(cfg, s, Exit(w, sentinel));
    if CanExit(s.front, w) {
      assert !Closed(s.front);
      assert s'.back.committer == s.back.committer;
    }
  }

  ghost predicate Inv(cfg: Config, items: seq<Item>, workers: nat, cas: map<Name, Bytes>, s: State) {
    && Conserved(cfg, s.front) && Pathful(s.front) && BatchFits(cfg, s.back) && Tallied(s.back, |cas|)
    && Stored(s.back, cas) && Placed(s, cas) && EndsInOrder(s) && |s.front.workers| == workers
    && (forall p :: Staged(s, p))
    && (forall p :: Walks(items, p) ==> Reached(s.front, p))
  }

  lemma {:induction false} InitInv(cfg: Config, items: seq<Item>, workers: nat, cas: map<Name, Bytes>)
    requires HavePaths(items)
    ensures Inv(cfg, items, workers, cas, Init(cfg, items, workers, cas))
  {
    var s := Init(cfg, items, workers, cas);
    IdleWorkers(cfg, s.front.workers);
  }

  lemma {:induction false} IdleWorkers(cfg: Config, ws: seq<Worker>)
    requires forall i | 0 <= i < |ws| :: ws[i] == Idle || ws[i] == Exited
    ensures Held(cfg, ws) == 0
    ensures forall p :: InWorkers(ws, p) == 0
    decreases |ws|
  {
    if ws != [] {
      IdleWorkers(cfg, ws[..|ws| - 1]);
    }
  }

  lemma {:induction false} StepKeepsInv(cfg: Config, items: seq<Item>, workers: nat, cas: map<Name, Bytes>,
                                        s: State, a: Action)
    requires Inv(cfg, items, workers, cas, s)
    ensures Inv(cfg, items, workers, cas, Step(cfg, s, a))
  {
    StepConserves(cfg, s, a);
    StepPathful(cfg, s, a);
    StepBatchFits(cfg, s, a);
    StepTallies(cfg, s, a, cas);
    StepStored(cfg, s, a, cas);
    StepPlaced(cfg, s, a, cas);
    StepEndsInOrder(cfg, s, a);
    forall p ensures Staged(Step(cfg, s, a), p) { StepStages(cfg, s, a, p); }
    forall p | Walks(items, p) ensures Reached(Step(cfg, s, a).front, p) { StepReaches(cfg, s, a, p); }
  }

  lemma {:induction false} RunKeepsInv(cfg: Config, items: seq<Item>, workers: nat, cas: map<Name, Bytes>,
                                       acts: seq<Action>)
    requires HavePaths(items)
    ensures Inv(cfg, items, workers, cas, Run(cfg, Init(cfg, items, workers, cas), acts))
    decreases |acts|
  {
    if acts == [] {
      InitInv(cfg, items, workers, cas);
    } else {
      var front := acts[..|acts| - 1];
      RunKeepsInv(cfg, items, workers, cas, front);
      StepKeepsInv(cfg, items, workers, cas, Run(cfg, Init(cfg, items, workers, cas), front), acts[|acts| - 1]);
    }
  }

  /** At every point of every run: a claimed path is in exactly one stage and any other in none, the
      outstanding permits and the available bytes make up the budget, and the batch holds at most
      one file more than its size, or than one when its size is zero. */
  lemma {:induction false} EveryStep(cfg: Config, items: seq<Item>, workers: nat, cas: map<Name, Bytes>,
                                     acts: seq<Action>, p: Bytes)
    requires HavePaths(items)
    ensures var s := Run(cfg, Init(cfg, items, workers, cas), acts);
            && InFront(s.front, p) + InBack(s.back, p) == One(p in s.front.seen)
            && s.front.available + Held(cfg, s.front.workers) == cfg.budget
            && |s.back.batch| <= AtLeastOne(cfg.batchSize) + 1
  {
    RunKeepsInv(cfg, items, workers, cas, acts);
    var s := Run(cfg, Init(cfg, items, workers, cas), acts);
    assert Staged(s, p);
  }

  /** At the end: with at least one worker every path the walk found was committed or given up, once;
      every permit is back; the files counted are the blobs added and the files deduplicated; and
      every committed file has its blob. */
  lemma {:induction false} AtTheEnd(cfg: Config, items: seq<Item>, workers: nat, cas: map<Name, Bytes>,
                                    acts: seq<Action>, p: Bytes)
    requires HavePaths(items)
    ensures var s := Run(cfg, Init(cfg, items, workers, cas), acts);
            s.back.committer.Finished? ==>
              && (Walks(items, p) && workers > 0 ==> p in s.front.seen)
              && InFiles(s.back.committed, p) + InPaths(s.front.failed, p) == One(p in s.front.seen)
              && s.front.available == cfg.budget
              && s.back.processed == |s.back.committed| == (|s.back.cas| - |cas|) + s.back.deduplicated
              && Stored(s.back, cas)
  {
    RunKeepsInv(cfg, items, workers, cas, acts);
    var s := Run(cfg, Init(cfg, items, workers, cas), acts);
    if s.back.committer.Finished? {
      IdleWorkers(cfg, s.front.workers);
      assert Staged(s, p);
      if Walks(items, p) && workers > 0 {
        assert Reached(s.front, p) && s.front.workers[0] == Exited;
      }
    }
  }

  // ---------------------------------------------------------------- a batch of size zero

  function Empties(): seq<Item> {
    [Walked([1], 0), Walked([2], 0)]
  }

  /** With a batch size of zero the batch can hold two files: the second is added while draining, before
      the committer looks at the batch. */
  lemma {:induction false} ZeroBatchHoldsTwo(cfg: Config) returns (acts: seq<Action>)
    requires cfg.batchSize == 0
    ensures |Run(cfg, Init(cfg, Empties(), 1, map[]), acts).back.batch| == 2
  {
    var s0 := Init(cfg, Empties(), 1, map[]);
    assert s0.front.workers == [Idle];
    var s1 := BegunNext(cfg, s0, [1], 0);
    var f := FileRead(cfg, s1, [1], []);
    var s2 := ReadAndSent(cfg, s1, [1], []);
    assert s2.front.workers == [Idle];
    var s3 := Step(cfg, s2, Receive);
    assert s3.back.commits == [] && s3.back.batch == [f];
    var rest := SecondJoins(cfg, s3, f);
    acts := BEGIN + ReadAndSend([]) + [Receive] + rest;
    RunConcat(cfg, s0, BEGIN + ReadAndSend([]) + [Receive], rest);
    RunConcat(cfg, s0, BEGIN + ReadAndSend([]), [Receive]);
    RunConcat(cfg, s0, BEGIN, ReadAndSend([]));
    RunOne(cfg, s2, Receive);
  }

  lemma {:induction false} SecondJoins(cfg: Config, s: State, f: File) returns (acts: seq<Action>)
    requires s.front.workers == [Idle] && s.front.paths == [] && s.front.toScan == [Walked([2], 0)]
    requires [2] !in s.front.seen && s.front.mark == Unsent
    requires s.back.commits == [] && s.back.batch == [f] && s.back.committer == Draining
    ensures |Run(cfg, s, acts).back.batch| == 2
  {
    var s1 := BegunNext(cfg, s, [2], 0);
    var s2 := ReadAndSent(cfg, s1, [2], []);
    acts := BEGIN + ReadAndSend([]) + [Drain];
    RunConcat(cfg, s, BEGIN + ReadAndSend([]), [Drain]);
    RunConcat(cfg, s, BEGIN, ReadAndSend([]));
    RunOne(cfg, s2, Drain);
  }

  ghost predicate BatchBounded(cfg: Config) {
    forall items: seq<Item>, workers: nat, cas: map<Name, Bytes>, acts: seq<Action> ::
      HavePaths(items) ==> |Run(cfg, Init(cfg, items, workers, cas), acts).back.batch| <= cfg.batchSize + 1
  }

  /** The batch never holds more than one file above its size, in any run, exactly when that size is at
      least one. */
  lemma {:induction false} BatchBoundExactly(cfg: Config)
    ensures BatchBounded(cfg) <==> cfg.batchSize >= 1
  {
    if cfg.batchSize >= 1 {
      forall items: seq<Item>, workers: nat, cas: map<Name, Bytes>, acts: seq<Action> | HavePaths(items)
        ensures |Run(cfg, Init(cfg, items, workers, cas), acts).back.batch| <= cfg.batchSize + 1
      {
        EveryStep(cfg, items, workers, cas, acts, []);
      }
    } else {
      var acts := ZeroBatchHoldsTwo(cfg);
      assert HavePaths(Empties());
    }
  }

  // ---------------------------------------------------------------- putting runs together

  lemma {:induction false} RunTwo(cfg: Config, s: State, a: Action, b: Action)
    ensures Run(cfg, s, [a, b]) == Step(cfg, Step(cfg, s, a), b)
  {
    RunOne(cfg, s, a);
    assert [a, b][..1] == [a];
  }

  lemma {:induction false} RunConcat(cfg: Config, s: State, a: seq<Action>, b: seq<Action>)
    ensures Run(cfg, s, a + b) == Run(cfg, Run(cfg, s, a), b)
    decreases |b|
  {
    if b == [] {
      assert a + b == a;
    } else {
      RunConcat(cfg, s, a, b[..|b| - 1]);
      assert (a + b)[..|a + b| - 1] == a + b[..|b| - 1];
    }
  }

  /** The scanner sends one item to the first worker, which claims it and gets its permit. */
  const BEGIN := [Scan] + [Take(0, None), Acquire(0)]

  lemma {:induction false} BegunNext(cfg: Config, s: State, p: Bytes, n: nat) returns (s': State)
    requires s.front.workers != [] && s.front.workers[0] == Idle && s.front.paths == [] && s.front.mark == Unsent
    requires s.front.toScan != [] && s.front.toScan[0] == Walked(p, n)
    requires p !in s.front.seen && Permit(cfg, n) <= s.front.available
    ensures s' == Run(cfg, s, BEGIN)
    ensures s'.front == s.front.(workers := s.front.workers[0 := Reading(p, n)], toScan := s.front.toScan[1..],
                                 seen := s.front.seen + {p}, available := s.front.available - Permit(cfg, n))
    ensures s'.back == s.back && s'.temps == s.temps
  {
    var ws := s.front.workers;
    var s1 := Step(cfg, s, Scan);
    assert s1.front.paths == [Walked(p, n)];
    var s2 := Step(cfg, s1, Take(0, None));
    assert s2.front.workers == ws[0 := Waiting(p, n)] && s2.front.paths == [];
    s' := Step(cfg, s2, Acquire(0));
    assert ws[0 := Waiting(p, n)][0 := Reading(p, n)] == ws[0 := Reading(p, n)];
    RunConcat(cfg, s, [Scan], [Take(0, None), Acquire(0)]);
    RunOne(cfg, s, Scan);
    RunTwo(cfg, s1, Take(0, None), Acquire(0));
  }

  /** From there the file is read whole and written at once. */
  function ReadAndWrite(c: Bytes): seq<Action> {
    [Read(0, Some(c)), Write(0, |c|)]
  }

  /** And sent. */
  function ReadAndSend(c: Bytes): seq<Action> {
    ReadAndWrite(c) + [Check(0, Same), Send(0)]
  }

  function FileRead(cfg: Config, s: State, p: Bytes, c: Bytes): File {
    File(p, cfg.hash(c), |c|, TempFor(cfg, s.front.nextId, 0, |c|, cfg.hash(c)))
  }

  lemma {:induction false} ReadAndWritten(cfg: Config, s: State, p: Bytes, c: Bytes) returns (s': State)
    requires s.front.workers != [] && s.front.workers[0] == Reading(p, |c|)
    ensures s' == Run(cfg, s, ReadAndWrite(c))
    ensures var f := FileRead(cfg, s, p, c);
            && s'.front == s.front.(workers := s.front.workers[0 := Checking(f)], nextId := s.front.nextId + 1)
            && s'.temps == s.temps[f.temp := c] && s'.back == s.back
  {
    var f := FileRead(cfg, s, p, c);
    var ws := s.front.workers;
    var s1 := Step(cfg, s, Read(0, Some(c)));
    assert s1.front.workers == ws[0 := Writing(f, c, 0, AtTemp)];
    s' := Step(cfg, s1, Write(0, |c|));
    assert ws[0 := Writing(f, c, 0, AtTemp)][0 := Checking(f)] == ws[0 := Checking(f)] && c[..|c|] == c;
    assert s.temps[f.temp := []][f.temp := c] == s.temps[f.temp := c];
    RunTwo(cfg, s, Read(0, Some(c)), Write(0, |c|));
  }

  lemma {:induction false} ReadAndSent(cfg: Config, s: State, p: Bytes, c: Bytes) returns (s': State)
    requires s.front.workers != [] && s.front.workers[0] == Reading(p, |c|) && CanPut(cfg, s.back)
    ensures s' == Run(cfg, s, ReadAndSend(c))
    ensures s'.front == s.front.(workers := s.front.workers[0 := Idle], nextId := s.front.nextId + 1,
                                 available := s.front.available + Permit(cfg, |c|))
    ensures s'.temps == s.temps[FileRead(cfg, s, p, c).temp := c]
    ensures s'.back == s.back.(commits := s.back.commits + [FileRead(cfg, s, p, c)])
  {
    var f := FileRead(cfg, s, p, c);
    var ws := s.front.workers;
    var s2 := ReadAndWritten(cfg, s, p, c);
    var s3 := Step(cfg, s2, Check(0, Same));
    assert s3.front.workers == ws[0 := Sending(f)];
    s' := Step(cfg, s3, Send(0));
    assert ws[0 := Sending(f)][0 := Idle] == ws[0 := Idle];
    RunConcat(cfg, s, ReadAndWrite(c), [Check(0, Same), Send(0)]);
    RunTwo(cfg, s2, Check(0, Same), Send(0));
  }

  /** The committer has received one file, and starts to commit it, whatever the batch size. */
  const COMMIT := [EndDrain, Timeout]

  lemma {:induction false} CommitStarts(cfg: Config, s: State, f: File) returns (s': State)
    requires s.back.commits == [] && s.back.batch == [f] && s.back.committer == Draining
    ensures s' == Run(cfg, s, COMMIT)
    ensures s'.back == s.back.(batch := [], committer := Committing([f], false))
    ensures s'.temps == s.temps && s'.front == s.front
  {
    var s1 := Step(cfg, s, EndDrain);
    s' := Step(cfg, s1, Timeout);
    RunTwo(cfg, s, EndDrain, Timeout);
  }

  // ---------------------------------------------------------------- rules over runs

  /** What every action of a run may do in the state it meets. */
  type Rule = (State, Action) -> bool

  ghost predicate Obeys(cfg: Config, s: State, acts: seq<Action>, ok: Rule) {
    forall i | 0 <= i < |acts| :: ok(Run(cfg, s, acts[..i]), acts[i])
  }

  lemma {:induction false} ObeysFront(cfg: Config, s: State, acts: seq<Action>, ok: Rule)
    requires acts != [] && Obeys(cfg, s, acts, ok)
    ensures Obeys(cfg, s, acts[..|acts| - 1], ok) && ok(Run(cfg, s, acts[..|acts| - 1]), acts[|acts| - 1])
  {
    var front := acts[..|acts| - 1];
    assert forall i | 0 <= i < |front| :: front[..i] == acts[..i] && front[i] == acts[i];
  }

  lemma {:induction false} ObeysConcat(cfg: Config, s: State, a: seq<Action>, b: seq<Action>, ok: Rule)
    requires Obeys(cfg, s, a, ok) && Obeys(cfg, Run(cfg, s, a), b, ok)
    ensures Obeys(cfg, s, a + b, ok)
  {
    forall i | 0 <= i < |a + b|
      ensures ok(Run(cfg, s, (a + b)[..i]), (a + b)[i])
    {
      if i < |a| {
        assert (a + b)[..i] == a[..i];
      } else {
        assert (a + b)[..i] == a + b[..i - |a|];
        RunConcat(cfg, s, a, b[..i - |a|]);
      }
    }
  }

  lemma {:induction false} Then(cfg: Config, s: State, a: seq<Action>, b: seq<Action>, ok: Rule)
    requires Obeys(cfg, s, a, ok) && Obeys(cfg, Run(cfg, s, a), b, ok)
    ensures Obeys(cfg, s, a + b, ok) && Run(cfg, s, a + b) == Run(cfg, Run(cfg, s, a), b)
  {
    RunConcat(cfg, s, a, b);
    ObeysConcat(cfg, s, a, b, ok);
  }

  lemma {:induction false} ThreeParts(cfg: Config, s: State, a: seq<Action>, b: seq<Action>, c: seq<Action>, ok: Rule)
    requires Obeys(cfg, s, a, ok) && Obeys(cfg, Run(cfg, s, a), b, ok) && Obeys(cfg, Run(cfg, Run(cfg, s, a), b), c, ok)
    ensures Obeys(cfg, s, a + b + c, ok) && Run(cfg, s, a + b + c) == Run(cfg, Run(cfg, Run(cfg, s, a), b), c)
  {
    Then(cfg, s, a, b, ok);
    Then(cfg, s, a + b, c, ok);
  }

  /** A rule that allows some actions anywhere is obeyed by any run of those. */
  lemma {:induction false} ObeysAnywhere(cfg: Config, s: State, acts: seq<Action>, ok: Rule)
    requires forall t, a | a in acts :: ok(t, a)
    ensures Obeys(cfg, s, acts, ok)
  {
  }

  lemma {:induction false} RunOne(cfg: Config, s: State, a: Action)
    ensures Run(cfg, s, [a]) == Step(cfg, s, a)
  {
    assert [a][..0] == [];
    assert Run(cfg, s, [a]) == Step(cfg, Run(cfg, s, []), a);
  }
}
