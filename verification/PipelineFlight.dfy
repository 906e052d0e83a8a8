/** Files in flight in the streaming pipeline, and the names of their temporary files. */
module PipelineFlight {
  import opened Bytes
  import opened Pipeline
  import opened PipelineRuns

  /** A read that goes on to create a temporary file. */
  predicate Creates(s: State, a: Action) {
    a.Read? && a.content.Some? && a.w < |s.front.workers| && s.front.workers[a.w].Reading?
  }

  // ---------------------------------------------------------------- files in flight

  predicate Carries(w: Worker, f: File) {
    (w.Writing? && w.file == f) || w == Checking(f) || w == Sending(f)
  }

  /** A file with a temporary file behind it: with a worker, or on its way into the store. */
  ghost predicate InFlight(s: State, f: File) {
    || (exists i :: 0 <= i < |s.front.workers| && Carries(s.front.workers[i], f))
    || Behind(s.back, f)
  }

  predicate Behind(b: Back, f: File) {
    (f in b.commits && !IsSentinel(f)) || f in b.batch || f in Rest(b.committer)
  }

  /** The file that a read puts into flight. */
  function NewFile(cfg: Config, s: State, a: Action): File
    requires Creates(s, a)
  {
    ReadFile(cfg, s.front, a.w, a.content.value)
  }

  lemma {:induction false} FlightStep(cfg: Config, s: State, a: Action, f: File)
    requires InFlight(Step(cfg, s, a), f)
    ensures InFlight(s, f) || (Creates(s, a) && f == NewFile(cfg, s, a))
  {
    if Behind(Step(cfg, s, a).back, f) {
      BehindStep(cfg, s, a, f);
    } else {
      var i :| 0 <= i < |Step(cfg, s, a).front.workers| && Carries(Step(cfg, s, a).front.workers[i], f);
      CarriesStep(cfg, s, a, i, f);
    }
  }

  /** A worker goes on with its file, or has just begun with it. */
  lemma {:induction false} CarriesStep(cfg: Config, s: State, a: Action, i: nat, f: File)
    requires i < |Step(cfg, s, a).front.workers| && Carries(Step(cfg, s, a).front.workers[i], f)
    ensures i < |s.front.workers|
    ensures Carries(s.front.workers[i], f) || (Creates(s, a) && f == NewFile(cfg, s, a) && i == a.w)
  {
    match a
    case Scan =>
    case Take(w, found) =>
    case Acquire(w) =>
    case Read(w, c) =>
    case Write(w, k) =>
    case Check(w, seen) =>
    case Send(w) =>
    case Exit(w, sentinel) =>
    case CommitOne(ok) =>
    case _ =>
  }

  /** A file behind was there before, or a worker has just sent it. */
  lemma {:induction false} BehindStep(cfg: Config, s: State, a: Action, f: File)
    requires Behind(Step(cfg, s, a).back, f)
    ensures Behind(s.back, f) || (a.Send? && CanSend(cfg, s, a.w) && s.front.workers[a.w] == Sending(f))
  {
    match a
    case Send(w) =>
    case Exit(w, sentinel) =>
    case Receive =>
    case Drain =>
    case Decide =>
    case EndDrain =>
    case Timeout =>
    case CommitOne(ok) => CommitBehind(s.back, s.temps, ok, f);
    case Disconnect =>
    case Write(w, k) =>
    case _ =>
  }

  lemma {:induction false} CommitBehind(b: Back, temps: Temps, ok: bool, f: File)
    requires Behind(CommitStep(b, temps, ok), f)
    ensures Behind(b, f)
  {
    match TurnOf(b, temps, ok) case Nothing => case Duplicate => case Failure => case Rename =>
  }

  // ---------------------------------------------------------------- temporary names

  /** Two small files share a temporary name exactly when one worker reads both and their hashes begin with
      the same four bytes; a large file's name is its own. */
  lemma {:induction false} SameTempExactly(cfg: Config, id: nat, w: nat, n: nat, h: Bytes, id': nat, w': nat, n': nat,
                                           h': Bytes)
    requires |h| >= 4 && |h'| >= 4
    ensures TempFor(cfg, id, w, n, h) == TempFor(cfg, id', w', n', h') <==>
            if n < cfg.threshold && n' < cfg.threshold then w == w' && forall i | 0 <= i < 4 :: h[i] == h'[i]
            else n >= cfg.threshold && n' >= cfg.threshold && id == id'
  {
    if h[..4] == h'[..4] {
      assert forall i | 0 <= i < 4 :: h[i] == h[..4][i] == h'[..4][i] == h'[i];
    }
  }

  /** A fresh name was drawn from the counter. */
  predicate DrawnBelow(next: nat, f: File) {
    f.temp.Fresh? ==> f.temp.id < next
  }

  /** A worker's file is named after the worker, or by a name that no other file in flight has. */
  ghost predicate Own(s: State, i: nat, f: File) {
    match f.temp
    case Short(p, w) => w == i
    case Fresh(id) =>
      && (forall g :: Behind(s.back, g) ==> g.temp != f.temp)
      && (forall j, g | 0 <= j < |s.front.workers| && j != i && Carries(s.front.workers[j], g) :: g.temp != f.temp)
  }

  ghost predicate NamesOk(s: State) {
    && (forall f :: InFlight(s, f) ==> DrawnBelow(s.front.nextId, f))
    && (forall i, f | 0 <= i < |s.front.workers| && Carries(s.front.workers[i], f) :: Own(s, i, f))
  }

  lemma {:induction false} NextIdGrows(cfg: Config, s: State, a: Action)
    ensures Step(cfg, s, a).front.nextId == if Creates(s, a) then s.front.nextId + 1 else s.front.nextId
  {
  }

  lemma {:induction false} StepNames(cfg: Config, s: State, a: Action)
    requires NamesOk(s)
    ensures NamesOk(Step(cfg, s, a))
  {
    var s' := Step(cfg, s, a);
    NextIdGrows(cfg, s, a);
    forall f | InFlight(s', f)
      ensures DrawnBelow(s'.front.nextId, f)
    {
      FlightStep(cfg, s, a, f);
    }
    forall i, f | 0 <= i < |s'.front.workers| && Carries(s'.front.workers[i], f)
      ensures Own(s', i, f)
    {
      CarriesStep(cfg, s, a, i, f);
      if Carries(s.front.workers[i], f) {
        OwnStays(cfg, s, a, i, f);
      } else {
        OwnAtFirst(cfg, s, a, f);
      }
    }
  }

  lemma {:induction false} OwnAtFirst(cfg: Config, s: State, a: Action, f: File)
    requires NamesOk(s) && Creates(s, a) && f == NewFile(cfg, s, a)
    ensures Own(Step(cfg, s, a), a.w, f)
  {
    var s' := Step(cfg, s, a);
    forall j, g | 0 <= j < |s'.front.workers| && j != a.w && Carries(s'.front.workers[j], g)
      ensures f.temp.Fresh? ==> g.temp != f.temp
    {
      CarriesStep(cfg, s, a, j, g);
      assert InFlight(s, g);
      assert DrawnBelow(s.front.nextId, g);
    }
    forall g | Behind(s'.back, g)
      ensures f.temp.Fresh? ==> g.temp != f.temp
    {
      assert InFlight(s, g);
      assert DrawnBelow(s.front.nextId, g);
    }
  }

  lemma {:induction false} OwnStays(cfg: Config, s: State, a: Action, i: nat, f: File)
    requires NamesOk(s)
    requires i < |s.front.workers| && Carries(s.front.workers[i], f)
    requires i < |Step(cfg, s, a).front.workers| && Carries(Step(cfg, s, a).front.workers[i], f)
    ensures Own(Step(cfg, s, a), i, f)
  {
    var s' := Step(cfg, s, a);
    assert Own(s, i, f) && InFlight(s, f);
    assert DrawnBelow(s.front.nextId, f);
    forall j, g | 0 <= j < |s'.front.workers| && j != i && Carries(s'.front.workers[j], g)
      ensures f.temp.Fresh? ==> g.temp != f.temp
    {
      CarriesStep(cfg, s, a, j, g);
    }
    forall g | Behind(s'.back, g)
      ensures f.temp.Fresh? ==> g.temp != f.temp
    {
      BehindStep(cfg, s, a, g);
      if !Behind(s.back, g) {
        assert Carries(s.front.workers[a.w], g);
        SentIsIdle(cfg, s, a.w);
      }
    }
  }

  lemma {:induction false} SentIsIdle(cfg: Config, s: State, w: nat)
    requires CanSend(cfg, s, w)
    ensures Step(cfg, s, Send(w)).front.workers[w] == Idle
  {
  }

  lemma {:induction false} RunNames(cfg: Config, items: seq<Item>, workers: nat, cas: map<Name, Bytes>,
                                    acts: seq<Action>)
    ensures NamesOk(Run(cfg, Init(cfg, items, workers, cas), acts))
    ensures Conserved(cfg, Run(cfg, Init(cfg, items, workers, cas), acts).front)
    decreases |acts|
  {
    var s0 := Init(cfg, items, workers, cas);
    if acts == [] {
      IdleWorkers(cfg, s0.front.workers);
    } else {
      var front := acts[..|acts| - 1];
      RunNames(cfg, items, workers, cas, front);
      StepNames(cfg, Run(cfg, s0, front), acts[|acts| - 1]);
      StepConserves(cfg, Run(cfg, s0, front), acts[|acts| - 1]);
    }
  }
}
