/** When a run of the streaming pipeline can end.

    `run` returns when the committer has left its loop and the scanner has sent everything. From any
    moment a run can go on to that end unless some file demands more than the whole budget; the proof
    gives the next action at every point and a measure that it lessens. */
module PipelineEnds {
  import opened Bytes
  import opened Pipeline
  import opened PipelineRuns
  import opened PipelineFlight
  import opened PipelineContent
  import opened PipelineMissing

  // ---------------------------------------------------------------- files larger than the budget

  /** The items not yet taken, in the order in which they will be. */
  function Queue(s: Front): seq<Item> {
    s.paths + s.toScan
  }

  function FirstOf(q: seq<Item>, p: Bytes): Option<Item> {
    if q == [] then None else if q[0].path == p then Some(q[0]) else FirstOf(q[1..], p)
  }

  /** The file is still to be taken, or a worker waits for its permit. */
  ghost predicate Pending(s: Front, p: Bytes, n: nat) {
    || (p !in s.seen && FirstOf(Queue(s), p) == Some(Walked(p, n)))
    || Waiting(p, n) in s.workers
  }

  /** No file still to be read demands more than the whole budget. */
  ghost predicate Flowing(cfg: Config, s: Front) {
    forall p, n: nat :: Pending(s, p, n) ==> Permit(cfg, n) <= cfg.budget
  }

  lemma {:induction false} StepStaysPending(cfg: Config, s: State, a: Action, p: Bytes, n: nat)
    requires Conserved(cfg, s.front) && Permit(cfg, n) > cfg.budget && Pending(s.front, p, n)
    ensures Pending(Step(cfg, s, a).front, p, n)
  {
    match a
    case Scan => ScanKeepsQueue(cfg, s.front);
    case Take(w, found) => TakeStaysPending(s.front, w, found, p, n);
    case _ => WorkersStayPending(cfg, s, a, p, n);
  }

  lemma {:induction false} ScanKeepsQueue(cfg: Config, s: Front)
    ensures Queue(ScanStep(cfg, s)) == Queue(s)
  {
  }

  lemma {:induction false} TakeStaysPending(s: Front, w: nat, found: Option<nat>, p: Bytes, n: nat)
    requires Pending(s, p, n)
    ensures Pending(TakeStep(s, w, found), p, n)
  {
    var s' := TakeStep(s, w, found);
    if Waiting(p, n) in s.workers {
      var i :| 0 <= i < |s.workers| && s.workers[i] == Waiting(p, n);
      assert s'.workers[i] == Waiting(p, n);
    } else if w < |s.workers| && s.workers[w] == Idle && s.paths != [] {
      assert Queue(s)[1..] == s.paths[1..] + s.toScan && Queue(s)[0] == s.paths[0];
      if s.paths[0].path == p {
        assert s'.workers[w] == Waiting(p, n);
      }
    }
  }

  lemma {:induction false} OtherFront(cfg: Config, s: State, a: Action)
    requires !a.Scan? && !a.Take?
    ensures var f, f' := s.front, Step(cfg, s, a).front; f'.seen == f.seen && Queue(f') == Queue(f)
  {
  }

  lemma {:induction false} WorkersStayPending(cfg: Config, s: State, a: Action, p: Bytes, n: nat)
    requires Conserved(cfg, s.front) && Permit(cfg, n) > cfg.budget && Pending(s.front, p, n) && !a.Scan? && !a.Take?
    ensures Pending(Step(cfg, s, a).front, p, n)
  {
    OtherFront(cfg, s, a);
    if Waiting(p, n) in s.front.workers {
      var i :| 0 <= i < |s.front.workers| && s.front.workers[i] == Waiting(p, n);
      WaiterWaits(cfg, s, a, i, p, n);
      assert Step(cfg, s, a).front.workers[i] == Waiting(p, n);
    }
  }

  lemma {:induction false} WaiterWaits(cfg: Config, s: State, a: Action, i: nat, p: Bytes, n: nat)
    requires Conserved(cfg, s.front) && Permit(cfg, n) > cfg.budget && !a.Scan? && !a.Take?
    requires i < |s.front.workers| && s.front.workers[i] == Waiting(p, n)
    ensures var ws := Step(cfg, s, a).front.workers; i < |ws| && ws[i] == Waiting(p, n)
  {
    match a
    case Acquire(w) =>
    case Read(w, c) =>
    case Write(w, k) =>
    case Check(w, seen) =>
    case Send(w) =>
    case Exit(w, sentinel) =>
    case CommitOne(ok) =>
    case _ =>
  }

  lemma {:induction false} RunStaysPending(cfg: Config, s: State, acts: seq<Action>, p: Bytes, n: nat)
    requires Conserved(cfg, s.front) && Permit(cfg, n) > cfg.budget && Pending(s.front, p, n)
    ensures Conserved(cfg, Run(cfg, s, acts).front) && Pending(Run(cfg, s, acts).front, p, n)
    decreases |acts|
  {
    if acts != [] {
      var front := acts[..|acts| - 1];
      RunStaysPending(cfg, s, front, p, n);
      StepStaysPending(cfg, Run(cfg, s, front), acts[|acts| - 1], p, n);
      StepConserves(cfg, Run(cfg, s, front), acts[|acts| - 1]);
    }
  }

  // ---------------------------------------------------------------- nothing new gets stuck

  lemma {:induction false} StepFlows(cfg: Config, s: State, a: Action)
    requires Flowing(cfg, s.front) && (a.Take? ==> a.found == Some(0))
    ensures Flowing(cfg, Step(cfg, s, a).front)
  {
    var s' := Step(cfg, s, a);
    forall p, n: nat | Pending(s'.front, p, n)
      ensures Permit(cfg, n) <= cfg.budget
    {
      match a
      case Scan => ScanKeepsQueue(cfg, s.front); assert Pending(s.front, p, n);
      case Take(w, found) => TakeFlows(cfg, s.front, w, p, n);
      case _ => WasPending(cfg, s, a, p, n);
    }
  }

  lemma {:induction false} WasPending(cfg: Config, s: State, a: Action, p: Bytes, n: nat)
    requires !a.Scan? && !a.Take? && Pending(Step(cfg, s, a).front, p, n)
    ensures Pending(s.front, p, n)
  {
    var s' := Step(cfg, s, a);
    OtherFront(cfg, s, a);
    if Waiting(p, n) in s'.front.workers {
      var i :| 0 <= i < |s'.front.workers| && s'.front.workers[i] == Waiting(p, n);
      WasWaiting(cfg, s, a, i);
      assert s.front.workers[i] == Waiting(p, n);
    }
  }

  lemma {:induction false} WasWaiting(cfg: Config, s: State, a: Action, i: nat)
    requires !a.Scan? && !a.Take? && i < |Step(cfg, s, a).front.workers| && Step(cfg, s, a).front.workers[i].Waiting?
    ensures i < |s.front.workers| && s.front.workers[i] == Step(cfg, s, a).front.workers[i]
  {
    match a
    case Acquire(w) =>
    case Read(w, c) =>
    case Write(w, k) =>
    case Check(w, seen) =>
    case Send(w) =>
    case Exit(w, sentinel) =>
    case CommitOne(ok) =>
    case _ =>
  }

  lemma {:induction false} TakeFlows(cfg: Config, s: Front, w: nat, p: Bytes, n: nat)
    requires Flowing(cfg, s) && Pending(TakeStep(s, w, Some(0)), p, n)
    ensures Permit(cfg, n) <= cfg.budget
  {
    var s' := TakeStep(s, w, Some(0));
    if s' == s {
      assert Pending(s, p, n);
    } else {
      assert Queue(s)[1..] == s.paths[1..] + s.toScan && Queue(s)[0] == s.paths[0];
      if Waiting(p, n) in s'.workers {
        var i :| 0 <= i < |s'.workers| && s'.workers[i] == Waiting(p, n);
        if s.workers[i] == Waiting(p, n) || s.paths[0] == Walked(p, n) {
          assert Pending(s, p, n);
        }
      } else {
        assert Pending(s, p, n);
      }
    }
  }

  // ---------------------------------------------------------------- a measure of what is left to do

  function WorkerCost(x: Worker): nat {
    match x
    case Exited => 0
    case Idle => 1
    case Sending(f) => 8
    case Checking(f) => 9
    case Writing(f, c, k, pl) => 10
    case Reading(p, n) => 11
    case Waiting(p, n) => 12
  }

  function WorkersCost(ws: seq<Worker>): nat {
    if ws == [] then 0 else WorkersCost(ws[..|ws| - 1]) + WorkerCost(ws[|ws| - 1])
  }

  lemma {:induction false} CostUpdate(ws: seq<Worker>, i: nat, x: Worker)
    requires i < |ws|
    ensures WorkersCost(ws[i := x]) + WorkerCost(ws[i]) == WorkersCost(ws) + WorkerCost(x)
    decreases |ws|
  {
    var front := ws[..|ws| - 1];
    if i < |front| {
      CostUpdate(front, i, x);
      assert ws[i := x][..|ws| - 1] == front[i := x];
    } else {
      assert ws[i := x][..|ws| - 1] == front;
    }
  }

  function FrontCost(s: Front): nat {
    14 * |s.toScan| + 13 * |s.paths| + (if s.mark == Unsent then 1 else 0) + WorkersCost(s.workers)
  }

  function ModeCost(c: Committer): nat {
    match c
    case Finished => 0
    case Crashed(rest) => 0
    case Outer => 1
    case Committing(rest, draining) => |rest| + if draining then 4 else 2
    case Draining => 3
    case Added => 5
  }

  function BackCost(b: Back): nat {
    6 * |b.commits| + 3 * |b.batch| + ModeCost(b.committer)
  }

  function Cost(s: State): nat {
    FrontCost(s.front) + BackCost(s.back)
  }

  /** A step towards the end: no file is given up, and no commit fails. */
  ghost predicate Better(s: State, s': State) {
    Cost(s') < Cost(s) && s'.front.failed == s.front.failed && !s'.back.committer.Crashed?
  }

  // ---------------------------------------------------------------- the next action

  /** The committer has nothing to do until a worker sends. */
  predicate Resting(b: Back) {
    b.committer == Outer && b.commits == [] && b.batch == []
  }

  lemma {:induction false} BackMoves(cfg: Config, s: State) returns (a: Action)
    requires !s.back.committer.Finished? && !s.back.committer.Crashed? && !Resting(s.back) && Calm(s)
    requires BatchFits(cfg, s.back)
    ensures Better(s, Step(cfg, s, a)) && !a.Take? && !a.Read? && !a.Check?
  {
    match s.back.committer
    case Added => a := Decide;
    case Committing(rest, draining) =>
      a := CommitOne(true);
      CommitMoves(cfg, s);
    case Draining => a := if s.back.commits == [] then EndDrain else Drain;
    case Outer => a := if s.back.commits != [] then Receive else Timeout;
  }

  lemma {:induction false} CommitMoves(cfg: Config, s: State)
    requires s.back.committer.Committing? && Calm(s)
    ensures Better(s, Step(cfg, s, CommitOne(true)))
  {
    CalmIsNotMissing(s);
    var turn := TurnOf(s.back, s.temps, true);
    RepointCost(s.front.workers, s.back, s.temps);
    assert !turn.Failure?;
  }

  lemma {:induction false} RepointCost(ws: seq<Worker>, b: Back, temps: Temps)
    ensures WorkersCost(CommitWorkers(ws, b, temps, true)) == WorkersCost(ws)
  {
    var turn := TurnOf(b, temps, true);
    if (turn.Duplicate? || turn.Rename?) && Opened(ws, b.committer.rest[0].temp) {
      var w := b.committer.rest[0].temp.worker;
      CostUpdate(ws, w, CommitWorkers(ws, b, temps, true)[w]);
    }
  }

  /** The worker holds a permit or a file to send. */
  predicate Busy(x: Worker) {
    x.Reading? || x.Writing? || x.Checking? || x.Sending?
  }

  /** Every read of a file gets what `content` tells of its path. */
  predicate ReadsWhole(content: Bytes -> Bytes, s: State, a: Action) {
    a.Read? && a.w < |s.front.workers| && s.front.workers[a.w].Reading?
    ==> a.content == Some(content(s.front.workers[a.w].path))
  }

  function WholeRule(content: Bytes -> Bytes): Rule {
    (s, a) => ReadsWhole(content, s, a)
  }

  lemma {:induction false} BusyMoves(cfg: Config, s: State, i: nat, content: Bytes -> Bytes) returns (a: Action)
    requires Resting(s.back) && NamesOk(s) && i < |s.front.workers| && Busy(s.front.workers[i]) && Calm(s)
    ensures Better(s, Step(cfg, s, a)) && Calm(Step(cfg, s, a)) && !a.Take? && ReadsWhole(content, s, a)
  {
    match s.front.workers[i]
    case Reading(p, n) => a := ReaderMoves(cfg, s, i, content(p));
    case Writing(f, c, k, pl) => a := WriterMoves(cfg, s, i);
    case Checking(f) =>
      a := Check(i, Same);
      CostUpdate(s.front.workers, i, Sending(f));
      StepCalm(cfg, s, a);
    case Sending(f) =>
      a := Send(i);
      CostUpdate(s.front.workers, i, Idle);
      StepCalm(cfg, s, a);
  }

  lemma {:induction false} ReaderMoves(cfg: Config, s: State, i: nat, c: Bytes) returns (a: Action)
    requires Resting(s.back) && NamesOk(s) && i < |s.front.workers| && s.front.workers[i].Reading? && Calm(s)
    ensures Better(s, Step(cfg, s, a)) && Calm(Step(cfg, s, a)) && a == Read(i, Some(c))
  {
    a := Read(i, Some(c));
    CostUpdate(s.front.workers, i, Step(cfg, s, a).front.workers[i]);
    NewIsAlone(cfg, s, a);
    StepCalm(cfg, s, a);
  }

  lemma {:induction false} WriterMoves(cfg: Config, s: State, i: nat) returns (a: Action)
    requires Resting(s.back) && i < |s.front.workers| && s.front.workers[i].Writing? && Calm(s)
    ensures Better(s, Step(cfg, s, a)) && Calm(Step(cfg, s, a)) && a.Write?
  {
    var x := s.front.workers[i];
    a := Write(i, |x.content|);
    CostUpdate(s.front.workers, i, Checking(x.file));
    StepCalm(cfg, s, a);
  }

  /** With nothing behind, a new file's temporary name is no other file's. */
  lemma {:induction false} NewIsAlone(cfg: Config, s: State, a: Action)
    requires Resting(s.back) && NamesOk(s) && Creates(s, a)
    ensures forall f :: InFlight(s, f) ==> f.temp != NewFile(cfg, s, a).temp
  {
    forall f | InFlight(s, f)
      ensures f.temp != NewFile(cfg, s, a).temp
    {
      assert DrawnBelow(s.front.nextId, f);
      var j :| 0 <= j < |s.front.workers| && Carries(s.front.workers[j], f);
      assert Own(s, j, f) && j != a.w;
    }
  }

  lemma {:induction false} WaiterMoves(cfg: Config, s: State, i: nat) returns (a: Action)
    requires Conserved(cfg, s.front) && Flowing(cfg, s.front) && !s.back.committer.Crashed?
    requires forall j | 0 <= j < |s.front.workers| :: !Busy(s.front.workers[j])
    requires i < |s.front.workers| && s.front.workers[i].Waiting?
    ensures Better(s, Step(cfg, s, a)) && !a.Take? && !a.Read? && !a.Check?
  {
    a := Acquire(i);
    var x := s.front.workers[i];
    NothingHeld(cfg, s.front.workers);
    assert x in s.front.workers && Pending(s.front, x.path, x.size);
    CostUpdate(s.front.workers, i, Reading(x.path, x.size));
  }

  lemma {:induction false} NothingHeld(cfg: Config, ws: seq<Worker>)
    requires forall i | 0 <= i < |ws| :: !Busy(ws[i])
    ensures Held(cfg, ws) == 0
    decreases |ws|
  {
    if ws != [] {
      NothingHeld(cfg, ws[..|ws| - 1]);
    }
  }

  predicate AtRest(x: Worker) {
    x == Idle || x == Exited
  }

  /** With all workers at rest, the scanner or a worker goes on, or the committer leaves its loop. */
  lemma {:induction false} RestMoves(cfg: Config, s: State) returns (a: Action)
    requires s.front.workers != [] && EndsInOrder(s) && Resting(s.back)
    requires forall j | 0 <= j < |s.front.workers| :: AtRest(s.front.workers[j])
    ensures Better(s, Step(cfg, s, a)) && !a.Read? && !a.Check? && (a.Take? ==> a.found == Some(0))
  {
    if s.front.mark == Unsent || s.front.paths != [] {
      assert Exited !in s.front.workers;
      assert s.front.workers[0] == Idle;
      a := ItemMoves(cfg, s);
    } else if j :| 0 <= j < |s.front.workers| && s.front.workers[j] == Idle {
      a := Exit(j, false);
      CostUpdate(s.front.workers, j, Exited);
    } else {
      a := Disconnect;
    }
  }

  lemma {:induction false} ItemMoves(cfg: Config, s: State) returns (a: Action)
    requires s.front.workers != [] && s.front.workers[0] == Idle && Resting(s.back)
    requires s.front.mark == Unsent || s.front.paths != []
    ensures Better(s, Step(cfg, s, a)) && !a.Read? && !a.Check? && (a.Take? ==> a.found == Some(0))
  {
    if s.front.paths != [] {
      a := Take(0, Some(0));
      var s' := Step(cfg, s, a);
      if s'.front.workers != s.front.workers {
        CostUpdate(s.front.workers, 0, s'.front.workers[0]);
      }
    } else {
      a := Scan;
    }
  }

  /** Unless the run has ended, there is a step towards its end. */
  lemma {:induction false} NextMove(cfg: Config, s: State, content: Bytes -> Bytes) returns (a: Action)
    requires s.front.workers != [] && EndsInOrder(s) && Conserved(cfg, s.front) && BatchFits(cfg, s.back) && NamesOk(s)
    requires Flowing(cfg, s.front) && Calm(s) && !s.back.committer.Crashed? && !Ended(s)
    ensures var s' := Step(cfg, s, a); Better(s, s') && Flowing(cfg, s'.front) && Calm(s') && ReadsWhole(content, s, a)
  {
    FinishedHasEnded(s);
    if !Resting(s.back) {
      a := BackMoves(cfg, s);
      StepCalm(cfg, s, a);
    } else if i :| 0 <= i < |s.front.workers| && Busy(s.front.workers[i]) {
      a := BusyMoves(cfg, s, i, content);
    } else if i :| 0 <= i < |s.front.workers| && s.front.workers[i].Waiting? {
      a := WaiterMoves(cfg, s, i);
      StepCalm(cfg, s, a);
    } else {
      a := RestMoves(cfg, s);
      StepCalm(cfg, s, a);
    }
    StepFlows(cfg, s, a);
  }

  /** With a worker, the committer leaves its loop only after the scanner is done. */
  lemma {:induction false} FinishedHasEnded(s: State)
    requires s.front.workers != [] && EndsInOrder(s)
    ensures s.back.committer.Finished? ==> Ended(s)
  {
    if s.back.committer.Finished? {
      assert s.front.workers[0] == Exited;
    }
  }

  /** The continuation ends the run, reads every file left whole and gives up none. */
  ghost predicate EndsWhole(cfg: Config, s: State, rest: seq<Action>, content: Bytes -> Bytes) {
    && Ended(Run(cfg, s, rest)) && Run(cfg, s, rest).front.failed == s.front.failed
    && Obeys(cfg, s, rest, WholeRule(content))
  }

  ghost predicate CanEnd(cfg: Config, s: State) {
    exists rest: seq<Action> :: Ended(Run(cfg, s, rest))
  }

  lemma {:induction false} EndsBy(cfg: Config, s: State, rest: seq<Action>)
    requires Ended(Run(cfg, s, rest))
    ensures CanEnd(cfg, s)
  {
  }

  lemma {:induction false} EndsFrom(cfg: Config, items: seq<Item>, workers: nat, cas: map<Name, Bytes>, s: State,
                                    content: Bytes -> Bytes) returns (rest: seq<Action>)
    requires workers > 0 && Inv(cfg, items, workers, cas, s) && NamesOk(s)
    requires Flowing(cfg, s.front) && Calm(s) && !s.back.committer.Crashed?
    ensures EndsWhole(cfg, s, rest, content)
    decreases Cost(s)
  {
    if Ended(s) {
      rest := [];
    } else {
      var a := NextMove(cfg, s, content);
      var s' := Step(cfg, s, a);
      StepKeepsInv(cfg, items, workers, cas, s, a);
      StepNames(cfg, s, a);
      var more := EndsFrom(cfg, items, workers, cas, s', content);
      rest := [a] + more;
      RunOne(cfg, s, a);
      OneObeys(cfg, s, a, WholeRule(content));
      Then(cfg, s, [a], more, WholeRule(content));
    }
  }

  lemma {:induction false} PendingNeverEnds(cfg: Config, items: seq<Item>, workers: nat, cas: map<Name, Bytes>,
                                            acts: seq<Action>, rest: seq<Action>, p: Bytes, n: nat)
    requires HavePaths(items) && workers > 0 && Permit(cfg, n) > cfg.budget
    requires Pending(Run(cfg, Init(cfg, items, workers, cas), acts).front, p, n)
    ensures !Ended(Run(cfg, Run(cfg, Init(cfg, items, workers, cas), acts), rest))
  {
    var s0 := Init(cfg, items, workers, cas);
    RunKeepsInv(cfg, items, workers, cas, acts);
    RunStaysPending(cfg, Run(cfg, s0, acts), rest, p, n);
    RunConcat(cfg, s0, acts, rest);
    RunKeepsInv(cfg, items, workers, cas, acts + rest);
    if Ended(Run(cfg, s0, acts + rest)) {
      EndedHasNone(Run(cfg, s0, acts + rest), p, n);
    }
  }

  lemma {:induction false} EndedHasNone(s: State, p: Bytes, n: nat)
    requires s.front.workers != [] && EndsInOrder(s) && Ended(s)
    ensures !Pending(s.front, p, n)
  {
    assert s.front.workers[0] == Exited;
    assert Queue(s.front) == [];
  }

  /** From every moment of every run with a worker in which every file in flight can be committed, some
      continuation ends exactly when no file still to be read demands more than the whole budget; and then
      one that reads every such file whole, whatever they hold, and gives up none. */
  lemma {:induction false} EndsFromExactly(cfg: Config, items: seq<Item>, workers: nat, cas: map<Name, Bytes>,
                                           acts: seq<Action>, content: Bytes -> Bytes)
    requires HavePaths(items) && workers > 0
    requires var s := Run(cfg, Init(cfg, items, workers, cas), acts); Calm(s) && !s.back.committer.Crashed?
    ensures var s := Run(cfg, Init(cfg, items, workers, cas), acts);
            && (CanEnd(cfg, s) <==> Flowing(cfg, s.front))
            && (Flowing(cfg, s.front) ==> exists rest: seq<Action> :: EndsWhole(cfg, s, rest, content))
  {
    var s := Run(cfg, Init(cfg, items, workers, cas), acts);
    RunKeepsInv(cfg, items, workers, cas, acts);
    RunNames(cfg, items, workers, cas, acts);
    if Flowing(cfg, s.front) {
      var rest := EndsFrom(cfg, items, workers, cas, s, content);
      EndsBy(cfg, s, rest);
    } else {
      var p, n: nat :| Pending(s.front, p, n) && Permit(cfg, n) > cfg.budget;
      forall rest: seq<Action>
        ensures !Ended(Run(cfg, s, rest))
      {
        PendingNeverEnds(cfg, items, workers, cas, acts, rest, p, n);
      }
    }
  }

  /** So while no file changes and small contents that share four bytes of hash belong to the same blob,
      a run in which no commit failed can always be brought to its end, unless a file is too large. */
  lemma {:induction false} SteadyRunEndsExactly(cfg: Config, contents: set<Bytes>, items: seq<Item>, workers: nat,
                                                cas: map<Name, Bytes>, acts: seq<Action>, content: Bytes -> Bytes)
    requires HavePaths(items) && workers > 0 && SameBlobs(cfg, contents)
    requires Obeys(cfg, Init(cfg, items, workers, cas), acts, SteadyRule(contents))
    requires !Run(cfg, Init(cfg, items, workers, cas), acts).back.committer.Crashed?
    ensures var s := Run(cfg, Init(cfg, items, workers, cas), acts);
            && (CanEnd(cfg, s) <==> Flowing(cfg, s.front))
            && (Flowing(cfg, s.front) ==> exists rest: seq<Action> :: EndsWhole(cfg, s, rest, content))
  {
    RunSteady(cfg, contents, items, workers, cas, acts);
    EndsFromExactly(cfg, items, workers, cas, acts, content);
  }

  // ---------------------------------------------------------------- from the start

  /** Item `i` is the first of its path and demands more than the whole budget. */
  predicate Blocks(cfg: Config, items: seq<Item>, i: nat)
    requires i < |items|
  {
    && items[i].Walked? && Permit(cfg, items[i].size) > cfg.budget
    && forall j | 0 <= j < i :: items[j].path != items[i].path
  }

  lemma {:induction false} FirstOfIs(items: seq<Item>, i: nat)
    requires i < |items| && forall j | 0 <= j < i :: items[j].path != items[i].path
    ensures FirstOf(items, items[i].path) == Some(items[i])
    decreases i
  {
    if i > 0 {
      assert items[1..][i - 1] == items[i];
      FirstOfIs(items[1..], i - 1);
    }
  }

  lemma {:induction false} FirstOfAt(items: seq<Item>, p: Bytes) returns (i: nat)
    requires FirstOf(items, p).Some?
    ensures i < |items| && items[i] == FirstOf(items, p).value && items[i].path == p
    ensures forall j | 0 <= j < i :: items[j].path != p
    decreases |items|
  {
    if items[0].path == p {
      i := 0;
    } else {
      var k := FirstOfAt(items[1..], p);
      i := k + 1;
      assert forall j | 1 <= j < i :: items[j] == items[1..][j - 1];
    }
  }

  lemma {:induction false} FlowsAtStart(cfg: Config, items: seq<Item>, workers: nat, cas: map<Name, Bytes>)
    ensures Flowing(cfg, Init(cfg, items, workers, cas).front)
            <==> forall i | 0 <= i < |items| :: !Blocks(cfg, items, i)
  {
    var s := Init(cfg, items, workers, cas).front;
    assert Queue(s) == items;
    if i :| 0 <= i < |items| && Blocks(cfg, items, i) {
      FirstOfIs(items, i);
      assert Pending(s, items[i].path, items[i].size);
    } else {
      forall p, n: nat | Pending(s, p, n)
        ensures Permit(cfg, n) <= cfg.budget
      {
        var i := FirstOfAt(items, p);
        assert !Blocks(cfg, items, i);
      }
    }
  }

  /** Every path the walk found is committed, once. */
  ghost predicate CommitsAll(items: seq<Item>, s: State) {
    forall p :: Walks(items, p) ==> InFiles(s.back.committed, p) == 1
  }

  /** Some run ends exactly when no walked file demands more than the whole budget, or, without workers,
      when the items and the end mark fit the channel in which the scanner leaves them. With workers some
      run then ends with every file committed. */
  lemma {:induction false} FinishesExactly(cfg: Config, items: seq<Item>, workers: nat, cas: map<Name, Bytes>)
    requires HavePaths(items)
    ensures CanEnd(cfg, Init(cfg, items, workers, cas))
            <==> if workers == 0 then |items| < cfg.capacity else forall i | 0 <= i < |items| :: !Blocks(cfg, items, i)
    ensures workers > 0 && (forall i | 0 <= i < |items| :: !Blocks(cfg, items, i)) ==>
              exists acts: seq<Action> ::
                var s := Run(cfg, Init(cfg, items, workers, cas), acts); Ended(s) && CommitsAll(items, s)
  {
    if workers == 0 {
      IdleEndsExactly(cfg, items, cas);
    } else {
      FlowsAtStart(cfg, items, workers, cas);
      assert Run(cfg, Init(cfg, items, workers, cas), []) == Init(cfg, items, workers, cas);
      EndsFromExactly(cfg, items, workers, cas, [], c => c);
      if forall i | 0 <= i < |items| :: !Blocks(cfg, items, i) {
        EndsCommitted(cfg, items, workers, cas);
      }
    }
  }

  lemma {:induction false} EndsCommitted(cfg: Config, items: seq<Item>, workers: nat, cas: map<Name, Bytes>)
    requires HavePaths(items) && workers > 0 && Flowing(cfg, Init(cfg, items, workers, cas).front)
    ensures exists acts: seq<Action> ::
              var s := Run(cfg, Init(cfg, items, workers, cas), acts); Ended(s) && CommitsAll(items, s)
  {
    var s0 := Init(cfg, items, workers, cas);
    InitInv(cfg, items, workers, cas);
    var acts := EndsFrom(cfg, items, workers, cas, s0, c => c);
    var s := Run(cfg, s0, acts);
    forall p | Walks(items, p)
      ensures InFiles(s.back.committed, p) == 1
    {
      AtTheEnd(cfg, items, workers, cas, acts, p);
      assert s.front.failed == [];
    }
    assert Ended(s) && CommitsAll(items, s);
  }

  // ---------------------------------------------------------------- without workers

  /** The scanner fills the channel and nobody takes from it. */
  predicate Untaken(cfg: Config, items: seq<Item>, s: Front) {
    s.workers == [] && Queue(s) == items && (s.mark != Unsent ==> s.toScan == [] && |items| < cfg.capacity)
  }

  lemma {:induction false} RunUntaken(cfg: Config, items: seq<Item>, cas: map<Name, Bytes>, acts: seq<Action>)
    ensures Untaken(cfg, items, Run(cfg, Init(cfg, items, 0, cas), acts).front)
    decreases |acts|
  {
    if acts == [] {
      assert [] + items == items;
    } else {
      var front := acts[..|acts| - 1];
      RunUntaken(cfg, items, cas, front);
      StepUntaken(cfg, items, Run(cfg, Init(cfg, items, 0, cas), front), acts[|acts| - 1]);
    }
  }

  lemma {:induction false} StepUntaken(cfg: Config, items: seq<Item>, s: State, a: Action)
    requires Untaken(cfg, items, s.front)
    ensures Untaken(cfg, items, Step(cfg, s, a).front)
  {
    match a
    case Scan =>
      ScanKeepsQueue(cfg, s.front);
      assert s.front.toScan == [] ==> Queue(s.front) == s.front.paths;
    case _ =>
  }

  /** The scanner sends all it has. */
  lemma {:induction false} ScansAll(cfg: Config, s: State) returns (acts: seq<Action>)
    requires s.front.mark == Unsent && |s.front.paths| + |s.front.toScan| < cfg.capacity
    ensures var s' := Run(cfg, s, acts);
            && s'.front.toScan == [] && s'.front.mark == Queued && s'.front.workers == s.front.workers
            && s'.back == s.back && s'.front.failed == s.front.failed
    decreases |s.front.toScan|
  {
    var s1 := Step(cfg, s, Scan);
    RunOne(cfg, s, Scan);
    if s.front.toScan == [] {
      acts := [Scan];
    } else {
      var rest := ScansAll(cfg, s1);
      acts := [Scan] + rest;
      RunConcat(cfg, s, [Scan], rest);
    }
  }

  lemma {:induction false} IdleRun(cfg: Config, items: seq<Item>, cas: map<Name, Bytes>) returns (acts: seq<Action>)
    requires |items| < cfg.capacity
    ensures var s := Run(cfg, Init(cfg, items, 0, cas), acts);
            Ended(s) && s.back.committed == [] && s.front.failed == []
  {
    var s := Init(cfg, items, 0, cas);
    var scans := ScansAll(cfg, s);
    acts := scans + [Disconnect];
    RunConcat(cfg, s, scans, [Disconnect]);
    RunOne(cfg, Run(cfg, s, scans), Disconnect);
  }

  lemma {:induction false} IdleEndsExactly(cfg: Config, items: seq<Item>, cas: map<Name, Bytes>)
    ensures CanEnd(cfg, Init(cfg, items, 0, cas)) <==> |items| < cfg.capacity
  {
    if |items| < cfg.capacity {
      var acts := IdleRun(cfg, items, cas);
    } else {
      forall acts: seq<Action>
        ensures !Ended(Run(cfg, Init(cfg, items, 0, cas), acts))
      {
        RunUntaken(cfg, items, cas, acts);
      }
    }
  }

  /** The run has committed or given up every path the walk found. */
  ghost predicate Accounts(items: seq<Item>, s: State) {
    forall p :: Walks(items, p) ==> InFiles(s.back.committed, p) + InPaths(s.front.failed, p) == 1
  }

  /** Every run that ends accounts for every path the walk found exactly when there is a worker, the walk
      finds nothing, or what it finds does not fit the channel: without workers the commit channel is closed
      from the start, and such a run ends only when the scanner is not held up. */
  lemma {:induction false} EndsAccountedExactly(cfg: Config, items: seq<Item>, workers: nat, cas: map<Name, Bytes>)
    requires HavePaths(items)
    ensures (forall acts: seq<Action> :: Ended(Run(cfg, Init(cfg, items, workers, cas), acts))
               ==> Accounts(items, Run(cfg, Init(cfg, items, workers, cas), acts)))
            <==> workers > 0 || (forall p :: !Walks(items, p)) || |items| >= cfg.capacity
  {
    if workers > 0 || forall p :: !Walks(items, p) {
      forall acts: seq<Action> | Ended(Run(cfg, Init(cfg, items, workers, cas), acts))
        ensures Accounts(items, Run(cfg, Init(cfg, items, workers, cas), acts))
      {
        EndAccounts(cfg, items, workers, cas, acts);
      }
    } else {
      IdleEndsExactly(cfg, items, cas);
      if |items| < cfg.capacity {
        var acts := IdleRun(cfg, items, cas);
        NothingAccounts(items, Run(cfg, Init(cfg, items, 0, cas), acts));
      }
    }
  }

  lemma {:induction false} EndAccounts(cfg: Config, items: seq<Item>, workers: nat, cas: map<Name, Bytes>,
                                       acts: seq<Action>)
    requires HavePaths(items) && Ended(Run(cfg, Init(cfg, items, workers, cas), acts))
    requires workers > 0 || forall p :: !Walks(items, p)
    ensures Accounts(items, Run(cfg, Init(cfg, items, workers, cas), acts))
  {
    var s := Run(cfg, Init(cfg, items, workers, cas), acts);
    forall p | Walks(items, p)
      ensures InFiles(s.back.committed, p) + InPaths(s.front.failed, p) == 1
    {
      AtTheEnd(cfg, items, workers, cas, acts, p);
    }
  }

  lemma {:induction false} NothingAccounts(items: seq<Item>, s: State)
    requires (exists p :: Walks(items, p)) && s.back.committed == [] && s.front.failed == []
    ensures !Accounts(items, s)
  {
    var p :| Walks(items, p);
    assert InFiles(s.back.committed, p) + InPaths(s.front.failed, p) == 0;
  }
}
