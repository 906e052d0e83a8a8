/** The two channels of the streaming pipeline (crates/vrift-cas/src/streaming_pipeline.rs, `run`): how much
    they hold, and the sentinel that the worker sends which takes the end mark. */
module PipelineChannels {
  import opened Bytes
  import opened Pipeline

  // ---------------------------------------------------------------- capacity

  /** A channel of capacity zero holds an item only on its way to a waiting receiver. */
  ghost predicate Bounded(cfg: Config, s: State) {
    if cfg.capacity > 0 then |s.front.paths| <= cfg.capacity && |s.back.commits| <= cfg.capacity
    else
      && |s.front.paths| <= 1 && |s.back.commits| <= 1
      && (s.back.commits != [] ==> s.back.committer == Outer || s.back.committer == Draining)
  }

  lemma {:induction false} StepBounded(cfg: Config, s: State, a: Action)
    requires Bounded(cfg, s)
    ensures Bounded(cfg, Step(cfg, s, a))
  {
    match a
    case Scan =>
    case Take(w, found) =>
    case Acquire(w) =>
    case Read(w, c) =>
    case Write(w, k) =>
    case Check(w, seen) =>
    case Send(w) =>
    case Exit(w, sentinel) =>
    case Receive =>
    case Drain =>
    case CommitOne(ok) =>
    case _ =>
  }

  /** At every moment of every run, neither channel holds more than its capacity; of capacity zero, at most
      the one item being handed over. */
  lemma {:induction false} ChannelsBounded(cfg: Config, items: seq<Item>, workers: nat, cas: map<Name, Bytes>,
                                           acts: seq<Action>)
    ensures Bounded(cfg, Run(cfg, Init(cfg, items, workers, cas), acts))
    decreases |acts|
  {
    if acts != [] {
      var n := |acts| - 1;
      ChannelsBounded(cfg, items, workers, cas, acts[..n]);
      StepBounded(cfg, Run(cfg, Init(cfg, items, workers, cas), acts[..n]), acts[n]);
    }
  }

  // ---------------------------------------------------------------- the sentinel

  function Sentinels(q: seq<File>): nat {
    if q == [] then 0 else Sentinels(q[1..]) + if q[0].path == [] && q[0].size == 0 then 1 else 0
  }

  lemma {:induction false} SentinelsAppend(q: seq<File>, f: File)
    ensures Sentinels(q + [f]) == Sentinels(q) + if f.path == [] && f.size == 0 then 1 else 0
    decreases |q|
  {
    if q == [] {
      assert (q + [f])[1..] == [];
    } else {
      assert (q + [f])[1..] == q[1..] + [f];
      SentinelsAppend(q[1..], f);
    }
  }

  predicate Named(x: Worker) {
    match x
    case Idle => true
    case Exited => true
    case Waiting(p, n) => p != []
    case Reading(p, n) => p != []
    case Writing(f, c, k, pl) => f.path != []
    case Checking(f) => f.path != []
    case Sending(f) => f.path != []
  }

  ghost predicate ItemsNamed(items: seq<Item>) {
    forall i | 0 <= i < |items| :: items[i].path != []
  }

  ghost predicate WorkersNamed(ws: seq<Worker>) {
    forall i | 0 <= i < |ws| :: Named(ws[i])
  }

  ghost predicate AllNamed(s: Front) {
    ItemsNamed(s.toScan) && ItemsNamed(s.paths) && WorkersNamed(s.workers)
  }

  lemma {:induction false} StepNamed(cfg: Config, s: State, a: Action)
    requires AllNamed(s.front)
    ensures AllNamed(Step(cfg, s, a).front)
  {
    StepItemsNamed(cfg, s, a);
    StepWorkersNamed(cfg, s, a);
  }

  lemma {:induction false} StepItemsNamed(cfg: Config, s: State, a: Action)
    requires ItemsNamed(s.front.toScan) && ItemsNamed(s.front.paths)
    ensures ItemsNamed(Step(cfg, s, a).front.toScan) && ItemsNamed(Step(cfg, s, a).front.paths)
  {
    match a
    case Scan =>
    case Take(w, found) =>
    case _ =>
  }

  lemma {:induction false} StepWorkersNamed(cfg: Config, s: State, a: Action)
    requires ItemsNamed(s.front.paths) && WorkersNamed(s.front.workers)
    ensures WorkersNamed(Step(cfg, s, a).front.workers)
  {
    match a
    case Take(w, found) =>
    case Acquire(w) =>
    case Read(w, c) =>
    case Write(w, k) =>
    case Check(w, seen) =>
    case Send(w) =>
    case Exit(w, sentinel) =>
    case CommitOne(ok) =>
    case _ =>
  }

  predicate OneAtMost(s: State) {
    Sentinels(s.back.commits) <= if s.front.mark == Taken then 1 else 0
  }

  lemma {:induction false} StepOne(cfg: Config, s: State, a: Action)
    requires AllNamed(s.front) && OneAtMost(s)
    ensures OneAtMost(Step(cfg, s, a))
  {
    match a
    case Send(w) =>
      if CanSend(cfg, s, w) {
        SentinelsAppend(s.back.commits, s.front.workers[w].file);
      }
    case Exit(w, sentinel) => SentinelsAppend(s.back.commits, SENTINEL);
    case _ =>
  }

  /** When no file has the empty path, at every moment at most one sentinel is in the commit channel, and
      none before a worker has taken the end mark. */
  lemma {:induction false} OneSentinel(cfg: Config, items: seq<Item>, workers: nat, cas: map<Name, Bytes>,
                                       acts: seq<Action>)
    requires ItemsNamed(items)
    ensures var s := Run(cfg, Init(cfg, items, workers, cas), acts);
            AllNamed(s.front) && Sentinels(s.back.commits) <= if s.front.mark == Taken then 1 else 0
    decreases |acts|
  {
    if acts != [] {
      var n := |acts| - 1;
      var s := Run(cfg, Init(cfg, items, workers, cas), acts[..n]);
      OneSentinel(cfg, items, workers, cas, acts[..n]);
      StepNamed(cfg, s, acts[n]);
      StepOne(cfg, s, acts[n]);
    }
  }

  /** The commit channel has room, or the committer receives. */
  predicate HasRoom(cfg: Config, b: Back) {
    if cfg.capacity > 0 then |b.commits| < cfg.capacity
    else b.commits == [] && (b.committer.Outer? || b.committer.Draining?)
  }

  /** A worker that takes the end mark leaves a sentinel, of size zero and without a path, exactly when it
      gets it into the channel in time; a worker that finds the channel closed leaves none. */
  lemma {:induction false} ExitExactly(cfg: Config, s: State, w: nat, inTime: bool)
    requires w < |s.front.workers| && s.front.workers[w] == Idle && s.front.paths == [] && s.front.mark != Unsent
    ensures var s' := Step(cfg, s, Exit(w, inTime));
            && s'.front.workers == s.front.workers[w := Exited] && s'.front.mark == Taken
            && s'.back == s.back.(commits := s'.back.commits)
            && if s.front.mark == Queued && inTime && HasRoom(cfg, s.back)
               then |s'.back.commits| == |s.back.commits| + 1 && s.back.commits < s'.back.commits
                    && Sentinels(s'.back.commits) == Sentinels(s.back.commits) + 1
               else s'.back.commits == s.back.commits
  {
    SentinelsAppend(s.back.commits, SENTINEL);
  }

  /** The committer passes over a file without size and path and goes on draining; any other one joins the
      batch and the count, and the batch is looked at once it was drained. */
  lemma {:induction false} ReceivedExactly(cfg: Config, s: State)
    requires s.back.commits != [] && (s.back.committer == Outer || s.back.committer == Draining)
    ensures var b, f := s.back, s.back.commits[0];
            var b' := Step(cfg, s, if b.committer == Outer then Receive else Drain).back;
            b' == if f.path == [] && f.size == 0 then b.(commits := b.commits[1..], committer := Draining)
                  else b.(commits := b.commits[1..], batch := b.batch + [f], processed := b.processed + 1,
                          committer := if b.committer == Outer then Draining else Added)
  {
  }
}
