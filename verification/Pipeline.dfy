/** The streaming ingest pipeline (crates/vrift-cas/src/streaming_pipeline.rs).

    The scanner, the workers and the committer move by steps; a run is any list of actions, each
    with its outcome, and an action that cannot happen in a state leaves it as it is. */
module Pipeline {
  import opened Bytes

  datatype Config = Config(budget: nat, chunk: nat, threshold: nat, batchSize: nat, capacity: nat,
                           hash: Bytes -> Bytes)

  /** A file found by the walk, with its size, or one named by a watch event. */
  datatype Item = Walked(path: Bytes, size: nat) | Watched(path: Bytes)

  /** A small file's temporary name has the first four bytes of the hash and the worker's thread;
      a large file's is unique. */
  datatype Temp = Short(prefix: Bytes, worker: nat) | Fresh(id: nat)

  datatype File = File(path: Bytes, hash: Bytes, size: nat, temp: Temp)

  /** `hash_size.bin` */
  datatype Name = Name(hash: Bytes, size: nat)

  /** Where the file is to which a worker's open handle writes: still under its temporary name, renamed
      to a blob meanwhile, or removed. */
  datatype Place = AtTemp | AtBlob(name: Name) | Unlinked

  /** Waiting: the path is claimed in the seen set, the permit is not yet acquired.
      Reading, Writing, Checking: the permit is held; before the temporary file is created, while it is
      written, of which `done` bytes are, and after.
      Exited: the worker has returned and dropped its end of the commit channel. */
  datatype Worker =
    | Idle
    | Waiting(path: Bytes, size: nat)
    | Reading(path: Bytes, size: nat)
    | Writing(file: File, content: Bytes, done: nat, place: Place)
    | Checking(file: File)
    | Sending(file: File)
    | Exited

  /** Outer: at `recv_timeout`. Draining: at `try_recv`. Added: an item was just added while draining.
      Committing: a batch is being renamed, and draining goes on afterwards or not.
      Crashed: a commit returned an error, which ends the run. */
  datatype Committer =
    | Outer
    | Draining
    | Added
    | Committing(rest: seq<File>, draining: bool)
    | Crashed(rest: seq<File>)
    | Finished

  /** The end mark, which the scanner sends last: not sent, in the channel, or taken by a worker. */
  datatype Mark = Unsent | Queued | Taken

  /** The scanner and the workers; `failed` lists the paths given up. */
  datatype Front = Front(toScan: seq<Item>, paths: seq<Item>, mark: Mark, workers: seq<Worker>, seen: set<Bytes>,
                         available: nat, nextId: nat, failed: seq<Bytes>)

  /** The committer and the store; `committed` lists the files renamed or deduplicated. */
  datatype Back = Back(commits: seq<File>, batch: seq<File>, committer: Committer, cas: map<Name, Bytes>,
                       processed: nat, deduplicated: nat, committed: seq<File>)

  type Temps = map<Temp, Bytes>

  datatype State = State(front: Front, temps: Temps, back: Back)

  /** The second look at a file that was read: as before, modified, or no longer there. */
  datatype CheckResult = Same | Modified | Gone

  /** Read: the file cannot be read, or its content is known and its temporary file is created empty.
      Write: one call writes so many bytes, or fails when it writes none. */
  datatype Action =
    | Scan
    | Take(w: nat, found: Option<nat>)
    | Acquire(w: nat)
    | Read(w: nat, content: Option<Bytes>)
    | Write(w: nat, count: nat)
    | Check(w: nat, seen: CheckResult)
    | Send(w: nat)
    | Exit(w: nat, sentinel: bool)
    | Receive
    | Drain
    | Decide
    | EndDrain
    | Timeout
    | CommitOne(ok: bool)
    | Disconnect

  function Init(cfg: Config, items: seq<Item>, workers: nat, cas: map<Name, Bytes>): State {
    State(Front(items, [], Unsent, seq(workers, i => Idle), {}, cfg.budget, 0, []), map[],
          Back([], [], Outer, cas, 0, 0, []))
  }

  // ---------------------------------------------------------------- the scanner and the workers

  /** The scanner can send: a channel of capacity zero hands over to a worker that waits for an item. */
  predicate CanScan(cfg: Config, s: Front) {
    && s.mark == Unsent
    && if cfg.capacity == 0 then s.paths == [] && Idle in s.workers else |s.paths| < cfg.capacity
  }

  /** A worker can send: a channel of capacity zero hands over to the committer when it receives. */
  predicate CanPut(cfg: Config, b: Back) {
    if cfg.capacity == 0 then b.commits == [] && (b.committer == Outer || b.committer == Draining)
    else |b.commits| < cfg.capacity
  }

  /** What a worker of a given size must acquire. */
  function Permit(cfg: Config, size: nat): nat {
    if size < cfg.chunk then size else cfg.chunk
  }

  function Prefix4(h: Bytes): Bytes {
    if |h| < 4 then h else h[..4]
  }

  function TempFor(cfg: Config, id: nat, w: nat, size: nat, h: Bytes): Temp {
    if size < cfg.threshold then Short(Prefix4(h), w) else Fresh(id)
  }

  function SizeOf(item: Item, found: Option<nat>): Option<nat> {
    match item case Walked(p, n) => Some(n) case Watched(p) => found
  }

  /** The next item goes into the channel, and after the last one the end mark. */
  function ScanStep(cfg: Config, s: Front): Front {
    if !CanScan(cfg, s) then s
    else if s.toScan == [] then s.(mark := Queued)
    else s.(toScan := s.toScan[1..], paths := s.paths + [s.toScan[0]])
  }

  /** A worker takes an item and claims its path; a watched file whose size cannot be read is dropped. */
  function TakeStep(s: Front, w: nat, found: Option<nat>): Front {
    if w >= |s.workers| || s.workers[w] != Idle || s.paths == [] then s
    else Claim(s.(paths := s.paths[1..]), w, s.paths[0].path, SizeOf(s.paths[0], found))
  }

  function Claim(s: Front, w: nat, p: Bytes, size: Option<nat>): Front
    requires w < |s.workers|
  {
    if size.None? || p in s.seen then s
    else s.(seen := s.seen + {p}, workers := s.workers[w := Waiting(p, size.value)])
  }

  function AcquireStep(cfg: Config, s: Front, w: nat): Front {
    if w >= |s.workers| || !s.workers[w].Waiting? || s.available < Permit(cfg, s.workers[w].size) then s
    else s.(available := s.available - Permit(cfg, s.workers[w].size),
            workers := s.workers[w := Reading(s.workers[w].path, s.workers[w].size)])
  }

  /** The worker gives back its permit and has nothing to send. */
  function GiveUp(cfg: Config, s: Front, w: nat, p: Bytes, n: nat): Front
    requires w < |s.workers|
  {
    s.(available := s.available + Permit(cfg, n), workers := s.workers[w := Idle], failed := s.failed + [p])
  }

  function ReadFile(cfg: Config, s: Front, w: nat, c: Bytes): File
    requires w < |s.workers| && s.workers[w].Reading?
  {
    var n := s.workers[w].size;
    File(s.workers[w].path, cfg.hash(c), n, TempFor(cfg, s.nextId, w, n, cfg.hash(c)))
  }

  function ReadStep(cfg: Config, s: Front, w: nat, c: Option<Bytes>): Front {
    if w >= |s.workers| || !s.workers[w].Reading? then s
    else match c
      case None => GiveUp(cfg, s, w, s.workers[w].path, s.workers[w].size)
      case Some(c) =>
        s.(nextId := s.nextId + 1, workers := s.workers[w := Writing(ReadFile(cfg, s, w, c), c, 0, AtTemp)])
  }

  /** Creating the temporary file truncates one that is there. */
  function ReadTemps(cfg: Config, s: Front, temps: Temps, w: nat, c: Option<Bytes>): Temps {
    if w >= |s.workers| || !s.workers[w].Reading? || c.None? then temps
    else temps[ReadFile(cfg, s, w, c.value).temp := []]
  }

  /** The call leaves the file with the first so many bytes of the content. */
  function Extent(x: Worker, k: nat): nat
    requires x.Writing?
  {
    if x.done + k < |x.content| then x.done + k else |x.content|
  }

  function Written(x: Worker, k: nat): Bytes
    requires x.Writing?
  {
    x.content[..Extent(x, k)]
  }

  predicate WritesAt(s: Front, w: nat, place: Place) {
    w < |s.workers| && s.workers[w].Writing? && s.workers[w].place == place
  }

  function WriteStep(cfg: Config, s: Front, w: nat, k: nat): Front {
    if w >= |s.workers| || !s.workers[w].Writing? then s
    else
      var x := s.workers[w];
      if x.done + k >= |x.content| then s.(workers := s.workers[w := Checking(x.file)])
      else if k == 0 then GiveUp(cfg, s, w, x.file.path, x.file.size)
      else s.(workers := s.workers[w := x.(done := x.done + k)])
  }

  function WriteTemps(s: Front, temps: Temps, w: nat, k: nat): Temps {
    if WritesAt(s, w, AtTemp) then temps[s.workers[w].file.temp := Written(s.workers[w], k)] else temps
  }

  function WriteCas(s: Front, cas: map<Name, Bytes>, w: nat, k: nat): map<Name, Bytes> {
    if w < |s.workers| && s.workers[w].Writing? && s.workers[w].place.AtBlob?
    then cas[s.workers[w].place.name := Written(s.workers[w], k)] else cas
  }

  function CheckStep(cfg: Config, s: Front, w: nat, seen: CheckResult): Front {
    if w >= |s.workers| || !s.workers[w].Checking? then s
    else
      var f := s.workers[w].file;
      if seen == Same then s.(available := s.available + Permit(cfg, f.size), workers := s.workers[w := Sending(f)])
      else GiveUp(cfg, s, w, f.path, f.size)
  }

  /** A file that was modified while it was read is discarded with its temporary file; when the second
      look fails the temporary file stays. */
  function CheckTemps(s: Front, temps: Temps, w: nat, seen: CheckResult): Temps {
    if w >= |s.workers| || !s.workers[w].Checking? || seen != Modified then temps
    else temps - {s.workers[w].file.temp}
  }

  predicate CanSend(cfg: Config, s: State, w: nat) {
    w < |s.front.workers| && s.front.workers[w].Sending? && CanPut(cfg, s.back)
  }

  /** A worker returns when it takes the end mark, or finds the channel empty and closed. */
  predicate CanExit(s: Front, w: nat) {
    w < |s.workers| && s.workers[w] == Idle && s.paths == [] && s.mark != Unsent
  }

  // ---------------------------------------------------------------- the committer

  const SENTINEL := File([], Zeros(32), 0, Fresh(0))

  predicate IsSentinel(f: File) {
    f.size == 0 && f.path == []
  }

  function NameOf(f: File): Name {
    Name(f.hash, f.size)
  }

  /** A received file joins the batch and the count; a sentinel does not. */
  function AddFirst(b: Back): Back
    requires b.commits != []
  {
    var f := b.commits[0];
    if IsSentinel(f) then b.(commits := b.commits[1..])
    else b.(commits := b.commits[1..], batch := b.batch + [f], processed := b.processed + 1)
  }

  function ReceiveStep(b: Back): Back {
    if b.committer != Outer || b.commits == [] then b else AddFirst(b).(committer := Draining)
  }

  function DrainStep(b: Back): Back {
    if b.committer != Draining || b.commits == [] then b
    else AddFirst(b).(committer := if IsSentinel(b.commits[0]) then Draining else Added)
  }

  function StartCommit(b: Back, draining: bool): Back {
    b.(batch := [], committer := Committing(b.batch, draining))
  }

  function DecideStep(cfg: Config, b: Back): Back {
    if b.committer != Added then b
    else if |b.batch| >= cfg.batchSize then StartCommit(b, true)
    else b.(committer := Draining)
  }

  function EndDrainStep(cfg: Config, b: Back): Back {
    if b.committer != Draining || b.commits != [] then b
    else if |b.batch| >= cfg.batchSize then StartCommit(b, false)
    else b.(committer := Outer)
  }

  function TimeoutStep(b: Back): Back {
    if b.committer != Outer || b.commits != [] || b.batch == [] then b else StartCommit(b, false)
  }

  /** The commit channel closes when every worker has returned, so at once when there is none. */
  predicate Closed(s: Front) {
    forall i | 0 <= i < |s.workers| :: s.workers[i] == Exited
  }

  function DisconnectStep(s: Front, b: Back): Back {
    if b.committer != Outer || b.commits != [] || !Closed(s) then b
    else if b.batch == [] then b.(committer := Finished)
    else StartCommit(b, false)
  }

  /** What a turn of the renaming loop does with the next file: `ok` tells whether the rename goes
      through, or the removal for a duplicate, which may fail without harm. */
  datatype Turn = Nothing | Duplicate | Failure | Rename

  function TurnOf(b: Back, temps: Temps, ok: bool): Turn {
    if !b.committer.Committing? || b.committer.rest == [] then Nothing
    else if NameOf(b.committer.rest[0]) in b.cas then Duplicate
    else if !ok || b.committer.rest[0].temp !in temps then Failure
    else Rename
  }

  function CommitStep(b: Back, temps: Temps, ok: bool): Back {
    match TurnOf(b, temps, ok)
    case Nothing =>
      if !b.committer.Committing? then b else b.(committer := if b.committer.draining then Draining else Outer)
    case Duplicate => Commit(b, b.cas, 1)
    case Failure => b.(committer := Crashed(b.committer.rest))
    case Rename => Commit(b, b.cas[NameOf(b.committer.rest[0]) := temps[b.committer.rest[0].temp]], 0)
  }

  function Commit(b: Back, cas: map<Name, Bytes>, dup: nat): Back
    requires b.committer.Committing? && b.committer.rest != []
  {
    b.(cas := cas, deduplicated := b.deduplicated + dup, committed := b.committed + [b.committer.rest[0]],
       committer := Committing(b.committer.rest[1..], b.committer.draining))
  }

  function CommitTemps(b: Back, temps: Temps, ok: bool): Temps {
    match TurnOf(b, temps, ok)
    case Nothing => temps
    case Duplicate => if ok then temps - {b.committer.rest[0].temp} else temps
    case Failure => temps
    case Rename => temps - {b.committer.rest[0].temp}
  }

  /** A worker that is writing the file keeps its handle. Only the worker in a temporary name has it open
      while another file under that name is committed. */
  function Repoint(ws: seq<Worker>, t: Temp, place: Place): seq<Worker> {
    if Opened(ws, t) then ws[t.worker := ws[t.worker].(place := place)] else ws
  }

  predicate Opened(ws: seq<Worker>, t: Temp) {
    && t.Short? && t.worker < |ws| && ws[t.worker].Writing?
    && ws[t.worker].place == AtTemp && ws[t.worker].file.temp == t
  }

  function CommitWorkers(ws: seq<Worker>, b: Back, temps: Temps, ok: bool): seq<Worker> {
    match TurnOf(b, temps, ok)
    case Nothing => ws
    case Duplicate => if ok then Repoint(ws, b.committer.rest[0].temp, Unlinked) else ws
    case Failure => ws
    case Rename => Repoint(ws, b.committer.rest[0].temp, AtBlob(NameOf(b.committer.rest[0])))
  }

  // ---------------------------------------------------------------- runs

  function Step(cfg: Config, s: State, a: Action): State {
    match a
    case Scan => s.(front := ScanStep(cfg, s.front))
    case Take(w, found) => s.(front := TakeStep(s.front, w, found))
    case Acquire(w) => s.(front := AcquireStep(cfg, s.front, w))
    case Read(w, c) => s.(front := ReadStep(cfg, s.front, w, c), temps := ReadTemps(cfg, s.front, s.temps, w, c))
    case Write(w, k) =>
      State(WriteStep(cfg, s.front, w, k), WriteTemps(s.front, s.temps, w, k),
            s.back.(cas := WriteCas(s.front, s.back.cas, w, k)))
    case Check(w, seen) => s.(front := CheckStep(cfg, s.front, w, seen), temps := CheckTemps(s.front, s.temps, w, seen))
    case Send(w) => if CanSend(cfg, s, w) then SendOne(s, w) else s
    case Exit(w, sentinel) => if CanExit(s.front, w) then ExitOne(cfg, s, w, sentinel) else s
    case Receive => s.(back := ReceiveStep(s.back))
    case Drain => s.(back := DrainStep(s.back))
    case Decide => s.(back := DecideStep(cfg, s.back))
    case EndDrain => s.(back := EndDrainStep(cfg, s.back))
    case Timeout => s.(back := TimeoutStep(s.back))
    case CommitOne(ok) =>
      State(s.front.(workers := CommitWorkers(s.front.workers, s.back, s.temps, ok)),
            CommitTemps(s.back, s.temps, ok), CommitStep(s.back, s.temps, ok))
    case Disconnect => s.(back := DisconnectStep(s.front, s.back))
  }

  function SendOne(s: State, w: nat): State
    requires w < |s.front.workers| && s.front.workers[w].Sending?
  {
    s.(front := s.front.(workers := s.front.workers[w := Idle]),
       back := s.back.(commits := s.back.commits + [s.front.workers[w].file]))
  }

  /** The worker that takes the end mark sends a sentinel, unless the channel stays full. */
  function ExitOne(cfg: Config, s: State, w: nat, sentinel: bool): State
    requires w < |s.front.workers|
  {
    s.(front := s.front.(mark := Taken, workers := s.front.workers[w := Exited]),
       back := if s.front.mark == Queued && sentinel && CanPut(cfg, s.back)
               then s.back.(commits := s.back.commits + [SENTINEL]) else s.back)
  }

  /** The run returns: the committer has left its loop and the scanner has sent everything. */
  predicate Ended(s: State) {
    s.back.committer.Finished? && s.front.toScan == [] && s.front.mark != Unsent
  }

  function Run(cfg: Config, s: State, acts: seq<Action>): State {
    if acts == [] then s else Step(cfg, Run(cfg, s, acts[..|acts| - 1]), acts[|acts| - 1])
  }

  // ---------------------------------------------------------------- permits

  function HeldBy(cfg: Config, w: Worker): nat {
    match w
    case Reading(p, n) => Permit(cfg, n)
    case Writing(f, c, k, pl) => Permit(cfg, f.size)
    case Checking(f) => Permit(cfg, f.size)
    case _ => 0
  }

  function Held(cfg: Config, ws: seq<Worker>): nat {
    if ws == [] then 0 else Held(cfg, ws[..|ws| - 1]) + HeldBy(cfg, ws[|ws| - 1])
  }

  lemma {:induction false} HeldUpdate(cfg: Config, ws: seq<Worker>, i: nat, x: Worker)
    requires i < |ws|
    ensures Held(cfg, ws[i := x]) + HeldBy(cfg, ws[i]) == Held(cfg, ws) + HeldBy(cfg, x)
    decreases |ws|
  {
    var front, last := ws[..|ws| - 1], ws[|ws| - 1];
    if i < |front| {
      HeldUpdate(cfg, front, i, x);
      assert ws[i := x][..|ws| - 1] == front[i := x];
    } else {
      assert ws[i := x][..|ws| - 1] == front;
    }
  }

  /** The outstanding permits and the available bytes make up the budget. */
  predicate Conserved(cfg: Config, s: Front) {
    s.available + Held(cfg, s.workers) == cfg.budget
  }

  lemma {:induction false} StepConserves(cfg: Config, s: State, a: Action)
    requires Conserved(cfg, s.front)
    ensures Conserved(cfg, Step(cfg, s, a).front)
  {
    match a
    case Take(w, found) => TakeConserves(cfg, s.front, w, found);
    case Acquire(w) => AcquireConserves(cfg, s.front, w);
    case Read(w, c) => ReadConserves(cfg, s.front, w, c);
    case Write(w, k) => WriteConserves(cfg, s.front, w, k);
    case Check(w, seen) => CheckConserves(cfg, s.front, w, seen);
    case Send(w) => if CanSend(cfg, s, w) { HeldUpdate(cfg, s.front.workers, w, Idle); }
    case Exit(w, _) => if CanExit(s.front, w) { HeldUpdate(cfg, s.front.workers, w, Exited); }
    case CommitOne(ok) => CommitConserves(cfg, s.front, s.back, s.temps, ok);
    case _ =>
  }

  lemma {:induction false} TakeConserves(cfg: Config, s: Front, w: nat, found: Option<nat>)
    requires Conserved(cfg, s)
    ensures Conserved(cfg, TakeStep(s, w, found))
  {
    var s' := TakeStep(s, w, found);
    if s'.seen != s.seen {
      HeldUpdate(cfg, s.workers, w, s'.workers[w]);
    }
  }

  lemma {:induction false} AcquireConserves(cfg: Config, s: Front, w: nat)
    requires Conserved(cfg, s)
    ensures Conserved(cfg, AcquireStep(cfg, s, w))
  {
    if AcquireStep(cfg, s, w) != s {
      HeldUpdate(cfg, s.workers, w, AcquireStep(cfg, s, w).workers[w]);
    }
  }

  lemma {:induction false} WriteConserves(cfg: Config, s: Front, w: nat, k: nat)
    requires Conserved(cfg, s)
    ensures Conserved(cfg, WriteStep(cfg, s, w, k))
  {
    if w < |s.workers| && s.workers[w].Writing? {
      HeldUpdate(cfg, s.workers, w, WriteStep(cfg, s, w, k).workers[w]);
    }
  }

  lemma {:induction false} CommitConserves(cfg: Config, s: Front, b: Back, temps: Temps, ok: bool)
    requires Conserved(cfg, s)
    ensures Conserved(cfg, s.(workers := CommitWorkers(s.workers, b, temps, ok)))
  {
    var turn := TurnOf(b, temps, ok);
    if (turn.Duplicate? || turn.Rename?) && Opened(s.workers, b.committer.rest[0].temp) {
      var w := b.committer.rest[0].temp.worker;
      HeldUpdate(cfg, s.workers, w, CommitWorkers(s.workers, b, temps, ok)[w]);
    }
  }

  lemma {:induction false} ReadConserves(cfg: Config, s: Front, w: nat, c: Option<Bytes>)
    requires Conserved(cfg, s)
    ensures Conserved(cfg, ReadStep(cfg, s, w, c))
  {
    if w < |s.workers| && s.workers[w].Reading? {
      HeldUpdate(cfg, s.workers, w, ReadStep(cfg, s, w, c).workers[w]);
    }
  }

  lemma {:induction false} CheckConserves(cfg: Config, s: Front, w: nat, seen: CheckResult)
    requires Conserved(cfg, s)
    ensures Conserved(cfg, CheckStep(cfg, s, w, seen))
  {
    if w < |s.workers| && s.workers[w].Checking? {
      HeldUpdate(cfg, s.workers, w, CheckStep(cfg, s, w, seen).workers[w]);
    }
  }

  // ---------------------------------------------------------------- stages

  function One(b: bool): nat {
    if b then 1 else 0
  }

  /** How often a path occurs in a list of files; the sentinel has no path. */
  function InFiles(q: seq<File>, p: Bytes): nat {
    if q == [] then 0 else InFiles(q[..|q| - 1], p) + One(IsFile(q[|q| - 1], p))
  }

  predicate IsFile(f: File, p: Bytes) {
    !IsSentinel(f) && f.path == p
  }

  function InPaths(q: seq<Bytes>, p: Bytes): nat {
    if q == [] then 0 else InPaths(q[..|q| - 1], p) + One(q[|q| - 1] == p)
  }

  predicate Has(w: Worker, p: Bytes) {
    match w
    case Idle => false
    case Exited => false
    case Waiting(q, n) => q == p
    case Reading(q, n) => q == p
    case Writing(f, c, k, pl) => IsFile(f, p)
    case Checking(f) => IsFile(f, p)
    case Sending(f) => IsFile(f, p)
  }

  function InWorkers(ws: seq<Worker>, p: Bytes): nat {
    if ws == [] then 0 else InWorkers(ws[..|ws| - 1], p) + One(Has(ws[|ws| - 1], p))
  }

  lemma {:induction false} InWorkersUpdate(ws: seq<Worker>, i: nat, x: Worker, p: Bytes)
    requires i < |ws|
    ensures InWorkers(ws[i := x], p) + One(Has(ws[i], p)) == InWorkers(ws, p) + One(Has(x, p))
    decreases |ws|
  {
    var front := ws[..|ws| - 1];
    if i < |front| {
      InWorkersUpdate(front, i, x, p);
      assert ws[i := x][..|ws| - 1] == front[i := x];
    } else {
      assert ws[i := x][..|ws| - 1] == front;
    }
  }

  lemma {:induction false} InFilesAppend(q: seq<File>, f: File, p: Bytes)
    ensures InFiles(q + [f], p) == InFiles(q, p) + One(IsFile(f, p))
  {
    assert (q + [f])[..|q|] == q;
  }

  lemma {:induction false} InFilesHead(q: seq<File>, p: Bytes)
    requires q != []
    ensures InFiles(q, p) == One(IsFile(q[0], p)) + InFiles(q[1..], p)
    decreases |q|
  {
    if |q| > 1 {
      InFilesHead(q[..|q| - 1], p);
      assert q[1..][..|q| - 2] == q[..|q| - 1][1..];
    }
  }

  /** The files between the batch and the store. */
  function Rest(c: Committer): seq<File> {
    match c
    case Committing(rest, d) => rest
    case Crashed(rest) => rest
    case _ => []
  }

  /** How often a path is with a worker or given up. */
  function InFront(s: Front, p: Bytes): nat {
    InWorkers(s.workers, p) + InPaths(s.failed, p)
  }

  /** How often a path is on its way to the committer, in the batch, being committed, or committed. */
  function InBack(b: Back, p: Bytes): nat {
    InFiles(b.commits, p) + InFiles(b.batch, p) + InFiles(Rest(b.committer), p) + InFiles(b.committed, p)
  }

  /** A claimed path is in exactly one stage, and any other in none. */
  predicate Staged(s: State, p: Bytes) {
    InFront(s.front, p) + InBack(s.back, p) == One(p in s.front.seen)
  }

  /** No path is empty, so no file looks like the sentinel. */
  predicate Pathful(s: Front) {
    HavePaths(s.toScan) && HavePaths(s.paths) && forall i | 0 <= i < |s.workers| :: WorkerHasPath(s.workers[i])
  }

  predicate HavePaths(items: seq<Item>) {
    forall i | 0 <= i < |items| :: items[i].path != []
  }

  predicate WorkerHasPath(w: Worker) {
    match w
    case Idle => true
    case Exited => true
    case Waiting(p, n) => p != []
    case Reading(p, n) => p != []
    case Writing(f, c, k, pl) => f.path != []
    case Checking(f) => f.path != []
    case Sending(f) => f.path != []
  }

  lemma {:induction false} StepPathful(cfg: Config, s: State, a: Action)
    requires Pathful(s.front)
    ensures Pathful(Step(cfg, s, a).front)
  {
    match a
    case Scan =>
    case Take(w, found) =>
    case Acquire(w) =>
    case Read(w, c) => WorkPathful(cfg, s, a);
    case Write(w, k) => WorkPathful(cfg, s, a);
    case Check(w, seen) => WorkPathful(cfg, s, a);
    case CommitOne(ok) => WorkPathful(cfg, s, a);
    case _ =>
  }

  lemma {:induction false} WorkPathful(cfg: Config, s: State, a: Action)
    requires Pathful(s.front) && (a.Read? || a.Write? || a.Check? || a.CommitOne?)
    ensures Pathful(Step(cfg, s, a).front)
  {
    var s' := Step(cfg, s, a);
    forall i | 0 <= i < |s'.front.workers|
      ensures WorkerHasPath(s'.front.workers[i])
    {
      assert WorkerHasPath(s.front.workers[i]);
    }
  }

  lemma {:induction false} StepStages(cfg: Config, s: State, a: Action, p: Bytes)
    requires Pathful(s.front) && Staged(s, p)
    ensures Staged(Step(cfg, s, a), p)
  {
    match a
    case Scan =>
    case Take(w, found) => TakeStages(s.front, w, found, p);
    case Acquire(w) => AcquireStages(cfg, s.front, w, p);
    case Read(w, c) => ReadStages(cfg, s.front, w, c, p);
    case Write(w, k) => WriteStages(cfg, s.front, w, k, p);
    case Check(w, seen) => CheckStages(cfg, s.front, w, seen, p);
    case Send(w) => SendStages(cfg, s, w, p);
    case Exit(w, sentinel) => ExitStages(cfg, s, w, sentinel, p);
    case Receive => AddStages(s.back, p);
    case Drain => AddStages(s.back, p);
    case Decide => FlushStages(cfg, s.front, s.back, p);
    case EndDrain => FlushStages(cfg, s.front, s.back, p);
    case Timeout => FlushStages(cfg, s.front, s.back, p);
    case CommitOne(ok) =>
      MovesToCommitted(Rest(s.back.committer), s.back.committed, p);
      CommitStages(s.back, s.temps, ok, p);
      RepointStages(s.front.workers, s.back, s.temps, ok, p);
    case Disconnect => FlushStages(cfg, s.front, s.back, p);
  }

  lemma {:induction false} TakeStages(s: Front, w: nat, found: Option<nat>, p: Bytes)
    ensures var s' := TakeStep(s, w, found); InFront(s', p) + One(p in s.seen) == InFront(s, p) + One(p in s'.seen)
  {
    var s' := TakeStep(s, w, found);
    if s'.seen != s.seen {
      InWorkersUpdate(s.workers, w, s'.workers[w], p);
    }
  }

  lemma {:induction false} AcquireStages(cfg: Config, s: Front, w: nat, p: Bytes)
    ensures InFront(AcquireStep(cfg, s, w), p) == InFront(s, p)
    ensures AcquireStep(cfg, s, w).seen == s.seen
  {
    if AcquireStep(cfg, s, w) != s {
      InWorkersUpdate(s.workers, w, AcquireStep(cfg, s, w).workers[w], p);
    }
  }

  lemma {:induction false} GiveUpStages(cfg: Config, s: Front, w: nat, q: Bytes, n: nat, p: Bytes)
    requires w < |s.workers| && Has(s.workers[w], p) == (q == p)
    ensures InFront(GiveUp(cfg, s, w, q, n), p) == InFront(s, p)
  {
    InWorkersUpdate(s.workers, w, Idle, p);
    assert (s.failed + [q])[..|s.failed|] == s.failed;
  }

  lemma {:induction false} ReadStages(cfg: Config, s: Front, w: nat, c: Option<Bytes>, p: Bytes)
    requires Pathful(s)
    ensures InFront(ReadStep(cfg, s, w, c), p) == InFront(s, p)
    ensures ReadStep(cfg, s, w, c).seen == s.seen
  {
    if w < |s.workers| && s.workers[w].Reading? {
      assert WorkerHasPath(s.workers[w]);
      match c
      case Some(c) => InWorkersUpdate(s.workers, w, Writing(ReadFile(cfg, s, w, c), c, 0, AtTemp), p);
      case None => GiveUpStages(cfg, s, w, s.workers[w].path, s.workers[w].size, p);
    }
  }

  lemma {:induction false} WriteStages(cfg: Config, s: Front, w: nat, k: nat, p: Bytes)
    requires Pathful(s)
    ensures InFront(WriteStep(cfg, s, w, k), p) == InFront(s, p)
    ensures WriteStep(cfg, s, w, k).seen == s.seen
  {
    if w < |s.workers| && s.workers[w].Writing? {
      assert WorkerHasPath(s.workers[w]);
      var x := s.workers[w];
      if x.done + k < |x.content| && k == 0 {
        GiveUpStages(cfg, s, w, x.file.path, x.file.size, p);
      } else {
        InWorkersUpdate(s.workers, w, WriteStep(cfg, s, w, k).workers[w], p);
      }
    }
  }

  lemma {:induction false} RepointStages(ws: seq<Worker>, b: Back, temps: Temps, ok: bool, p: Bytes)
    ensures InWorkers(CommitWorkers(ws, b, temps, ok), p) == InWorkers(ws, p)
  {
    var turn := TurnOf(b, temps, ok);
    if (turn.Duplicate? || turn.Rename?) && Opened(ws, b.committer.rest[0].temp) {
      var w := b.committer.rest[0].temp.worker;
      InWorkersUpdate(ws, w, CommitWorkers(ws, b, temps, ok)[w], p);
    }
  }

  lemma {:induction false} CheckStages(cfg: Config, s: Front, w: nat, seen: CheckResult, p: Bytes)
    requires Pathful(s)
    ensures InFront(CheckStep(cfg, s, w, seen), p) == InFront(s, p)
    ensures CheckStep(cfg, s, w, seen).seen == s.seen
  {
    if w < |s.workers| && s.workers[w].Checking? {
      assert WorkerHasPath(s.workers[w]);
      var f := s.workers[w].file;
      if seen == Same {
        InWorkersUpdate(s.workers, w, Sending(f), p);
      } else {
        GiveUpStages(cfg, s, w, f.path, f.size, p);
      }
    }
  }

  lemma {:induction false} SendStages(cfg: Config, s: State, w: nat, p: Bytes)
    requires Staged(s, p)
    ensures Staged(Step(cfg, s, Send(w)), p)
  {
    if CanSend(cfg, s, w) {
      var f := s.front.workers[w].file;
      LeavesFront(s.front, w, f, p);
      JoinsBack(s.back, f, p);
    }
  }

  lemma {:induction false} ExitStages(cfg: Config, s: State, w: nat, sentinel: bool, p: Bytes)
    requires Staged(s, p)
    ensures Staged(Step(cfg, s, Exit(w, sentinel)), p)
  {
    if CanExit(s.front, w) {
      ExitLeavesFront(s.front, w, p);
      SentinelStages(s.back, p);
    }
  }

  lemma {:induction false} ExitLeavesFront(s: Front, w: nat, p: Bytes)
    requires w < |s.workers| && s.workers[w] == Idle
    ensures InFront(s.(mark := Taken, workers := s.workers[w := Exited]), p) == InFront(s, p)
  {
    InWorkersUpdate(s.workers, w, Exited, p);
  }

  lemma {:induction false} SentinelStages(b: Back, p: Bytes)
    ensures InBack(b.(commits := b.commits + [SENTINEL]), p) == InBack(b, p)
  {
    JoinsBack(b, SENTINEL, p);
  }

  lemma {:induction false} LeavesFront(s: Front, w: nat, f: File, p: Bytes)
    requires w < |s.workers| && s.workers[w] == Sending(f)
    ensures InFront(s.(workers := s.workers[w := Idle]), p) + One(IsFile(f, p)) == InFront(s, p)
  {
    InWorkersUpdate(s.workers, w, Idle, p);
  }

  lemma {:induction false} JoinsBack(b: Back, f: File, p: Bytes)
    ensures InBack(b.(commits := b.commits + [f]), p) == InBack(b, p) + One(IsFile(f, p))
  {
    InFilesAppend(b.commits, f, p);
  }

  lemma {:induction false} AddStages(b: Back, p: Bytes)
    ensures InBack(ReceiveStep(b), p) == InBack(b, p) && InBack(DrainStep(b), p) == InBack(b, p)
  {
    if b.commits != [] {
      AddFirstStages(b, p);
    }
  }

  lemma {:induction false} AddFirstStages(b: Back, p: Bytes)
    requires b.commits != []
    ensures var b' := AddFirst(b);
            && InFiles(b'.commits, p) + InFiles(b'.batch, p) == InFiles(b.commits, p) + InFiles(b.batch, p)
            && b'.committer == b.committer && b'.committed == b.committed
  {
    InFilesHead(b.commits, p);
    InFilesAppend(b.batch, b.commits[0], p);
  }

  lemma {:induction false} FlushStages(cfg: Config, s: Front, b: Back, p: Bytes)
    ensures InBack(DecideStep(cfg, b), p) == InBack(b, p) && InBack(EndDrainStep(cfg, b), p) == InBack(b, p)
    ensures InBack(TimeoutStep(b), p) == InBack(b, p) && InBack(DisconnectStep(s, b), p) == InBack(b, p)
  {
  }

  lemma {:induction false} CommitStages(b: Back, temps: Temps, ok: bool, p: Bytes)
    requires Moves(Rest(b.committer), b.committed, p)
    ensures InBack(CommitStep(b, temps, ok), p) == InBack(b, p)
  {
    match TurnOf(b, temps, ok)
    case Nothing =>
    case Duplicate => CommitMoves(b, b.cas, 1, p);
    case Failure =>
    case Rename => CommitMoves(b, b.cas[NameOf(b.committer.rest[0]) := temps[b.committer.rest[0].temp]], 0, p);
  }

  lemma {:induction false} CommitMoves(b: Back, cas: map<Name, Bytes>, dup: nat, p: Bytes)
    requires b.committer.Committing? && b.committer.rest != [] && Moves(b.committer.rest, b.committed, p)
    ensures InBack(Commit(b, cas, dup), p) == InBack(b, p)
  {
  }

  /** Committing the first file of the rest moves one place of its path. */
  predicate Moves(rest: seq<File>, committed: seq<File>, p: Bytes) {
    rest != [] ==> (InFiles(rest[1..], p) + InFiles(committed + [rest[0]], p)
                    == InFiles(rest, p) + InFiles(committed, p))
  }

  lemma {:induction false} MovesToCommitted(rest: seq<File>, committed: seq<File>, p: Bytes)
    ensures Moves(rest, committed, p)
  {
    if rest != [] {
      InFilesHead(rest, p);
      InFilesAppend(committed, rest[0], p);
    }
  }
}
