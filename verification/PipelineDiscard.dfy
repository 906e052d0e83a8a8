/** Discarding a modified file takes its temporary file away: when that is another file's too. */
module PipelineDiscard {
  import opened Bytes
  import opened Pipeline
  import opened PipelineRuns
  import opened PipelineFlight
  import opened PipelineContent
  import opened PipelineMissing

  /** The files the walk finds, each once, with what a read of it gets. */
  type Tree = seq<(Bytes, Bytes)>

  ghost predicate IsTree(tree: Tree) {
    && (forall i | 0 <= i < |tree| :: tree[i].0 != [])
    && (forall i, j | 0 <= i < j < |tree| :: tree[i].0 != tree[j].0)
  }

  function ItemOf(file: (Bytes, Bytes)): Item {
    Walked(file.0, |file.1|)
  }

  function ItemsOf(tree: Tree): (items: seq<Item>)
    ensures |items| == |tree| && forall i | 0 <= i < |tree| :: items[i] == ItemOf(tree[i])
  {
    seq(|tree|, i requires 0 <= i < |tree| => ItemOf(tree[i]))
  }

  /** A read fails or gets the file's content; a write may fail, and a file may be found modified
      afterwards. */
  predicate Faithful(tree: Tree, s: State, a: Action) {
    Creates(s, a) ==> (s.front.workers[a.w].path, a.content.value) in tree
  }

  function FaithfulRule(tree: Tree): Rule {
    (s, a) => Faithful(tree, s, a)
  }

  /** No two small files have hashes that share their first four bytes. */
  ghost predicate DistinctPrefixes(cfg: Config, tree: Tree) {
    forall i, j | 0 <= i < j < |tree| && Small(cfg, tree[i].1) && Small(cfg, tree[j].1) ::
      Prefix4(cfg.hash(tree[i].1)) != Prefix4(cfg.hash(tree[j].1))
  }

  // ---------------------------------------------------------------- distinct prefixes suffice

  ghost predicate InTree(tree: Tree, p: Bytes, n: nat) {
    exists i :: 0 <= i < |tree| && tree[i].0 == p && |tree[i].1| == n
  }

  /** Items and workers carry the walk's paths with their sizes. */
  ghost predicate FromTree(tree: Tree, s: Front) {
    && (forall x | x in s.toScan :: x.Walked? && InTree(tree, x.path, x.size))
    && (forall x | x in s.paths :: x.Walked? && InTree(tree, x.path, x.size))
    && (forall w | w in s.workers :: w.Waiting? || w.Reading? ==> InTree(tree, w.path, w.size))
  }

  lemma {:induction false} StepFromTree(cfg: Config, tree: Tree, s: State, a: Action)
    requires FromTree(tree, s.front)
    ensures FromTree(tree, Step(cfg, s, a).front)
  {
    match a
    case Scan =>
    case Take(w, found) =>
    case Acquire(w) =>
    case Read(w, r) =>
    case Write(w, k) =>
    case Check(w, seen) =>
    case Send(w) =>
    case Exit(w, sentinel) =>
    case CommitOne(ok) =>
    case _ =>
  }

  /** A file in flight is one of the tree's; under a short name it is a small one. */
  ghost predicate FromFile(cfg: Config, tree: Tree, f: File) {
    && f.path != []
    && (f.temp.Short? ==> exists i :: 0 <= i < |tree| && tree[i].0 == f.path && Small(cfg, tree[i].1)
                                      && f.temp.prefix == Prefix4(cfg.hash(tree[i].1)))
  }

  /** Files in flight that share a temporary name have one path, and each can be committed. */
  ghost predicate OwnedInv(cfg: Config, tree: Tree, s: State) {
    && NamesOk(s) && Conserved(cfg, s.front) && FromTree(tree, s.front)
    && (forall f :: InFlight(s, f) ==> FromFile(cfg, tree, f) && Present(s, f))
    && (forall f, g :: InFlight(s, f) && InFlight(s, g) && f.temp == g.temp ==> f.path == g.path)
  }

  lemma {:induction false} NewFromFile(cfg: Config, tree: Tree, s: State, a: Action)
    requires IsTree(tree) && FromTree(tree, s.front) && Faithful(tree, s, a) && Creates(s, a) && Conserved(cfg, s.front)
    ensures FromFile(cfg, tree, NewFile(cfg, s, a))
  {
    var w := s.front.workers[a.w];
    assert w in s.front.workers;
    HeldAtLeast(cfg, s.front.workers, a.w);
    var j :| 0 <= j < |tree| && tree[j] == (w.path, a.content.value);
    var i :| 0 <= i < |tree| && tree[i].0 == w.path && |tree[i].1| == w.size;
    assert i == j;
  }

  lemma {:induction false} SamePath(cfg: Config, tree: Tree, f: File, g: File)
    requires DistinctPrefixes(cfg, tree) && FromFile(cfg, tree, f) && FromFile(cfg, tree, g)
    requires f.temp == g.temp && f.temp.Short?
    ensures f.path == g.path
  {
    var i :| 0 <= i < |tree| && tree[i].0 == f.path && Small(cfg, tree[i].1)
             && f.temp.prefix == Prefix4(cfg.hash(tree[i].1));
    var j :| 0 <= j < |tree| && tree[j].0 == g.path && Small(cfg, tree[j].1)
             && g.temp.prefix == Prefix4(cfg.hash(tree[j].1));
  }

  // ---------------------------------------------------------------- counting a path's places

  lemma {:induction false} InFilesHas(q: seq<File>, f: File)
    requires f in q && !IsSentinel(f)
    ensures InFiles(q, f.path) >= 1
    decreases |q|
  {
    var front := q[..|q| - 1];
    if q[|q| - 1] != f {
      assert q == front + [q[|q| - 1]];
      InFilesHas(front, f);
    }
  }

  lemma {:induction false} InWorkersHas(ws: seq<Worker>, i: nat, f: File)
    requires i < |ws| && Carries(ws[i], f) && !IsSentinel(f)
    ensures InWorkers(ws, f.path) >= 1
    decreases |ws|
  {
    if i < |ws| - 1 {
      InWorkersHas(ws[..|ws| - 1], i, f);
    }
  }

  lemma {:induction false} InPathsLast(q: seq<Bytes>, p: Bytes)
    ensures InPaths(q + [p], p) >= 1
  {
    assert (q + [p])[..|q|] == q;
  }

  /** A path in flight is counted among the stages that are not final. */
  lemma {:induction false} FlightCounts(s: State, f: File)
    requires InFlight(s, f) && f.path != []
    ensures InWorkers(s.front.workers, f.path) + InFiles(s.back.commits, f.path) + InFiles(s.back.batch, f.path)
            + InFiles(Rest(s.back.committer), f.path) >= 1
  {
    if f in s.back.commits {
      InFilesHas(s.back.commits, f);
    } else if f in s.back.batch {
      InFilesHas(s.back.batch, f);
    } else if f in Rest(s.back.committer) {
      InFilesHas(Rest(s.back.committer), f);
    } else {
      var i :| 0 <= i < |s.front.workers| && Carries(s.front.workers[i], f);
      InWorkersHas(s.front.workers, i, f);
    }
  }

  /** So a path that was committed or given up is not in flight. */
  lemma {:induction false} FinalIsNotInFlight(s: State, f: File)
    requires Staged(s, f.path) && f.path != []
    requires InFiles(s.back.committed, f.path) >= 1 || InPaths(s.front.failed, f.path) >= 1
    ensures !InFlight(s, f)
  {
    if InFlight(s, f) {
      FlightCounts(s, f);
    }
  }

  /** A commit or a discard takes away a temporary file only of a path that is then no longer in flight. */
  lemma {:induction false} KeepsPresent(cfg: Config, tree: Tree, s: State, a: Action, f: File)
    requires OwnedInv(cfg, tree, s) && InFlight(s, f) && InFlight(Step(cfg, s, a), f)
    requires Staged(Step(cfg, s, a), f.path)
    ensures Present(Step(cfg, s, a), f)
  {
    assert Present(s, f);
    match a
    case CommitOne(ok) => CommitKeepsPresent(cfg, tree, s, ok, f);
    case Check(w, seen) => CheckKeepsPresent(cfg, tree, s, w, seen, f);
    case Read(w, c) =>
    case Write(w, k) =>
    case _ => OtherPresent(cfg, s, a, f);
  }

  lemma {:induction false} CommitKeepsPresent(cfg: Config, tree: Tree, s: State, ok: bool, f: File)
    requires OwnedInv(cfg, tree, s) && InFlight(s, f) && InFlight(Step(cfg, s, CommitOne(ok)), f)
    requires Staged(Step(cfg, s, CommitOne(ok)), f.path)
    ensures Present(Step(cfg, s, CommitOne(ok)), f)
  {
    assert Present(s, f) && FromFile(cfg, tree, f);
    if Commits(s.back, s.temps, ok) && s.back.committer.rest[0].temp == f.temp {
      var g := s.back.committer.rest[0];
      assert InFlight(s, g);
      CommittedIsFinal(Step(cfg, s, CommitOne(ok)), s.back.committed, g, f);
    } else {
      CommitOtherPresent(cfg, s, ok, f);
    }
  }

  predicate Commits(b: Back, temps: Temps, ok: bool) {
    TurnOf(b, temps, ok).Duplicate? || TurnOf(b, temps, ok).Rename?
  }

  lemma {:induction false} CommitOtherPresent(cfg: Config, s: State, ok: bool, f: File)
    requires Present(s, f) && (Commits(s.back, s.temps, ok) ==> s.back.committer.rest[0].temp != f.temp)
    ensures Present(Step(cfg, s, CommitOne(ok)), f)
  {
    match TurnOf(s.back, s.temps, ok) case Nothing => case Duplicate => case Failure => case Rename =>
  }

  lemma {:induction false} CommittedIsFinal(s: State, committed: seq<File>, g: File, f: File)
    requires s.back.committed == committed + [g] && g.path == f.path && f.path != [] && Staged(s, f.path)
    ensures !InFlight(s, f)
  {
    InFilesAppend(committed, g, g.path);
    FinalIsNotInFlight(s, f);
  }

  lemma {:induction false} CheckKeepsPresent(cfg: Config, tree: Tree, s: State, w: nat, seen: CheckResult, f: File)
    requires OwnedInv(cfg, tree, s) && InFlight(s, f) && InFlight(Step(cfg, s, Check(w, seen)), f)
    requires Staged(Step(cfg, s, Check(w, seen)), f.path)
    ensures Present(Step(cfg, s, Check(w, seen)), f)
  {
    var s' := Step(cfg, s, Check(w, seen));
    assert Present(s, f) && FromFile(cfg, tree, f);
    if w < |s.front.workers| && s.front.workers[w].Checking? && seen == Modified {
      var g := s.front.workers[w].file;
      assert Carries(s.front.workers[w], g) && InFlight(s, g);
      if g.temp == f.temp {
        GivenUpIsFinal(s', s.front.failed, f);
      }
    }
  }

  lemma {:induction false} GivenUpIsFinal(s: State, failed: seq<Bytes>, f: File)
    requires s.front.failed == failed + [f.path] && f.path != [] && Staged(s, f.path)
    ensures !InFlight(s, f)
  {
    InPathsLast(failed, f.path);
    FinalIsNotInFlight(s, f);
  }

  lemma {:induction false} StepOwned(cfg: Config, tree: Tree, s: State, a: Action)
    requires IsTree(tree) && DistinctPrefixes(cfg, tree) && OwnedInv(cfg, tree, s) && Faithful(tree, s, a)
    requires forall p :: Staged(Step(cfg, s, a), p)
    ensures OwnedInv(cfg, tree, Step(cfg, s, a))
  {
    var s' := Step(cfg, s, a);
    StepNames(cfg, s, a);
    StepConserves(cfg, s, a);
    StepFromTree(cfg, tree, s, a);
    forall f | InFlight(s', f)
      ensures FromFile(cfg, tree, f) && Present(s', f)
    {
      FlightStep(cfg, s, a, f);
      if InFlight(s, f) {
        assert Staged(s', f.path);
        KeepsPresent(cfg, tree, s, a, f);
      } else {
        NewFromFile(cfg, tree, s, a);
      }
    }
    forall f, g | InFlight(s', f) && InFlight(s', g) && f.temp == g.temp
      ensures f.path == g.path
    {
      StepSamePath(cfg, tree, s, a, f, g);
    }
  }

  lemma {:induction false} StepSamePath(cfg: Config, tree: Tree, s: State, a: Action, f: File, g: File)
    requires IsTree(tree) && DistinctPrefixes(cfg, tree) && OwnedInv(cfg, tree, s) && Faithful(tree, s, a)
    requires InFlight(Step(cfg, s, a), f) && InFlight(Step(cfg, s, a), g) && f.temp == g.temp
    ensures f.path == g.path
  {
    FlightStep(cfg, s, a, f);
    FlightStep(cfg, s, a, g);
    if Creates(s, a) {
      NewFromFile(cfg, tree, s, a);
      assert InFlight(s, f) ==> FromFile(cfg, tree, f) && DrawnBelow(s.front.nextId, f);
      assert InFlight(s, g) ==> FromFile(cfg, tree, g) && DrawnBelow(s.front.nextId, g);
      if f.temp.Short? {
        SamePath(cfg, tree, f, g);
      }
    }
  }

  lemma {:induction false} RunOwned(cfg: Config, tree: Tree, workers: nat, cas0: map<Name, Bytes>, acts: seq<Action>)
    requires IsTree(tree) && DistinctPrefixes(cfg, tree)
    requires Obeys(cfg, Init(cfg, ItemsOf(tree), workers, cas0), acts, FaithfulRule(tree))
    ensures OwnedInv(cfg, tree, Run(cfg, Init(cfg, ItemsOf(tree), workers, cas0), acts))
    decreases |acts|
  {
    var s0 := Init(cfg, ItemsOf(tree), workers, cas0);
    if acts == [] {
      IdleWorkers(cfg, s0.front.workers);
      StartsFromTree(tree, s0.front);
    } else {
      ObeysFront(cfg, s0, acts, FaithfulRule(tree));
      RunOwned(cfg, tree, workers, cas0, acts[..|acts| - 1]);
      RunKeepsInv(cfg, ItemsOf(tree), workers, cas0, acts);
      StepOwned(cfg, tree, Run(cfg, s0, acts[..|acts| - 1]), acts[|acts| - 1]);
    }
  }

  lemma {:induction false} StartsFromTree(tree: Tree, s: Front)
    requires s.toScan == ItemsOf(tree) && s.paths == [] && forall w | w in s.workers :: w == Idle
    ensures FromTree(tree, s)
  {
    forall x | x in s.toScan
      ensures x.Walked? && InTree(tree, x.path, x.size)
    {
      var i :| 0 <= i < |tree| && s.toScan[i] == x;
      assert tree[i].0 == x.path;
    }
  }

  lemma {:induction false} OwnedIsNotMissing(cfg: Config, tree: Tree, s: State)
    requires OwnedInv(cfg, tree, s)
    ensures !Missing(s)
  {
    if s.back.committer.Committing? && s.back.committer.rest != [] {
      assert InFlight(s, s.back.committer.rest[0]);
    }
  }

  // ---------------------------------------------------------------- a shared prefix does harm

  /** Reads of the part fail. */
  lemma {:induction false} QuietIsFaithful(cfg: Config, tree: Tree, s: State, acts: seq<Action>)
    requires forall a | a in acts :: a.Read? ==> a.content.None?
    ensures Obeys(cfg, s, acts, FaithfulRule(tree))
  {
    ObeysAnywhere(cfg, s, acts, FaithfulRule(tree));
  }

  ghost predicate HasPath(tree: Tree, k: nat, q: Bytes)
    requires k <= |tree|
  {
    exists l :: 0 <= l < k && tree[l].0 == q
  }

  lemma {:induction false} HasPathNext(tree: Tree, k: nat)
    requires IsTree(tree) && k < |tree|
    ensures !HasPath(tree, k, tree[k].0)
    ensures forall q :: HasPath(tree, k + 1, q) <==> HasPath(tree, k, q) || q == tree[k].0
  {
    assert HasPath(tree, k + 1, tree[k].0);
  }

  /** One worker more than files: the files before `k` are done with, or wait for a permit above the
      budget, the `m`-th with worker `m + 1`, and the first worker is idle. */
  ghost predicate Before(cfg: Config, tree: Tree, s: State, k: nat)
    requires k <= |tree|
  {
    && |s.front.workers| == |tree| + 1 && s.front.workers[0] == Idle
    && (forall m | k < m <= |tree| :: s.front.workers[m] == Idle)
    && s.front.paths == [] && s.front.mark == Unsent && s.front.available == cfg.budget
    && s.front.toScan == ItemsOf(tree)[k..]
    && (forall q :: q in s.front.seen <==> HasPath(tree, k, q))
  }

  /** The first worker is about to read file `i`. */
  ghost predicate AtFile(cfg: Config, tree: Tree, s: State, i: nat)
    requires i < |tree|
  {
    && |s.front.workers| == |tree| + 1 && s.front.workers[0] == Reading(tree[i].0, |tree[i].1|)
    && (forall m | i < m <= |tree| :: s.front.workers[m] == Idle)
    && s.front.paths == [] && s.front.mark == Unsent
    && s.front.available == cfg.budget - Permit(cfg, |tree[i].1|)
    && s.front.toScan == ItemsOf(tree)[i + 1..]
    && (forall q :: q in s.front.seen <==> HasPath(tree, i + 1, q))
  }

  /** The first worker begins with file `k`. */
  lemma {:induction false} Begins(cfg: Config, tree: Tree, s: State, k: nat) returns (s': State)
    requires IsTree(tree) && k < |tree| && Before(cfg, tree, s, k) && Permit(cfg, |tree[k].1|) <= cfg.budget
    ensures s' == Run(cfg, s, BEGIN) && AtFile(cfg, tree, s', k) && s'.back == s.back && s'.temps == s.temps
    ensures Obeys(cfg, s, BEGIN, FaithfulRule(tree))
  {
    var items := ItemsOf(tree);
    HasPathNext(tree, k);
    assert items[k..][0] == items[k] && items[k..][1..] == items[k + 1..];
    s' := BegunNext(cfg, s, tree[k].0, |tree[k].1|);
    QuietIsFaithful(cfg, tree, s, BEGIN);
  }

  /** Passing over file `k`: it cannot be read, or its worker waits for ever. */
  function Pass(cfg: Config, tree: Tree, k: nat): seq<Action>
    requires k < |tree|
  {
    if Permit(cfg, |tree[k].1|) <= cfg.budget then BEGIN + [Read(0, None)] else [Scan, Take(k + 1, None)]
  }

  lemma {:induction false} Passed(cfg: Config, tree: Tree, s: State, k: nat) returns (s': State)
    requires IsTree(tree) && k < |tree| && Before(cfg, tree, s, k)
    ensures s' == Run(cfg, s, Pass(cfg, tree, k)) && Before(cfg, tree, s', k + 1)
    ensures s'.back == s.back && s'.temps == s.temps
    ensures Obeys(cfg, s, Pass(cfg, tree, k), FaithfulRule(tree))
  {
    if Permit(cfg, |tree[k].1|) <= cfg.budget {
      var s1 := Begins(cfg, tree, s, k);
      s' := Step(cfg, s1, Read(0, None));
      RunConcat(cfg, s, BEGIN, [Read(0, None)]);
      RunOne(cfg, s1, Read(0, None));
    } else {
      s' := Parked(cfg, tree, s, k);
    }
    QuietIsFaithful(cfg, tree, s, Pass(cfg, tree, k));
  }

  lemma {:induction false} Parked(cfg: Config, tree: Tree, s: State, k: nat) returns (s': State)
    requires IsTree(tree) && k < |tree| && Before(cfg, tree, s, k)
    ensures s' == Run(cfg, s, [Scan, Take(k + 1, None)]) && Before(cfg, tree, s', k + 1)
    ensures s'.back == s.back && s'.temps == s.temps
  {
    var items := ItemsOf(tree);
    HasPathNext(tree, k);
    assert items[k..][0] == items[k] && items[k..][1..] == items[k + 1..];
    var s1 := Step(cfg, s, Scan);
    assert s1.front.paths == [items[k]];
    s' := Step(cfg, s1, Take(k + 1, None));
    assert s'.front.paths == [];
    RunTwo(cfg, s, Scan, Take(k + 1, None));
  }

  /** Passing over the files from `k` to before `i`. */
  lemma {:induction false} PassedTo(cfg: Config, tree: Tree, s: State, k: nat, i: nat) returns (acts: seq<Action>)
    requires IsTree(tree) && k <= i <= |tree| && Before(cfg, tree, s, k)
    ensures var s' := Run(cfg, s, acts); Before(cfg, tree, s', i) && s'.back == s.back && s'.temps == s.temps
    ensures Obeys(cfg, s, acts, FaithfulRule(tree))
    decreases i - k
  {
    if k == i {
      acts := [];
    } else {
      var s1 := Passed(cfg, tree, s, k);
      var rest := PassedTo(cfg, tree, s1, k + 1, i);
      acts := Pass(cfg, tree, k) + rest;
      Then(cfg, s, Pass(cfg, tree, k), rest, FaithfulRule(tree));
    }
  }

  /** Passing over the files from `k` on, and beginning with file `i`. */
  lemma {:induction false} GoTo(cfg: Config, tree: Tree, s: State, k: nat, i: nat) returns (acts: seq<Action>)
    requires IsTree(tree) && k <= i < |tree| && Before(cfg, tree, s, k) && Small(cfg, tree[i].1)
    ensures var s' := Run(cfg, s, acts); AtFile(cfg, tree, s', i) && s'.back == s.back && s'.temps == s.temps
    ensures Obeys(cfg, s, acts, FaithfulRule(tree))
  {
    var passes := PassedTo(cfg, tree, s, k, i);
    var s2 := Begins(cfg, tree, Run(cfg, s, passes), i);
    acts := passes + BEGIN;
    Then(cfg, s, passes, BEGIN, FaithfulRule(tree));
  }

  function FileOf(cfg: Config, file: (Bytes, Bytes)): File {
    File(file.0, cfg.hash(file.1), |file.1|, SharedTemp(cfg, file.1))
  }

  /** Reading the file at hand is faithful. */
  lemma {:induction false} FaithfulRead(cfg: Config, tree: Tree, s: State, i: nat)
    requires i < |tree| && AtFile(cfg, tree, s, i)
    ensures Obeys(cfg, s, ReadAndWrite(tree[i].1), FaithfulRule(tree))
  {
    var acts := ReadAndWrite(tree[i].1);
    assert acts[..0] == [] && Run(cfg, s, []) == s;
    assert tree[i] == (tree[i].0, tree[i].1) && tree[i] in tree;
  }

  function SendAndReceive(c: Bytes): seq<Action> {
    ReadAndSend(c) + [Receive]
  }

  /** The file at hand is read, sent and received. */
  lemma {:induction false} SendsFile(cfg: Config, tree: Tree, s: State, i: nat) returns (s': State)
    requires i < |tree| && AtFile(cfg, tree, s, i) && Small(cfg, tree[i].1)
    requires tree[i].0 != [] && s.back == Back([], [], Outer, map[], 0, 0, [])
    ensures s' == Run(cfg, s, SendAndReceive(tree[i].1)) && Before(cfg, tree, s', i + 1)
    ensures s'.back == Back([], [FileOf(cfg, tree[i])], Draining, map[], 1, 0, [])
  {
    var c := tree[i].1;
    var s1 := ReadAndSent(cfg, s, tree[i].0, c);
    assert FileRead(cfg, s, tree[i].0, c) == FileOf(cfg, tree[i]);
    s' := Step(cfg, s1, Receive);
    assert s'.back.batch == [FileOf(cfg, tree[i])] && s'.back.commits == [];
    RunConcat(cfg, s, ReadAndSend(c), [Receive]);
    RunOne(cfg, s1, Receive);
  }

  lemma {:induction false} FaithfulSend(cfg: Config, tree: Tree, s: State, i: nat)
    requires i < |tree| && AtFile(cfg, tree, s, i)
    ensures Obeys(cfg, s, SendAndReceive(tree[i].1), FaithfulRule(tree))
  {
    var c := tree[i].1;
    var tail := [Check(0, Same), Send(0)] + [Receive];
    FaithfulRead(cfg, tree, s, i);
    QuietIsFaithful(cfg, tree, Run(cfg, s, ReadAndWrite(c)), tail);
    ObeysConcat(cfg, s, ReadAndWrite(c), tail, FaithfulRule(tree));
    assert ReadAndWrite(c) + tail == SendAndReceive(c);
  }

  const DISCARD := Check(0, Modified)

  function ReadAndDiscard(c: Bytes): seq<Action> {
    ReadAndWrite(c) + [DISCARD]
  }

  /** The file at hand is read, found modified and discarded. */
  lemma {:induction false} DiscardsFile(cfg: Config, tree: Tree, s: State, j: nat) returns (s': State)
    requires j < |tree| && AtFile(cfg, tree, s, j) && Small(cfg, tree[j].1)
    ensures s' == Run(cfg, s, ReadAndDiscard(tree[j].1))
    ensures Obeys(cfg, s, ReadAndDiscard(tree[j].1), FaithfulRule(tree))
    ensures s'.back == s.back && SharedTemp(cfg, tree[j].1) !in s'.temps
  {
    var c := tree[j].1;
    var s1 := ReadAndWritten(cfg, s, tree[j].0, c);
    s' := Step(cfg, s1, DISCARD);
    RunOne(cfg, s1, DISCARD);
    FaithfulRead(cfg, tree, s, j);
    QuietIsFaithful(cfg, tree, s1, [DISCARD]);
    Then(cfg, s, ReadAndWrite(c), [DISCARD], FaithfulRule(tree));
  }

  /** The files before `i` are passed over and file `i` is sent. */
  lemma {:induction false} FirstIsSent(cfg: Config, tree: Tree, i: nat) returns (acts: seq<Action>)
    requires IsTree(tree) && i < |tree| && Small(cfg, tree[i].1)
    ensures var s := Run(cfg, Init(cfg, ItemsOf(tree), |tree| + 1, map[]), acts);
            Before(cfg, tree, s, i + 1) && s.back == Back([], [FileOf(cfg, tree[i])], Draining, map[], 1, 0, [])
    ensures Obeys(cfg, Init(cfg, ItemsOf(tree), |tree| + 1, map[]), acts, FaithfulRule(tree))
  {
    var s0 := Init(cfg, ItemsOf(tree), |tree| + 1, map[]);
    assert ItemsOf(tree)[0..] == ItemsOf(tree);
    var a := GoTo(cfg, tree, s0, 0, i);
    var s1 := Run(cfg, s0, a);
    var s := SendsFile(cfg, tree, s1, i);
    acts := a + SendAndReceive(tree[i].1);
    FaithfulSend(cfg, tree, s1, i);
    Then(cfg, s0, a, SendAndReceive(tree[i].1), FaithfulRule(tree));
  }

  /** The files up to `j` are passed over, file `j` is discarded, and the one file sent is to be committed. */
  lemma {:induction false} SecondIsDiscarded(cfg: Config, tree: Tree, s: State, k: nat, j: nat, f: File)
    returns (acts: seq<Action>)
    requires IsTree(tree) && k <= j < |tree| && Small(cfg, tree[j].1) && Before(cfg, tree, s, k)
    requires s.back == Back([], [f], Draining, map[], 1, 0, []) && f.temp == SharedTemp(cfg, tree[j].1)
    ensures Missing(Run(cfg, s, acts)) && Obeys(cfg, s, acts, FaithfulRule(tree))
  {
    var a := GoTo(cfg, tree, s, k, j);
    var b := ReadAndDiscard(tree[j].1);
    var s2 := DiscardsFile(cfg, tree, Run(cfg, s, a), j);
    var s3 := CommitStarts(cfg, s2, f);
    acts := a + b + COMMIT;
    QuietIsFaithful(cfg, tree, s2, COMMIT);
    ThreeParts(cfg, s, a, b, COMMIT, FaithfulRule(tree));
  }

  /** Two small files whose hashes share four bytes: the second one's discard takes the first one's
      temporary file, and the first one's commit misses it. */
  lemma {:induction false} DiscardLosesTemp(cfg: Config, tree: Tree, i: nat, j: nat) returns (acts: seq<Action>)
    requires IsTree(tree) && i < j < |tree| && Small(cfg, tree[i].1) && Small(cfg, tree[j].1)
    requires Prefix4(cfg.hash(tree[i].1)) == Prefix4(cfg.hash(tree[j].1))
    ensures Obeys(cfg, Init(cfg, ItemsOf(tree), |tree| + 1, map[]), acts, FaithfulRule(tree))
    ensures Missing(Run(cfg, Init(cfg, ItemsOf(tree), |tree| + 1, map[]), acts))
  {
    var s0 := Init(cfg, ItemsOf(tree), |tree| + 1, map[]);
    var a := FirstIsSent(cfg, tree, i);
    var b := SecondIsDiscarded(cfg, tree, Run(cfg, s0, a), i + 1, j, FileOf(cfg, tree[i]));
    acts := a + b;
    Then(cfg, s0, a, b, FaithfulRule(tree));
  }

  // ---------------------------------------------------------------- the exact condition

  ghost predicate NeverMissingIn(cfg: Config, tree: Tree) {
    forall workers: nat, cas0: map<Name, Bytes>, acts: seq<Action> ::
      Obeys(cfg, Init(cfg, ItemsOf(tree), workers, cas0), acts, FaithfulRule(tree))
      ==> !Missing(Run(cfg, Init(cfg, ItemsOf(tree), workers, cas0), acts))
  }

  /** With files that may be found modified, no commit of any run over a tree misses its temporary file
      exactly when no two small files have hashes that share their first four bytes: so never with two
      equal small files. */
  lemma {:induction false} DiscardIsSafeExactly(cfg: Config, tree: Tree)
    requires IsTree(tree)
    ensures NeverMissingIn(cfg, tree) <==> DistinctPrefixes(cfg, tree)
  {
    if DistinctPrefixes(cfg, tree) {
      forall workers: nat, cas0: map<Name, Bytes>, acts: seq<Action>
        | Obeys(cfg, Init(cfg, ItemsOf(tree), workers, cas0), acts, FaithfulRule(tree))
        ensures !Missing(Run(cfg, Init(cfg, ItemsOf(tree), workers, cas0), acts))
      {
        RunOwned(cfg, tree, workers, cas0, acts);
        OwnedIsNotMissing(cfg, tree, Run(cfg, Init(cfg, ItemsOf(tree), workers, cas0), acts));
      }
    } else {
      var i, j :| 0 <= i < j < |tree| && Small(cfg, tree[i].1) && Small(cfg, tree[j].1)
                  && Prefix4(cfg.hash(tree[i].1)) == Prefix4(cfg.hash(tree[j].1));
      var acts := DiscardLosesTemp(cfg, tree, i, j);
      assert Obeys(cfg, Init(cfg, ItemsOf(tree), |tree| + 1, map[]), acts, FaithfulRule(tree));
    }
  }
}
