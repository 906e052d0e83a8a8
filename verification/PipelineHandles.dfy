/** Open handles in the streaming pipeline: where the bytes go that a worker writes. */
module PipelineHandles {
  import opened Bytes
  import opened Pipeline
  import opened PipelineRuns
  import opened PipelineFlight

  /** The file behind a writer's handle has exactly what was written so far: the temporary file, or the blob
      that it was renamed to meanwhile. A file that was removed has no name. */
  predicate Follows(x: Worker, temps: Temps, cas: map<Name, Bytes>) {
    x.Writing? ==>
      && x.done <= |x.content|
      && (x.place.AtTemp? ==> x.file.temp in temps && temps[x.file.temp] == x.content[..x.done])
      && (x.place.AtBlob? ==> x.place.name in cas && cas[x.place.name] == x.content[..x.done])
  }

  predicate OnBlob(x: Worker, n: Name) {
    x.Writing? && x.place == AtBlob(n)
  }

  ghost predicate HandlesOk(s: State) {
    && (forall i | 0 <= i < |s.front.workers| :: Follows(s.front.workers[i], s.temps, s.back.cas))
    && (forall i, j, n | 0 <= i < |s.front.workers| && 0 <= j < |s.front.workers| && OnBlob(s.front.workers[i], n)
                         && OnBlob(s.front.workers[j], n) :: i == j)
  }

  /** Two workers never write under one temporary name. */
  lemma {:induction false} OwnTemps(s: State, i: nat, j: nat)
    requires NamesOk(s) && i < |s.front.workers| && j < |s.front.workers| && i != j
    requires s.front.workers[i].Writing? && (s.front.workers[j].Writing? || s.front.workers[j].Checking?)
    ensures s.front.workers[i].file.temp != s.front.workers[j].file.temp
  {
    assert Carries(s.front.workers[i], s.front.workers[i].file);
    assert Carries(s.front.workers[j], s.front.workers[j].file);
    assert Own(s, i, s.front.workers[i].file) && Own(s, j, s.front.workers[j].file);
  }

  lemma {:induction false} NewTemp(cfg: Config, s: State, a: Action, i: nat)
    requires NamesOk(s) && Creates(s, a) && i < |s.front.workers| && i != a.w && s.front.workers[i].Writing?
    ensures s.front.workers[i].file.temp != NewFile(cfg, s, a).temp
  {
    var f := s.front.workers[i].file;
    assert Carries(s.front.workers[i], f);
    assert InFlight(s, f) && Own(s, i, f);
    assert DrawnBelow(s.front.nextId, f);
  }

  lemma {:induction false} ReadFollows(cfg: Config, s: State, w: nat, c: Option<Bytes>)
    requires NamesOk(s) && HandlesOk(s)
    ensures HandlesOk(Step(cfg, s, Read(w, c)))
  {
    var a := Read(w, c);
    var s' := Step(cfg, s, a);
    if Creates(s, a) {
      forall i | 0 <= i < |s'.front.workers|
        ensures Follows(s'.front.workers[i], s'.temps, s'.back.cas)
      {
        if i != w && s.front.workers[i].Writing? {
          NewTemp(cfg, s, a, i);
          assert Follows(s.front.workers[i], s.temps, s.back.cas);
        }
      }
    }
  }

  lemma {:induction false} WriteFollows(cfg: Config, s: State, w: nat, k: nat)
    requires NamesOk(s) && HandlesOk(s)
    ensures HandlesOk(Step(cfg, s, Write(w, k)))
  {
    var s' := Step(cfg, s, Write(w, k));
    forall i | 0 <= i < |s'.front.workers|
      ensures Follows(s'.front.workers[i], s'.temps, s'.back.cas)
    {
      assert Follows(s.front.workers[i], s.temps, s.back.cas);
      if i != w && s.front.workers[i].Writing? && w < |s.front.workers| && s.front.workers[w].Writing? {
        OwnTemps(s, i, w);
        if s.front.workers[i].place.AtBlob? {
          assert OnBlob(s.front.workers[i], s.front.workers[i].place.name);
        }
      }
    }
  }

  lemma {:induction false} CheckFollows(cfg: Config, s: State, w: nat, seen: CheckResult)
    requires NamesOk(s) && HandlesOk(s)
    ensures HandlesOk(Step(cfg, s, Check(w, seen)))
  {
    var s' := Step(cfg, s, Check(w, seen));
    forall i | 0 <= i < |s'.front.workers|
      ensures Follows(s'.front.workers[i], s'.temps, s'.back.cas)
    {
      assert Follows(s.front.workers[i], s.temps, s.back.cas);
      if s.front.workers[i].Writing? && w < |s.front.workers| && s.front.workers[w].Checking? {
        OwnTemps(s, i, w);
      }
    }
  }

  /** When the file committed next is open, it is under the writer's own temporary name. */
  lemma {:induction false} CommittedIsOpen(s: State, i: nat)
    requires NamesOk(s) && i < |s.front.workers| && s.front.workers[i].Writing? && Rest(s.back.committer) != []
    requires s.front.workers[i].file.temp == Rest(s.back.committer)[0].temp && s.front.workers[i].place == AtTemp
    ensures var t := Rest(s.back.committer)[0].temp; Opened(s.front.workers, t) && t.worker == i
  {
    var f := s.front.workers[i].file;
    assert Carries(s.front.workers[i], f);
    assert Own(s, i, f) && Behind(s.back, Rest(s.back.committer)[0]);
  }

  lemma {:induction false} CommitOneFollows(cfg: Config, s: State, ok: bool, i: nat)
    requires NamesOk(s) && HandlesOk(s) && i < |s.front.workers|
    ensures var s' := Step(cfg, s, CommitOne(ok)); Follows(s'.front.workers[i], s'.temps, s'.back.cas)
  {
    var x := s.front.workers[i];
    assert Follows(x, s.temps, s.back.cas);
    if x.Writing? && x.place == AtTemp && Rest(s.back.committer) != []
       && x.file.temp == Rest(s.back.committer)[0].temp {
      CommittedIsOpen(s, i);
    }
  }

  lemma {:induction false} CommitFollows(cfg: Config, s: State, ok: bool)
    requires NamesOk(s) && HandlesOk(s)
    ensures HandlesOk(Step(cfg, s, CommitOne(ok)))
  {
    var s' := Step(cfg, s, CommitOne(ok));
    forall i | 0 <= i < |s'.front.workers|
      ensures Follows(s'.front.workers[i], s'.temps, s'.back.cas)
    {
      CommitOneFollows(cfg, s, ok, i);
    }
    forall i, j, n | 0 <= i < |s'.front.workers| && 0 <= j < |s'.front.workers| && OnBlob(s'.front.workers[i], n)
                     && OnBlob(s'.front.workers[j], n)
      ensures i == j
    {
      StillApart(cfg, s, ok, i, j, n);
    }
  }

  /** A rename gives a name that no handle has. */
  lemma {:induction false} StillApart(cfg: Config, s: State, ok: bool, i: nat, j: nat, n: Name)
    requires HandlesOk(s) && i < |s.front.workers| && j < |s.front.workers|
    requires var ws := Step(cfg, s, CommitOne(ok)).front.workers;
             |ws| == |s.front.workers| && OnBlob(ws[i], n) && OnBlob(ws[j], n)
    ensures i == j
  {
    assert Follows(s.front.workers[i], s.temps, s.back.cas) && Follows(s.front.workers[j], s.temps, s.back.cas);
  }

  lemma {:induction false} StepFollows(cfg: Config, s: State, a: Action)
    requires NamesOk(s) && HandlesOk(s)
    ensures HandlesOk(Step(cfg, s, a))
  {
    match a
    case Take(w, found) => OthersFollow(cfg, s, a);
    case Acquire(w) => OthersFollow(cfg, s, a);
    case Send(w) => OthersFollow(cfg, s, a);
    case Exit(w, sentinel) => OthersFollow(cfg, s, a);
    case Read(w, c) => ReadFollows(cfg, s, w, c);
    case Write(w, k) => WriteFollows(cfg, s, w, k);
    case Check(w, seen) => CheckFollows(cfg, s, w, seen);
    case CommitOne(ok) => CommitFollows(cfg, s, ok);
    case _ =>
  }

  lemma {:induction false} OthersFollow(cfg: Config, s: State, a: Action)
    requires HandlesOk(s) && (a.Take? || a.Acquire? || a.Send? || a.Exit?)
    ensures HandlesOk(Step(cfg, s, a))
  {
    var s' := Step(cfg, s, a);
    forall i | 0 <= i < |s'.front.workers|
      ensures s'.front.workers[i].Writing? ==> s'.front.workers[i] == s.front.workers[i]
    {
    }
  }

  /** At every moment of every run, whatever was renamed, removed or begun anew under the same temporary name
      meanwhile, the file behind each writer's handle holds exactly the bytes it has written, under its
      temporary name or as the blob it became; and no two handles lead to one blob. */
  lemma {:induction false} HandlesFollow(cfg: Config, items: seq<Item>, workers: nat, cas: map<Name, Bytes>,
                                         acts: seq<Action>)
    ensures HandlesOk(Run(cfg, Init(cfg, items, workers, cas), acts))
    decreases |acts|
  {
    if acts != [] {
      var n := |acts| - 1;
      HandlesFollow(cfg, items, workers, cas, acts[..n]);
      RunNames(cfg, items, workers, cas, acts[..n]);
      StepFollows(cfg, Run(cfg, Init(cfg, items, workers, cas), acts[..n]), acts[n]);
    }
  }
}
