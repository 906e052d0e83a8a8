/** What the streaming pipeline puts into the store.

    A small file's temporary file is named after four bytes of its hash and the worker, so several
    files in flight can share one, and one can be renamed while it is written again; the results below
    say exactly when that spoils no blob. */
module PipelineContent {
  import opened Bytes
  import opened Pipeline
  import opened PipelineRuns
  import opened PipelineFlight

  /** The file goes through a temporary file named after its hash, and its permit can be had. */
  predicate Small(cfg: Config, c: Bytes) {
    |c| < cfg.threshold && Permit(cfg, |c|) <= cfg.budget
  }

  /** Small contents whose hashes share their first four bytes have the same hash. */
  ghost predicate NoClash(cfg: Config, contents: set<Bytes>) {
    forall c, d | c in contents && d in contents && Small(cfg, c) && Small(cfg, d) ::
      Prefix4(cfg.hash(c)) == Prefix4(cfg.hash(d)) ==> cfg.hash(c) == cfg.hash(d)
  }

  /** The part of a content that is written first. */
  function Part(c: Bytes, k: nat): Bytes {
    if k < |c| then c[..k] else c
  }

  /** No part of a small content has another hash than the whole: with a hash that tells contents apart,
      no small content but the empty one. */
  ghost predicate NoPartTells(cfg: Config, contents: set<Bytes>) {
    forall c, k: nat | c in contents && Small(cfg, c) :: cfg.hash(Part(c, k)) == cfg.hash(c)
  }

  // ---------------------------------------------------------------- which runs

  /** A read gets one of the contents, of the size the walk saw. */
  predicate Sized(contents: set<Bytes>, s: State, a: Action) {
    a.Read? && a.content.Some? ==>
      && a.content.value in contents
      && (Creates(s, a) ==> s.front.workers[a.w].size == |a.content.value|)
  }

  /** A write that fails half way. */
  predicate Tears(s: State, a: Action) {
    && a.Write? && a.count == 0 && a.w < |s.front.workers| && s.front.workers[a.w].Writing?
    && s.front.workers[a.w].done < |s.front.workers[a.w].content|
  }

  function SizedRule(contents: set<Bytes>): Rule {
    (s, a) => Sized(contents, s, a)
  }

  /** And no write fails. */
  function CleanRule(contents: set<Bytes>): Rule {
    (s, a) => Sized(contents, s, a) && !Tears(s, a)
  }

  lemma {:induction false} CleanIsSized(cfg: Config, contents: set<Bytes>, s: State, acts: seq<Action>)
    requires Obeys(cfg, s, acts, CleanRule(contents))
    ensures Obeys(cfg, s, acts, SizedRule(contents))
  {
    forall i | 0 <= i < |acts|
      ensures SizedRule(contents)(Run(cfg, s, acts[..i]), acts[i])
    {
      assert CleanRule(contents)(Run(cfg, s, acts[..i]), acts[i]);
    }
  }

  // ---------------------------------------------------------------- what a blob may hold

  /** Every added blob hashes to its name; with `loose`, but for those a worker is still writing. */
  ghost predicate Addressed(cfg: Config, cas0: map<Name, Bytes>, s: State, loose: bool) {
    forall n :: n in s.back.cas && n !in cas0
                ==> cfg.hash(s.back.cas[n]) == n.hash || (loose && BeingStored(s.front, n))
  }

  ghost predicate BeingStored(s: Front, n: Name) {
    exists i :: 0 <= i < |s.workers| && WritesAt(s, i, AtBlob(n))
  }

  /** Files in flight come from the contents, so two that share a short name share the hash. */
  ghost predicate FromContents(cfg: Config, contents: set<Bytes>, s: State) {
    forall f :: InFlight(s, f) ==> FileOk(cfg, contents, f)
  }

  ghost predicate FileOk(cfg: Config, contents: set<Bytes>, f: File) {
    f.temp.Short? ==> f.temp.prefix == Prefix4(f.hash)
                      && exists c :: c in contents && Small(cfg, c) && cfg.hash(c) == f.hash
  }

  lemma {:induction false} SameTempSameHash(cfg: Config, contents: set<Bytes>, f: File, g: File)
    requires NoClash(cfg, contents) && FileOk(cfg, contents, f) && FileOk(cfg, contents, g)
    requires f.temp == g.temp && f.temp.Short?
    ensures f.hash == g.hash
  {
    var c :| c in contents && Small(cfg, c) && cfg.hash(c) == f.hash;
    var d :| d in contents && Small(cfg, d) && cfg.hash(d) == g.hash;
  }

  /** Whoever holds a permit, the budget covers it. */
  lemma {:induction false} HeldAtLeast(cfg: Config, ws: seq<Worker>, i: nat)
    requires i < |ws|
    ensures HeldBy(cfg, ws[i]) <= Held(cfg, ws)
    decreases |ws|
  {
    if i < |ws| - 1 {
      HeldAtLeast(cfg, ws[..|ws| - 1], i);
    }
  }

  lemma {:induction false} NewFileOk(cfg: Config, contents: set<Bytes>, s: State, a: Action)
    requires Sized(contents, s, a) && Creates(s, a) && Conserved(cfg, s.front)
    ensures FileOk(cfg, contents, NewFile(cfg, s, a))
    ensures NewFile(cfg, s, a).temp.Short? ==> Small(cfg, a.content.value)
  {
    HeldAtLeast(cfg, s.front.workers, a.w);
    assert a.content.value in contents;
  }

  lemma {:induction false} StepFromContents(cfg: Config, contents: set<Bytes>, s: State, a: Action)
    requires FromContents(cfg, contents, s) && Sized(contents, s, a) && Conserved(cfg, s.front)
    ensures FromContents(cfg, contents, Step(cfg, s, a))
  {
    forall f | InFlight(Step(cfg, s, a), f)
      ensures FileOk(cfg, contents, f)
    {
      FlightStep(cfg, s, a, f);
      if !InFlight(s, f) {
        NewFileOk(cfg, contents, s, a);
      }
    }
  }

  // ---------------------------------------------------------------- writers

  /** What a worker that writes has at hand. */
  ghost predicate WriterOk(cfg: Config, contents: set<Bytes>, temps: Temps, x: Worker) {
    x.Writing? ==>
      && x.file.hash == cfg.hash(x.content)
      && (x.file.temp.Short? ==> x.content in contents && Small(cfg, x.content))
      && (x.place != AtTemp ==> x.file.temp.Short? && x.file.temp !in temps)
      && (x.place.AtBlob? ==> x.place.name.hash == x.file.hash)
  }

  ghost predicate WritersOk(cfg: Config, contents: set<Bytes>, s: State) {
    forall i | 0 <= i < |s.front.workers| :: WriterOk(cfg, contents, s.temps, s.front.workers[i])
  }

  lemma {:induction false} StepWriters(cfg: Config, contents: set<Bytes>, s: State, a: Action)
    requires NoClash(cfg, contents) && NamesOk(s) && FromContents(cfg, contents, s) && WritersOk(cfg, contents, s)
    requires Sized(contents, s, a) && Conserved(cfg, s.front)
    ensures WritersOk(cfg, contents, Step(cfg, s, a))
  {
    var s' := Step(cfg, s, a);
    forall i | 0 <= i < |s'.front.workers|
      ensures WriterOk(cfg, contents, s'.temps, s'.front.workers[i])
    {
      StepWriter(cfg, contents, s, a, i);
    }
  }

  lemma {:induction false} StepWriter(cfg: Config, contents: set<Bytes>, s: State, a: Action, i: nat)
    requires NoClash(cfg, contents) && NamesOk(s) && FromContents(cfg, contents, s) && WritersOk(cfg, contents, s)
    requires Sized(contents, s, a) && Conserved(cfg, s.front) && i < |Step(cfg, s, a).front.workers|
    ensures var s' := Step(cfg, s, a); WriterOk(cfg, contents, s'.temps, s'.front.workers[i])
  {
    match a
    case Read(w, c) => ReadWriter(cfg, contents, s, a, i);
    case Write(w, k) => WriteWriter(cfg, contents, s, w, k, i);
    case CommitOne(ok) => CommitWriter(cfg, contents, s, ok, i);
    case Check(w, seen) => assert WriterOk(cfg, contents, s.temps, s.front.workers[i]);
    case _ => OtherWriter(cfg, s, a, i);
  }

  lemma {:induction false} OtherWriter(cfg: Config, s: State, a: Action, i: nat)
    requires !a.Read? && !a.Write? && !a.CommitOne? && !a.Check? && i < |Step(cfg, s, a).front.workers|
    ensures var s' := Step(cfg, s, a);
            s'.temps == s.temps && i < |s.front.workers|
            && (s'.front.workers[i].Writing? ==> s'.front.workers[i] == s.front.workers[i])
  {
  }

  lemma {:induction false} ReadWriter(cfg: Config, contents: set<Bytes>, s: State, a: Action, i: nat)
    requires NamesOk(s) && WritersOk(cfg, contents, s) && a.Read?
    requires Sized(contents, s, a) && Conserved(cfg, s.front) && i < |s.front.workers|
    ensures var s' := Step(cfg, s, a); i < |s'.front.workers| && WriterOk(cfg, contents, s'.temps, s'.front.workers[i])
  {
    var x := s.front.workers[i];
    assert WriterOk(cfg, contents, s.temps, x);
    if Creates(s, a) {
      NewFileOk(cfg, contents, s, a);
      if i != a.w && x.Writing? {
        assert Carries(x, x.file) && Own(s, i, x.file);
      }
    }
  }

  lemma {:induction false} WriteWriter(cfg: Config, contents: set<Bytes>, s: State, w: nat, k: nat, i: nat)
    requires NamesOk(s) && WritersOk(cfg, contents, s) && i < |s.front.workers|
    ensures var s' := Step(cfg, s, Write(w, k));
            i < |s'.front.workers| && WriterOk(cfg, contents, s'.temps, s'.front.workers[i])
  {
    var x := s.front.workers[i];
    assert WriterOk(cfg, contents, s.temps, x);
    if w < |s.front.workers| && s.front.workers[w].Writing? && w != i && x.Writing? {
      assert Carries(x, x.file) && Own(s, i, x.file);
      assert Carries(s.front.workers[w], s.front.workers[w].file) && Own(s, w, s.front.workers[w].file);
    }
  }

  lemma {:induction false} CommitWriter(cfg: Config, contents: set<Bytes>, s: State, ok: bool, i: nat)
    requires NoClash(cfg, contents) && FromContents(cfg, contents, s) && WritersOk(cfg, contents, s)
    requires i < |s.front.workers|
    ensures var s' := Step(cfg, s, CommitOne(ok));
            i < |s'.front.workers| && WriterOk(cfg, contents, s'.temps, s'.front.workers[i])
  {
    var x := s.front.workers[i];
    assert WriterOk(cfg, contents, s.temps, x);
    var turn := TurnOf(s.back, s.temps, ok);
    if turn.Duplicate? || turn.Rename? {
      var f := s.back.committer.rest[0];
      assert InFlight(s, f);
      if Opened(s.front.workers, f.temp) && f.temp.worker == i {
        assert Carries(x, x.file) && InFlight(s, x.file);
        SameTempSameHash(cfg, contents, f, x.file);
      }
    }
  }

  // ---------------------------------------------------------------- temporary files

  /** The file is written whole. */
  predicate Done(w: Worker, f: File) {
    w == Checking(f) || w == Sending(f)
  }

  ghost predicate Complete(s: State, f: File) {
    (exists i :: 0 <= i < |s.front.workers| && Done(s.front.workers[i], f)) || Behind(s.back, f)
  }

  /** A temporary file under the name of a hash: with `loose`, it may be open for writing. */
  predicate Good(cfg: Config, s: State, t: Temp, h: Bytes, loose: bool) {
    t in s.temps ==> cfg.hash(s.temps[t]) == h || (loose && Opened(s.front.workers, t))
  }

  ghost predicate TempsOk(cfg: Config, s: State, loose: bool) {
    forall f :: Complete(s, f) ==> Good(cfg, s, f.temp, f.hash, loose)
  }

  ghost predicate ContentInv(cfg: Config, contents: set<Bytes>, cas0: map<Name, Bytes>, s: State, loose: bool) {
    && NamesOk(s) && Conserved(cfg, s.front) && FromContents(cfg, contents, s) && WritersOk(cfg, contents, s)
    && TempsOk(cfg, s, loose) && Addressed(cfg, cas0, s, loose)
  }

  /** In the strict reading no part may tell, and in the loose one no write may fail. */
  ghost predicate Allowed(cfg: Config, contents: set<Bytes>, s: State, a: Action, loose: bool) {
    Sized(contents, s, a) && if loose then !Tears(s, a) else NoPartTells(cfg, contents)
  }

  lemma {:induction false} CompleteFlies(s: State, f: File)
    requires Complete(s, f)
    ensures InFlight(s, f)
  {
    if !Behind(s.back, f) {
      var i :| 0 <= i < |s.front.workers| && Done(s.front.workers[i], f);
      assert Carries(s.front.workers[i], f);
    }
  }

  /** A file is complete that was so before, or that a worker has just finished writing. */
  lemma {:induction false} CompleteStep(cfg: Config, s: State, a: Action, f: File)
    requires Complete(Step(cfg, s, a), f)
    ensures Complete(s, f) || (a.Write? && Finishes(s.front, a.w, a.count) && s.front.workers[a.w].file == f)
  {
    var s' := Step(cfg, s, a);
    if Behind(s'.back, f) {
      BehindStep(cfg, s, a, f);
      if !Behind(s.back, f) {
        assert Done(s.front.workers[a.w], f);
      }
    } else {
      var i :| 0 <= i < |s'.front.workers| && Done(s'.front.workers[i], f);
      DoneStep(cfg, s, a, i, f);
    }
  }

  predicate Finishes(s: Front, w: nat, k: nat) {
    w < |s.workers| && s.workers[w].Writing? && s.workers[w].done + k >= |s.workers[w].content|
  }

  lemma {:induction false} DoneStep(cfg: Config, s: State, a: Action, i: nat, f: File)
    requires i < |Step(cfg, s, a).front.workers| && Done(Step(cfg, s, a).front.workers[i], f)
    ensures i < |s.front.workers|
    ensures Done(s.front.workers[i], f)
            || (a.Write? && a.w == i && Finishes(s.front, i, a.count) && s.front.workers[i].file == f)
  {
    match a
    case Scan =>
    case Take(w, found) =>
    case Acquire(w) =>
    case Read(w, c) =>
    case Write(w, k) =>
    case Check(w, seen) =>
    case Send(w) =>
    case Exit(w, sentinel) =>
    case CommitOne(ok) =>
    case _ =>
  }

  /** The contents of the temporary file that a writing worker's handle leads to, after a call. */
  lemma {:induction false} WrittenHash(cfg: Config, contents: set<Bytes>, s: State, w: nat, k: nat, loose: bool)
    requires Allowed(cfg, contents, s, Write(w, k), loose) && WritersOk(cfg, contents, s)
    requires w < |s.front.workers| && s.front.workers[w].Writing? && s.front.workers[w].file.temp.Short?
    ensures var x := s.front.workers[w];
            var x' := WriteStep(cfg, s.front, w, k).workers[w];
            cfg.hash(Written(x, k)) == x.file.hash || (loose && x'.Writing? && x'.file == x.file && x'.place == x.place)
  {
    var x := s.front.workers[w];
    assert WriterOk(cfg, contents, s.temps, x);
    if Finishes(s.front, w, k) {
      assert Written(x, k) == x.content;
    } else if !loose {
      assert Written(x, k) == Part(x.content, x.done + k);
    }
  }

  lemma {:induction false} StepTemps(cfg: Config, contents: set<Bytes>, cas0: map<Name, Bytes>, s: State, a: Action,
                                     loose: bool)
    requires NoClash(cfg, contents) && ContentInv(cfg, contents, cas0, s, loose) && Allowed(cfg, contents, s, a, loose)
    ensures TempsOk(cfg, Step(cfg, s, a), loose)
  {
    var s' := Step(cfg, s, a);
    forall f | Complete(s', f)
      ensures Good(cfg, s', f.temp, f.hash, loose)
    {
      CompleteStep(cfg, s, a, f);
      match a
      case Read(w, c) => ReadTemp(cfg, contents, cas0, s, a, loose, f);
      case Write(w, k) => WriteTemp(cfg, contents, cas0, s, w, k, loose, f);
      case CommitOne(ok) => CommitTemp(cfg, s, ok, loose, f);
      case Check(w, seen) => CheckTemp(cfg, s, w, seen, loose, f);
      case _ => OtherTemp(cfg, s, a, loose, f);
    }
  }

  lemma {:induction false} ReadTemp(cfg: Config, contents: set<Bytes>, cas0: map<Name, Bytes>, s: State, a: Action,
                                    loose: bool, f: File)
    requires NoClash(cfg, contents) && ContentInv(cfg, contents, cas0, s, loose) && Allowed(cfg, contents, s, a, loose)
    requires a.Read? && Complete(s, f)
    ensures Good(cfg, Step(cfg, s, a), f.temp, f.hash, loose)
  {
    assert Good(cfg, s, f.temp, f.hash, loose);
    if Creates(s, a) {
      var g := NewFile(cfg, s, a);
      CompleteFlies(s, f);
      assert DrawnBelow(s.front.nextId, f) && FileOk(cfg, contents, f);
      NewFileOk(cfg, contents, s, a);
      if f.temp == g.temp {
        SameTempSameHash(cfg, contents, f, g);
        assert Part(a.content.value, 0) == [];
      }
    }
  }

  lemma {:induction false} WriteTemp(cfg: Config, contents: set<Bytes>, cas0: map<Name, Bytes>, s: State,
                                     w: nat, k: nat, loose: bool, f: File)
    requires NoClash(cfg, contents) && ContentInv(cfg, contents, cas0, s, loose)
    requires Allowed(cfg, contents, s, Write(w, k), loose)
    requires Complete(s, f) || (Finishes(s.front, w, k) && s.front.workers[w].file == f)
    ensures Good(cfg, Step(cfg, s, Write(w, k)), f.temp, f.hash, loose)
  {
    if w < |s.front.workers| && s.front.workers[w].Writing? {
      var x := s.front.workers[w];
      assert Carries(x, x.file) && InFlight(s, x.file) && Own(s, w, x.file) && WriterOk(cfg, contents, s.temps, x);
      if x.file.temp.Fresh? && Complete(s, f) {
        FreshIsAlone(s, w, f);
      }
      if f.temp != x.file.temp {
        OtherWriteTemp(cfg, s, w, k, loose, f);
      } else if x.file.temp.Short? {
        WrittenHash(cfg, contents, s, w, k, loose);
        if Complete(s, f) {
          CompleteFlies(s, f);
          SameTempSameHash(cfg, contents, f, x.file);
        }
      } else {
        assert Written(x, k) == x.content;
      }
    }
  }

  lemma {:induction false} OtherWriteTemp(cfg: Config, s: State, w: nat, k: nat, loose: bool, f: File)
    requires w < |s.front.workers| && s.front.workers[w].Writing? && f.temp != s.front.workers[w].file.temp
    requires Good(cfg, s, f.temp, f.hash, loose)
    ensures Good(cfg, Step(cfg, s, Write(w, k)), f.temp, f.hash, loose)
  {
  }

  /** A fresh name is written by its own file only. */
  lemma {:induction false} FreshIsAlone(s: State, w: nat, f: File)
    requires w < |s.front.workers| && s.front.workers[w].Writing? && Own(s, w, s.front.workers[w].file)
    requires s.front.workers[w].file.temp.Fresh? && Complete(s, f)
    ensures f.temp != s.front.workers[w].file.temp
  {
    if !Behind(s.back, f) {
      var i :| 0 <= i < |s.front.workers| && Done(s.front.workers[i], f);
      assert Carries(s.front.workers[i], f) && i != w;
    }
  }

  lemma {:induction false} CommitTemp(cfg: Config, s: State, ok: bool, loose: bool, f: File)
    requires Good(cfg, s, f.temp, f.hash, loose)
    ensures Good(cfg, Step(cfg, s, CommitOne(ok)), f.temp, f.hash, loose)
  {
    match TurnOf(s.back, s.temps, ok) case Nothing => case Duplicate => case Failure => case Rename =>
  }

  lemma {:induction false} CheckTemp(cfg: Config, s: State, w: nat, seen: CheckResult, loose: bool, f: File)
    requires Good(cfg, s, f.temp, f.hash, loose)
    ensures Good(cfg, Step(cfg, s, Check(w, seen)), f.temp, f.hash, loose)
  {
  }

  lemma {:induction false} OtherTemp(cfg: Config, s: State, a: Action, loose: bool, f: File)
    requires !a.Read? && !a.Write? && !a.CommitOne? && !a.Check? && Good(cfg, s, f.temp, f.hash, loose)
    ensures Good(cfg, Step(cfg, s, a), f.temp, f.hash, loose)
  {
    if Opened(s.front.workers, f.temp) {
      assert f.temp.worker < |Step(cfg, s, a).front.workers|;
    }
  }

  // ---------------------------------------------------------------- blobs

  lemma {:induction false} StepAddressed(cfg: Config, contents: set<Bytes>, cas0: map<Name, Bytes>, s: State, a: Action,
                                         loose: bool)
    requires NoClash(cfg, contents) && ContentInv(cfg, contents, cas0, s, loose) && Allowed(cfg, contents, s, a, loose)
    ensures Addressed(cfg, cas0, Step(cfg, s, a), loose)
  {
    var s' := Step(cfg, s, a);
    forall n | n in s'.back.cas && n !in cas0
      ensures cfg.hash(s'.back.cas[n]) == n.hash || (loose && BeingStored(s'.front, n))
    {
      match a
      case Write(w, k) => WriteBlob(cfg, contents, cas0, s, w, k, loose, n);
      case CommitOne(ok) => CommitBlob(cfg, contents, cas0, s, ok, loose, n);
      case _ => OtherBlob(cfg, cas0, s, a, loose, n);
    }
  }

  lemma {:induction false} OtherBlob(cfg: Config, cas0: map<Name, Bytes>, s: State, a: Action, loose: bool, n: Name)
    requires !a.Write? && !a.CommitOne? && Addressed(cfg, cas0, s, loose)
    requires var s' := Step(cfg, s, a); n in s'.back.cas && n !in cas0
    ensures var s' := Step(cfg, s, a); cfg.hash(s'.back.cas[n]) == n.hash || (loose && BeingStored(s'.front, n))
  {
    OtherCas(cfg, s, a);
    if BeingStored(s.front, n) {
      var i :| 0 <= i < |s.front.workers| && WritesAt(s.front, i, AtBlob(n));
      OtherHandle(cfg, s, a, i);
      assert WritesAt(Step(cfg, s, a).front, i, AtBlob(n));
    }
  }

  lemma {:induction false} OtherCas(cfg: Config, s: State, a: Action)
    requires !a.Write? && !a.CommitOne?
    ensures Step(cfg, s, a).back.cas == s.back.cas
  {
  }

  lemma {:induction false} OtherHandle(cfg: Config, s: State, a: Action, i: nat)
    requires !a.Write? && !a.CommitOne? && i < |s.front.workers| && s.front.workers[i].Writing?
    ensures var s' := Step(cfg, s, a); i < |s'.front.workers| && s'.front.workers[i] == s.front.workers[i]
  {
  }

  lemma {:induction false} WriteBlob(cfg: Config, contents: set<Bytes>, cas0: map<Name, Bytes>, s: State,
                                     w: nat, k: nat, loose: bool, n: Name)
    requires ContentInv(cfg, contents, cas0, s, loose) && Allowed(cfg, contents, s, Write(w, k), loose)
    requires var s' := Step(cfg, s, Write(w, k)); n in s'.back.cas && n !in cas0
    ensures var s' := Step(cfg, s, Write(w, k));
            cfg.hash(s'.back.cas[n]) == n.hash || (loose && BeingStored(s'.front, n))
  {
    var s' := Step(cfg, s, Write(w, k));
    if WritesAt(s.front, w, AtBlob(n)) {
      assert WriterOk(cfg, contents, s.temps, s.front.workers[w]);
      WrittenHash(cfg, contents, s, w, k, loose);
      if s'.front.workers[w].Writing? {
        assert WritesAt(s'.front, w, AtBlob(n));
      }
    } else if BeingStored(s.front, n) {
      var i :| 0 <= i < |s.front.workers| && WritesAt(s.front, i, AtBlob(n));
      assert WritesAt(s'.front, i, AtBlob(n));
    }
  }

  lemma {:induction false} CommitBlob(cfg: Config, contents: set<Bytes>, cas0: map<Name, Bytes>, s: State, ok: bool,
                                      loose: bool, n: Name)
    requires ContentInv(cfg, contents, cas0, s, loose)
    requires var s' := Step(cfg, s, CommitOne(ok)); n in s'.back.cas && n !in cas0
    ensures var s' := Step(cfg, s, CommitOne(ok));
            cfg.hash(s'.back.cas[n]) == n.hash || (loose && BeingStored(s'.front, n))
  {
    var s' := Step(cfg, s, CommitOne(ok));
    if TurnOf(s.back, s.temps, ok).Rename? && n == NameOf(s.back.committer.rest[0]) {
      var f := s.back.committer.rest[0];
      assert Complete(s, f);
      assert Good(cfg, s, f.temp, f.hash, loose);
      if Opened(s.front.workers, f.temp) {
        assert WritesAt(s'.front, f.temp.worker, AtBlob(n));
      }
    } else if BeingStored(s.front, n) {
      var i :| 0 <= i < |s.front.workers| && WritesAt(s.front, i, AtBlob(n));
      assert WritesAt(s'.front, i, AtBlob(n));
    }
  }

  lemma {:induction false} StepContent(cfg: Config, contents: set<Bytes>, cas0: map<Name, Bytes>, s: State, a: Action,
                                       loose: bool)
    requires NoClash(cfg, contents) && ContentInv(cfg, contents, cas0, s, loose) && Allowed(cfg, contents, s, a, loose)
    ensures ContentInv(cfg, contents, cas0, Step(cfg, s, a), loose)
  {
    StepNames(cfg, s, a);
    StepConserves(cfg, s, a);
    StepFromContents(cfg, contents, s, a);
    StepWriters(cfg, contents, s, a);
    StepTemps(cfg, contents, cas0, s, a, loose);
    StepAddressed(cfg, contents, cas0, s, a, loose);
  }

  function AllowedRule(contents: set<Bytes>, loose: bool): Rule {
    if loose then CleanRule(contents) else SizedRule(contents)
  }

  lemma {:induction false} RunContent(cfg: Config, contents: set<Bytes>, items: seq<Item>, workers: nat,
                                      cas0: map<Name, Bytes>, acts: seq<Action>, loose: bool)
    requires NoClash(cfg, contents) && (loose || NoPartTells(cfg, contents))
    requires Obeys(cfg, Init(cfg, items, workers, cas0), acts, AllowedRule(contents, loose))
    ensures ContentInv(cfg, contents, cas0, Run(cfg, Init(cfg, items, workers, cas0), acts), loose)
    decreases |acts|
  {
    var s0 := Init(cfg, items, workers, cas0);
    if acts == [] {
      IdleWorkers(cfg, s0.front.workers);
    } else {
      var front := acts[..|acts| - 1];
      ObeysFront(cfg, s0, acts, AllowedRule(contents, loose));
      RunContent(cfg, contents, items, workers, cas0, front, loose);
      StepContent(cfg, contents, cas0, Run(cfg, s0, front), acts[|acts| - 1], loose);
    }
  }

  // ---------------------------------------------------------------- one worker, two small files

  function Pair(c: Bytes, d: Bytes): seq<Item> {
    [Walked([1], |c|), Walked([2], |d|)]
  }

  function SharedTemp(cfg: Config, c: Bytes): Temp {
    Short(Prefix4(cfg.hash(c)), 0)
  }

  function FirstFile(cfg: Config, c: Bytes): File {
    File([1], cfg.hash(c), |c|, SharedTemp(cfg, c))
  }

  function SendFirst(c: Bytes): seq<Action> {
    BEGIN + ReadAndSend(c) + [Receive]
  }

  function Lead(c: Bytes): seq<Action> {
    SendFirst(c) + BEGIN
  }

  predicate Reads2(cfg: Config, s: State, c: Bytes, d: Bytes) {
    && s.front.workers == [Reading([2], |d|)] && s.temps == map[SharedTemp(cfg, c) := c]
    && s.back == Back([], [FirstFile(cfg, c)], Draining, map[], 1, 0, [])
  }

  /** The first file is with the committer, the second about to be read. */
  lemma {:induction false} OneSentOneReading(cfg: Config, contents: set<Bytes>, c: Bytes, d: Bytes) returns (s: State)
    requires Small(cfg, c) && Small(cfg, d) && c in contents
    ensures s == Run(cfg, Init(cfg, Pair(c, d), 1, map[]), Lead(c)) && Reads2(cfg, s, c, d)
    ensures Obeys(cfg, Init(cfg, Pair(c, d), 1, map[]), Lead(c), CleanRule(contents))
  {
    var s0 := Init(cfg, Pair(c, d), 1, map[]);
    var ok := CleanRule(contents);
    var s3 := FirstReceived(cfg, contents, c, d);
    s := BegunNext(cfg, s3, [2], |d|);
    assert s.front.workers == [Reading([2], |d|)];
    ObeysAnywhere(cfg, s3, BEGIN, ok);
    Then(cfg, s0, SendFirst(c), BEGIN, ok);
  }

  /** The single worker is idle again after the first file. */
  predicate Between(cfg: Config, s: State, c: Bytes, d: Bytes) {
    && s.front.workers == [Idle] && s.front.paths == [] && s.front.mark == Unsent && s.front.seen == {[1]}
    && s.front.toScan == [Walked([2], |d|)] && s.front.available == cfg.budget
    && s.temps == map[SharedTemp(cfg, c) := c]
  }

  lemma {:induction false} FirstSent(cfg: Config, contents: set<Bytes>, c: Bytes, d: Bytes) returns (s: State)
    requires Small(cfg, c) && c in contents
    ensures s == Run(cfg, Init(cfg, Pair(c, d), 1, map[]), BEGIN + ReadAndSend(c)) && Between(cfg, s, c, d)
    ensures Obeys(cfg, Init(cfg, Pair(c, d), 1, map[]), BEGIN + ReadAndSend(c), CleanRule(contents))
    ensures s.back == Back([FirstFile(cfg, c)], [], Outer, map[], 0, 0, [])
  {
    var s0 := Init(cfg, Pair(c, d), 1, map[]);
    var ok := CleanRule(contents);
    assert s0.front.workers == [Idle];
    var s1 := BegunNext(cfg, s0, [1], |c|);
    assert s1.front.workers == [Reading([1], |c|)];
    s := ReadAndSent(cfg, s1, [1], c);
    assert s.front.workers == [Idle];
    assert FileRead(cfg, s1, [1], c) == FirstFile(cfg, c);
    ObeysAnywhere(cfg, s0, BEGIN, ok);
    CleanSend(cfg, contents, s1, [1], c);
    Then(cfg, s0, BEGIN, ReadAndSend(c), ok);
  }

  lemma {:induction false} FirstReceived(cfg: Config, contents: set<Bytes>, c: Bytes, d: Bytes) returns (s: State)
    requires Small(cfg, c) && c in contents
    ensures s == Run(cfg, Init(cfg, Pair(c, d), 1, map[]), SendFirst(c)) && Between(cfg, s, c, d)
    ensures Obeys(cfg, Init(cfg, Pair(c, d), 1, map[]), SendFirst(c), CleanRule(contents))
    ensures s.back == Back([], [FirstFile(cfg, c)], Draining, map[], 1, 0, [])
  {
    var ok := CleanRule(contents);
    var s2 := FirstSent(cfg, contents, c, d);
    s := Step(cfg, s2, Receive);
    assert s.back.batch == [FirstFile(cfg, c)] && s.back.commits == [];
    RunOne(cfg, s2, Receive);
    ObeysAnywhere(cfg, s2, [Receive], ok);
    Then(cfg, Init(cfg, Pair(c, d), 1, map[]), BEGIN + ReadAndSend(c), [Receive], ok);
  }

  lemma {:induction false} CleanSend(cfg: Config, contents: set<Bytes>, s: State, p: Bytes, c: Bytes)
    requires s.front.workers != [] && s.front.workers[0] == Reading(p, |c|) && c in contents
    ensures Obeys(cfg, s, ReadAndSend(c), CleanRule(contents)) && Obeys(cfg, s, ReadAndWrite(c), CleanRule(contents))
  {
    var ok := CleanRule(contents);
    var s1 := Step(cfg, s, Read(0, Some(c)));
    OneObeys(cfg, s, Read(0, Some(c)), ok);
    RunOne(cfg, s, Read(0, Some(c)));
    OneObeys(cfg, s1, Write(0, |c|), ok);
    ObeysConcat(cfg, s, [Read(0, Some(c))], [Write(0, |c|)], ok);
    assert [Read(0, Some(c))] + [Write(0, |c|)] == ReadAndWrite(c);
    ObeysAnywhere(cfg, Run(cfg, s, ReadAndWrite(c)), [Check(0, Same), Send(0)], ok);
    ObeysConcat(cfg, s, ReadAndWrite(c), [Check(0, Same), Send(0)], ok);
  }

  lemma {:induction false} OneObeys(cfg: Config, s: State, a: Action, ok: Rule)
    requires ok(s, a)
    ensures Obeys(cfg, s, [a], ok)
  {
    assert [a][..0] == [] && Run(cfg, s, []) == s;
  }

  const COMMIT_ONE := COMMIT + [CommitOne(true)]

  /** The one file with the committer is committed with what its temporary file holds. */
  lemma {:induction false} CommitsFirst(cfg: Config, s: State, f: File) returns (s': State)
    requires s.back == Back([], [f], Draining, map[], 1, 0, []) && f.temp in s.temps
    ensures s' == Run(cfg, s, COMMIT_ONE) && s'.back.cas == map[NameOf(f) := s.temps[f.temp]]
    ensures !Opened(s.front.workers, f.temp) ==> s'.front.workers == s.front.workers
  {
    var s1 := CommitStarts(cfg, s, f);
    s' := Step(cfg, s1, CommitOne(true));
    RunConcat(cfg, s, COMMIT, [CommitOne(true)]);
    RunOne(cfg, s1, CommitOne(true));
  }

  lemma {:induction false} CommitIsClean(cfg: Config, contents: set<Bytes>, s: State)
    ensures Obeys(cfg, s, COMMIT_ONE, CleanRule(contents))
  {
    assert forall a | a in COMMIT_ONE :: !a.Read? && !a.Write?;
    ObeysAnywhere(cfg, s, COMMIT_ONE, CleanRule(contents));
  }

  /** Two small contents with different hashes that share four bytes: one worker reads both files whole
      and unmodified, and the first file's blob is stored with the second one's content. */
  lemma {:induction false} ClashSpoilsBlob(cfg: Config, contents: set<Bytes>, c: Bytes, d: Bytes)
    returns (acts: seq<Action>)
    requires c in contents && d in contents && Small(cfg, c) && Small(cfg, d)
    requires Prefix4(cfg.hash(c)) == Prefix4(cfg.hash(d)) && cfg.hash(c) != cfg.hash(d)
    ensures Obeys(cfg, Init(cfg, Pair(c, d), 1, map[]), acts, CleanRule(contents))
    ensures !Addressed(cfg, map[], Run(cfg, Init(cfg, Pair(c, d), 1, map[]), acts), true)
  {
    var s0, ok := Init(cfg, Pair(c, d), 1, map[]), CleanRule(contents);
    var s := OneSentOneReading(cfg, contents, c, d);
    var s2 := OverwrittenAndCommitted(cfg, contents, s, c, d);
    var lead, tail := Lead(c), ReadAndWrite(d) + COMMIT_ONE;
    acts := lead + tail;
    Then(cfg, s0, lead, tail, ok);
    Misnamed(cfg, s2, NameOf(FirstFile(cfg, c)), d);
  }

  lemma {:induction false} Misnamed(cfg: Config, s: State, n: Name, d: Bytes)
    requires s.back.cas == map[n := d] && cfg.hash(d) != n.hash
    requires forall i | 0 <= i < |s.front.workers| :: !s.front.workers[i].Writing?
    ensures !Addressed(cfg, map[], s, true)
  {
    assert n in s.back.cas;
  }

  lemma {:induction false} OverwrittenAndCommitted(cfg: Config, contents: set<Bytes>, s: State, c: Bytes, d: Bytes)
    returns (s': State)
    requires Reads2(cfg, s, c, d) && d in contents && Small(cfg, d) && Prefix4(cfg.hash(c)) == Prefix4(cfg.hash(d))
    ensures s' == Run(cfg, s, ReadAndWrite(d) + COMMIT_ONE)
    ensures Obeys(cfg, s, ReadAndWrite(d) + COMMIT_ONE, CleanRule(contents))
    ensures s'.back.cas == map[NameOf(FirstFile(cfg, c)) := d]
    ensures |s'.front.workers| == 1 && !s'.front.workers[0].Writing?
  {
    var s1 := ReadAndWritten(cfg, s, [2], d);
    assert |s1.front.workers| == 1 && !s1.front.workers[0].Writing?;
    assert s1.temps[SharedTemp(cfg, c)] == d;
    s' := CommitsFirst(cfg, s1, FirstFile(cfg, c));
    CleanSend(cfg, contents, s, [2], d);
    CommitIsClean(cfg, contents, s1);
    Then(cfg, s, ReadAndWrite(d), COMMIT_ONE, CleanRule(contents));
  }

  // ---------------------------------------------------------------- parts that tell

  /** The second file is created, and `k` bytes of it are written. */
  function Begin(c: Bytes, k: nat): seq<Action> {
    [Read(0, Some(c))] + if k == 0 then [] else [Write(0, k)]
  }

  lemma {:induction false} Begun(cfg: Config, contents: set<Bytes>, s: State, c: Bytes, k: nat) returns (s': State)
    requires Reads2(cfg, s, c, c) && Small(cfg, c) && c in contents && k < |c|
    ensures s' == Run(cfg, s, Begin(c, k)) && Obeys(cfg, s, Begin(c, k), CleanRule(contents))
    ensures s'.temps == map[SharedTemp(cfg, c) := c[..k]] && s'.back == s.back
    ensures |s'.front.workers| == 1 && s'.front.workers[0].Writing? && s'.front.workers[0].content == c
    ensures s'.front.workers[0].done == k && s'.front.workers[0].place == AtTemp
    ensures s'.front.workers[0].file.temp == SharedTemp(cfg, c)
  {
    var ok := CleanRule(contents);
    var read := Read(0, Some(c));
    var s1 := Step(cfg, s, read);
    RunOne(cfg, s, read);
    OneObeys(cfg, s, read, ok);
    assert s1.temps == map[SharedTemp(cfg, c) := []];
    if k == 0 {
      s' := s1;
      assert Begin(c, k) == [read] && c[..0] == [];
    } else {
      s' := Step(cfg, s1, Write(0, k));
      RunOne(cfg, s1, Write(0, k));
      OneObeys(cfg, s1, Write(0, k), ok);
      assert s'.temps == map[SharedTemp(cfg, c) := c[..k]];
      Then(cfg, s, [read], [Write(0, k)], ok);
    }
  }

  /** Two equal small files: while the second is written the shared temporary file holds part of the
      content, and the first file's blob is stored with that. */
  lemma {:induction false} PartIsStored(cfg: Config, contents: set<Bytes>, c: Bytes, k: nat)
    returns (acts: seq<Action>)
    requires c in contents && Small(cfg, c) && cfg.hash(Part(c, k)) != cfg.hash(c)
    ensures Obeys(cfg, Init(cfg, Pair(c, c), 1, map[]), acts, CleanRule(contents))
    ensures !Addressed(cfg, map[], Run(cfg, Init(cfg, Pair(c, c), 1, map[]), acts), false)
  {
    var s0, ok := Init(cfg, Pair(c, c), 1, map[]), CleanRule(contents);
    var s := OneSentOneReading(cfg, contents, c, c);
    var s1 := Begun(cfg, contents, s, c, k);
    var s2 := CommitsFirst(cfg, s1, FirstFile(cfg, c));
    acts := Lead(c) + Begin(c, k) + COMMIT_ONE;
    CommitIsClean(cfg, contents, s1);
    ThreeParts(cfg, s0, Lead(c), Begin(c, k), COMMIT_ONE, ok);
    assert Name(cfg.hash(c), |c|) in s2.back.cas;
  }

  const TEAR_AND_COMMIT := [Write(0, 0)] + COMMIT_ONE

  lemma {:induction false} TornAndCommitted(cfg: Config, contents: set<Bytes>, s: State, f: File) returns (s': State)
    requires |s.front.workers| == 1 && s.front.workers[0].Writing? && s.front.workers[0].place == AtTemp
    requires var x := s.front.workers[0];
             x.done < |x.content| && x.file.temp == f.temp && s.temps == map[f.temp := x.content[..x.done]]
    requires s.back == Back([], [f], Draining, map[], 1, 0, [])
    ensures s' == Run(cfg, s, TEAR_AND_COMMIT) && Obeys(cfg, s, TEAR_AND_COMMIT, SizedRule(contents))
    ensures s'.back.cas == map[NameOf(f) := s.temps[f.temp]] && s'.front.workers == [Idle]
  {
    var ok := SizedRule(contents);
    var s1 := Step(cfg, s, Write(0, 0));
    assert s1.temps == s.temps && s1.front.workers == [Idle];
    s' := CommitsFirst(cfg, s1, f);
    CommitIsClean(cfg, contents, s1);
    CleanIsSized(cfg, contents, s1, COMMIT_ONE);
    RunOne(cfg, s, Write(0, 0));
    OneObeys(cfg, s, Write(0, 0), ok);
    Then(cfg, s, [Write(0, 0)], COMMIT_ONE, ok);
  }

  /** When the second write fails, what it left is stored for good. */
  lemma {:induction false} TornWriteSpoilsBlob(cfg: Config, contents: set<Bytes>, c: Bytes, k: nat)
    returns (acts: seq<Action>)
    requires c in contents && Small(cfg, c) && cfg.hash(Part(c, k)) != cfg.hash(c)
    ensures Obeys(cfg, Init(cfg, Pair(c, c), 1, map[]), acts, SizedRule(contents))
    ensures !Addressed(cfg, map[], Run(cfg, Init(cfg, Pair(c, c), 1, map[]), acts), true)
  {
    var s0, ok := Init(cfg, Pair(c, c), 1, map[]), SizedRule(contents);
    var s := OneSentOneReading(cfg, contents, c, c);
    var s1 := Begun(cfg, contents, s, c, k);
    var s2 := TornAndCommitted(cfg, contents, s1, FirstFile(cfg, c));
    acts := Lead(c) + Begin(c, k) + TEAR_AND_COMMIT;
    CleanIsSized(cfg, contents, s0, Lead(c));
    CleanIsSized(cfg, contents, s, Begin(c, k));
    ThreeParts(cfg, s0, Lead(c), Begin(c, k), TEAR_AND_COMMIT, ok);
    assert Name(cfg.hash(c), |c|) in s2.back.cas;
  }

  // ---------------------------------------------------------------- the exact conditions

  ghost predicate Always(cfg: Config, rule: Rule, loose: bool) {
    forall items: seq<Item>, workers: nat, cas0: map<Name, Bytes>, acts: seq<Action> ::
      Obeys(cfg, Init(cfg, items, workers, cas0), acts, rule)
      ==> Addressed(cfg, cas0, Run(cfg, Init(cfg, items, workers, cas0), acts), loose)
  }

  lemma {:induction false} SafeRuns(cfg: Config, contents: set<Bytes>, loose: bool)
    requires NoClash(cfg, contents) && (loose || NoPartTells(cfg, contents))
    ensures Always(cfg, AllowedRule(contents, loose), loose)
  {
    forall items: seq<Item>, workers: nat, cas0: map<Name, Bytes>, acts: seq<Action>
      | Obeys(cfg, Init(cfg, items, workers, cas0), acts, AllowedRule(contents, loose))
      ensures Addressed(cfg, cas0, Run(cfg, Init(cfg, items, workers, cas0), acts), loose)
    {
      RunContent(cfg, contents, items, workers, cas0, acts, loose);
    }
  }

  lemma {:induction false} ClashIsUnsafe(cfg: Config, contents: set<Bytes>)
    requires !NoClash(cfg, contents)
    ensures !Always(cfg, CleanRule(contents), true) && !Always(cfg, CleanRule(contents), false)
    ensures !Always(cfg, SizedRule(contents), true) && !Always(cfg, SizedRule(contents), false)
  {
    var c, d :| c in contents && d in contents && Small(cfg, c) && Small(cfg, d)
                && Prefix4(cfg.hash(c)) == Prefix4(cfg.hash(d)) && cfg.hash(c) != cfg.hash(d);
    var acts := ClashSpoilsBlob(cfg, contents, c, d);
    var s0 := Init(cfg, Pair(c, d), 1, map[]);
    CleanIsSized(cfg, contents, s0, acts);
    assert !Addressed(cfg, map[], Run(cfg, s0, acts), false);
  }

  /** Every run over the contents in which no write fails leaves every added blob that no worker is still
      writing named by its hash exactly when small contents that share four bytes of hash share the hash. */
  lemma {:induction false} StoreIsAddressedExactly(cfg: Config, contents: set<Bytes>)
    ensures Always(cfg, CleanRule(contents), true) <==> NoClash(cfg, contents)
  {
    if NoClash(cfg, contents) {
      SafeRuns(cfg, contents, true);
    } else {
      ClashIsUnsafe(cfg, contents);
    }
  }

  /** With writes that may fail, or at every moment of a run, every added blob is named by its hash exactly
      when, besides, no part of a small content has another hash than the whole: the temporary file is
      truncated under a file that still has to be committed, and renamed while it is open. */
  lemma {:induction false} TornIsSafeExactly(cfg: Config, contents: set<Bytes>)
    ensures Always(cfg, SizedRule(contents), true) <==> NoClash(cfg, contents) && NoPartTells(cfg, contents)
    ensures Always(cfg, SizedRule(contents), false) <==> NoClash(cfg, contents) && NoPartTells(cfg, contents)
    ensures Always(cfg, CleanRule(contents), false) <==> NoClash(cfg, contents) && NoPartTells(cfg, contents)
  {
    if !NoPartTells(cfg, contents) {
      PartIsUnsafe(cfg, contents);
    } else if !NoClash(cfg, contents) {
      ClashIsUnsafe(cfg, contents);
    } else {
      SafeRuns(cfg, contents, false);
      StrictIsMore(cfg, contents);
    }
  }

  lemma {:induction false} PartIsUnsafe(cfg: Config, contents: set<Bytes>)
    requires !NoPartTells(cfg, contents)
    ensures !Always(cfg, SizedRule(contents), true) && !Always(cfg, SizedRule(contents), false)
    ensures !Always(cfg, CleanRule(contents), false)
  {
    var c, k: nat :| c in contents && Small(cfg, c) && cfg.hash(Part(c, k)) != cfg.hash(c);
    var s0 := Init(cfg, Pair(c, c), 1, map[]);
    var acts := TornWriteSpoilsBlob(cfg, contents, c, k);
    assert !Addressed(cfg, map[], Run(cfg, s0, acts), false);
    var acts2 := PartIsStored(cfg, contents, c, k);
    assert Obeys(cfg, s0, acts2, CleanRule(contents));
  }

  lemma {:induction false} StrictIsMore(cfg: Config, contents: set<Bytes>)
    requires Always(cfg, SizedRule(contents), false)
    ensures Always(cfg, SizedRule(contents), true) && Always(cfg, CleanRule(contents), false)
  {
    forall items: seq<Item>, workers: nat, cas0: map<Name, Bytes>, acts: seq<Action>
      | Obeys(cfg, Init(cfg, items, workers, cas0), acts, CleanRule(contents))
      ensures Addressed(cfg, cas0, Run(cfg, Init(cfg, items, workers, cas0), acts), false)
    {
      CleanIsSized(cfg, contents, Init(cfg, items, workers, cas0), acts);
    }
    forall items: seq<Item>, workers: nat, cas0: map<Name, Bytes>, acts: seq<Action>
      | Obeys(cfg, Init(cfg, items, workers, cas0), acts, SizedRule(contents))
      ensures Addressed(cfg, cas0, Run(cfg, Init(cfg, items, workers, cas0), acts), true)
    {
      assert Addressed(cfg, cas0, Run(cfg, Init(cfg, items, workers, cas0), acts), false);
    }
  }
}
