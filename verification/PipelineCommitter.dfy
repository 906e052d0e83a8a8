/** The batch committer in place (crates/vrift-cas/src/streaming_pipeline.rs, `BatchCommitter`), and
    its agreement with the pipeline's commit steps. */
module PipelineCommitter {
  import opened Bytes
  import opened Pipeline
  import PipelineRuns

  /** Where renaming a batch ends: the store, the temporary files, the duplicates, and the files left
      when a rename failed. */
  datatype Outcome = Outcome(cas: map<Name, Bytes>, temps: Temps, dups: nat, left: seq<File>)

  /** `oks` tells which renames the file system allows, and which removals of a duplicate. */
  function Renamed(cas: map<Name, Bytes>, temps: Temps, files: seq<File>, oks: seq<bool>): Outcome
    requires |oks| == |files|
    decreases |files|
  {
    if files == [] then Outcome(cas, temps, 0, [])
    else
      var f := files[0];
      if NameOf(f) in cas then
        var r := Renamed(cas, AfterDuplicate(temps, f, oks[0]), files[1..], oks[1..]);
        r.(dups := r.dups + 1)
      else if !oks[0] || f.temp !in temps then Outcome(cas, temps, 0, files)
      else Renamed(cas[NameOf(f) := temps[f.temp]], temps - {f.temp}, files[1..], oks[1..])
  }

  /** Removing a duplicate is a best effort. */
  function AfterDuplicate(temps: Temps, f: File, ok: bool): Temps {
    if ok then temps - {f.temp} else temps
  }

  /** The store after a batch: nothing is lost, and every file of a batch that went through has its blob. */
  lemma {:induction false} RenamedStores(cas: map<Name, Bytes>, temps: Temps, files: seq<File>, oks: seq<bool>)
    requires |oks| == |files|
    ensures var r := Renamed(cas, temps, files, oks);
            && (forall n :: n in cas ==> n in r.cas && r.cas[n] == cas[n])
            && (r.left == [] ==> forall i | 0 <= i < |files| :: NameOf(files[i]) in r.cas)
            && (r.left == [] ==> |r.cas| + r.dups == |cas| + |files|)
    decreases |files|
  {
    if files != [] {
      var f := files[0];
      if NameOf(f) in cas {
        RenamedStores(cas, AfterDuplicate(temps, f, oks[0]), files[1..], oks[1..]);
      } else if oks[0] && f.temp in temps {
        PipelineRuns.OneMore(cas, NameOf(f), temps[f.temp]);
        RenamedStores(cas[NameOf(f) := temps[f.temp]], temps - {f.temp}, files[1..], oks[1..]);
      }
      assert forall i | 1 <= i < |files| :: files[i] == files[1..][i - 1];
    }
  }

  class Disk {
    var cas: map<Name, Bytes>
    var temps: Temps
  }

  class BatchCommitter {
    const batchSize: nat
    var batch: seq<File>

    constructor (batchSize: nat)
      ensures this.batchSize == batchSize && batch == []
    {
      this.batchSize := batchSize;
      batch := [];
    }

    method Add(f: File)
      modifies this
      ensures batch == old(batch) + [f]
    {
      batch := batch + [f];
    }

    /** The count and the duplicates, or nothing when a rename failed. The batch is empty either way. */
    method Commit(disk: Disk, oks: seq<bool>) returns (r: Option<(nat, nat)>)
      requires |oks| == |batch|
      modifies this, disk
      ensures batch == []
      ensures var o := Renamed(old(disk.cas), old(disk.temps), old(batch), oks);
              && disk.cas == o.cas && disk.temps == o.temps
              && r == if o.left == [] then Some((|old(batch)|, o.dups)) else None
    {
      var files := batch;
      batch := [];
      var dups := 0;
      ghost var o := Renamed(disk.cas, disk.temps, files, oks);
      assert files[0..] == files && oks[0..] == oks;
      for i := 0 to |files|
        invariant o == Continued(disk.cas, disk.temps, files, oks, i, dups)
        invariant batch == []
      {
        var f := files[i];
        assert files[i..][1..] == files[i + 1..] && oks[i..][1..] == oks[i + 1..];
        if NameOf(f) in disk.cas {
          disk.temps := AfterDuplicate(disk.temps, f, oks[i]);
          dups := dups + 1;
          continue;
        }
        if !oks[i] || f.temp !in disk.temps {
          return None;
        }
        disk.cas := disk.cas[NameOf(f) := disk.temps[f.temp]];
        disk.temps := disk.temps - {f.temp};
      }
      return Some((|files|, dups));
    }
  }

  function Continued(cas: map<Name, Bytes>, temps: Temps, files: seq<File>, oks: seq<bool>, i: nat, dups: nat): Outcome
    requires |oks| == |files| && i <= |files|
  {
    var r := Renamed(cas, temps, files[i..], oks[i..]);
    r.(dups := r.dups + dups)
  }

  function Commits(oks: seq<bool>): seq<Action> {
    if oks == [] then [] else [CommitOne(oks[0])] + Commits(oks[1..])
  }

  /** Without workers in between, the pipeline's commit steps do what the method does. */
  lemma {:induction false} CommitStepsAgree(cfg: Config, s: State, oks: seq<bool>)
    requires s.back.committer.Committing? && |oks| == |s.back.committer.rest|
    ensures var o := Renamed(s.back.cas, s.temps, s.back.committer.rest, oks);
            var t := Run(cfg, s, Commits(oks));
            && t.back.cas == o.cas && t.temps == o.temps && t.back.deduplicated == s.back.deduplicated + o.dups
            && Rest(t.back.committer) == o.left && (t.back.committer.Crashed? <==> o.left != [])
    decreases |oks|
  {
    if oks != [] {
      var s1 := Step(cfg, s, CommitOne(oks[0]));
      PipelineRuns.RunConcat(cfg, s, [CommitOne(oks[0])], Commits(oks[1..]));
      PipelineRuns.RunOne(cfg, s, CommitOne(oks[0]));
      if s1.back.committer.Crashed? {
        CrashedStays(cfg, s1, oks[1..]);
      } else {
        CommitStepsAgree(cfg, s1, oks[1..]);
      }
    }
  }

  lemma {:induction false} CrashedStays(cfg: Config, s: State, oks: seq<bool>)
    requires s.back.committer.Crashed?
    ensures Run(cfg, s, Commits(oks)) == s
    decreases |oks|
  {
    if oks != [] {
      PipelineRuns.RunConcat(cfg, s, [CommitOne(oks[0])], Commits(oks[1..]));
      PipelineRuns.RunOne(cfg, s, CommitOne(oks[0]));
      CrashedStays(cfg, s, oks[1..]);
    }
  }
}
