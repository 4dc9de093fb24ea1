/** What repeated, possibly aborted, mirror runs achieve. */
module MirrorProperties {
  import opened Wrappers
  import opened Mirror
  import PublicUrl

  /** The stored object is the hub's file, with its checksum. */
  predicate Correct(objects: Objects, f: FileMeta, hub: Hub) {
    Head(objects, f.key) == Some(Uploaded(f, hub))
  }

  /** How often an upload of the key landed. */
  function Landings(landed: seq<Key>, key: Key): nat {
    multiset(landed)[key]
  }

  /** What a run so far has done to a file: nothing, or one upload of it, and that only if it was not skippable. */
  ghost predicate OneUploadOrNone(objects: Objects, p: Progress, f: FileMeta, hub: Hub, dryRun: bool) {
    || (Landings(p.landed, f.key) == 0 && Head(p.objects, f.key) == Head(objects, f.key))
    || (Landings(p.landed, f.key) == 1 && Correct(p.objects, f, hub) && !Skips(objects, f) && !dryRun)
  }

  /** The same, and exactly one upload of a file that was not skippable once an unaborted run is past it. */
  ghost predicate OnFile(objects: Objects, p: Progress, f: FileMeta, hub: Hub, dryRun: bool, past: bool) {
    && OneUploadOrNone(objects, p, f, hub, dryRun)
    && (!past ==> Landings(p.landed, f.key) == 0 && Head(p.objects, f.key) == Head(objects, f.key))
    && (past && !p.aborted && !dryRun ==> (Landings(p.landed, f.key) == 1 <==> !Skips(objects, f)))
  }

  lemma StepOnOther(objects: Objects, p: Progress, g: FileMeta, f: FileMeta, hub: Hub, fault: Fault, dryRun: bool, past: bool)
    requires g.key != f.key && !p.aborted && OnFile(objects, p, f, hub, dryRun, past)
    ensures OnFile(objects, StepFile(p, g, hub, fault, dryRun), f, hub, dryRun, past)
  {
  }

  lemma StepOnFile(objects: Objects, p: Progress, f: FileMeta, hub: Hub, fault: Fault, dryRun: bool)
    requires !p.aborted && OnFile(objects, p, f, hub, dryRun, false)
    ensures OnFile(objects, StepFile(p, f, hub, fault, dryRun), f, hub, dryRun, true)
  {
  }

  /** What a run up to its `n`-th file has done to the `j`-th. */
  lemma {:induction false} PassOnFile(objects: Objects, files: seq<FileMeta>, hub: Hub, faults: Faults, dryRun: bool, n: nat, j: nat)
    requires n <= |files| && j < |files| && Listed(files, hub)
    ensures OnFile(objects, Pass(objects, files, hub, faults, dryRun, n), files[j], hub, dryRun, j < n)
    decreases n
  {
    hide *;
    if n == 0 {
      OnFileStart(objects, files, hub, faults, dryRun, files[j]);
    } else {
      var before := Pass(objects, files, hub, faults, dryRun, n - 1);
      PassOnFile(objects, files, hub, faults, dryRun, n - 1, j);
      PassStep(objects, files, hub, faults, dryRun, n);
      if before.aborted {
        AbortedOnFile(objects, before, files[j], hub, dryRun, j < n - 1, j < n);
      } else if n - 1 == j {
        StepOnFile(objects, before, files[j], hub, faults(j), dryRun);
      } else {
        KeysDiffer(files, hub, n - 1, j);
        StepOnOther(objects, before, files[n - 1], files[j], hub, faults(n - 1), dryRun, j < n - 1);
      }
    }
  }

  lemma OnFileStart(objects: Objects, files: seq<FileMeta>, hub: Hub, faults: Faults, dryRun: bool, f: FileMeta)
    ensures OnFile(objects, Pass(objects, files, hub, faults, dryRun, 0), f, hub, dryRun, false)
  {
  }

  lemma KeysDiffer(files: seq<FileMeta>, hub: Hub, i: nat, j: nat)
    requires i < |files| && j < |files| && i != j && Listed(files, hub)
    ensures files[i].key != files[j].key
  {
  }

  lemma AbortedOnFile(objects: Objects, p: Progress, f: FileMeta, hub: Hub, dryRun: bool, past: bool, later: bool)
    requires p.aborted && OnFile(objects, p, f, hub, dryRun, past) && (past ==> later)
    ensures OnFile(objects, p, f, hub, dryRun, later)
  {
  }

  lemma PassStep(objects: Objects, files: seq<FileMeta>, hub: Hub, faults: Faults, dryRun: bool, n: nat)
    requires 0 < n <= |files|
    ensures var before := Pass(objects, files, hub, faults, dryRun, n - 1);
      Pass(objects, files, hub, faults, dryRun, n)
      == if before.aborted then before else StepFile(before, files[n - 1], hub, faults(n - 1), dryRun)
  {
  }

  /** The skip decision only looks at the file's own object. */
  lemma SkipsByHead(a: Objects, b: Objects, f: FileMeta)
    ensures Head(a, f.key) == Head(b, f.key) ==> (Skips(a, f) <==> Skips(b, f))
  {
  }

  /** A correctly stored file of known size is skipped from then on. */
  lemma CorrectIsSkipped(objects: Objects, files: seq<FileMeta>, hub: Hub, j: nat)
    requires j < |files| && Listed(files, hub) && Correct(objects, files[j], hub)
    ensures Skips(objects, files[j]) <==> files[j].size.Some?
  {
  }

  /** A file is skipped if and only if its size is known, the stored object has that size, and it is recorded with the
      file's checksum if that is known. */
  lemma SkipsExactly(objects: Objects, f: FileMeta)
    ensures Skips(objects, f)
       <==> f.size.Some? && f.key in objects && |objects[f.key].content| == f.size.value
            && (f.sha.Some? ==> objects[f.key].sha == f.sha)
  {
  }

  /** The verification pass refuses exactly a file that is missing, one of another size than the known one, and one
      whose probe, of its public URL and without a range for an empty object, is not answered by 200. */
  lemma RefusedExactly(objects: Objects, f: FileMeta, base: PublicUrl.Bytes, web: Web)
    ensures !Verifies(objects, f, base, web)
       <==> f.key !in objects
            || (f.size.Some? && f.size.value != |objects[f.key].content|)
            || (objects[f.key].content == [] && web(HttpHead, PublicUrl.Url(base, f.key)) != 200)
            || (objects[f.key].content != [] && web(RangeGet, PublicUrl.Url(base, f.key)) != 200)
  {
    hide PublicUrl.Url;
  }

  /** The file's fault ends a run on a store that the run has not changed for this file. */
  predicate Breaks(objects: Objects, f: FileMeta, fault: Fault, dryRun: bool) {
    fault.HeadError? || (!Skips(objects, f) && !dryRun && !fault.NoFault?)
  }

  ghost predicate BreaksBefore(objects: Objects, files: seq<FileMeta>, faults: Faults, dryRun: bool, n: nat)
    requires n <= |files|
  {
    exists i :: 0 <= i < n && Breaks(objects, files[i], faults(i), dryRun)
  }

  /** A run is aborted if and only if a fault breaks it: an error while looking the file up, or any other for a file
      that is not skipped. */
  lemma {:induction false} AbortedExactly(objects: Objects, files: seq<FileMeta>, hub: Hub, faults: Faults, dryRun: bool, n: nat)
    requires n <= |files| && Listed(files, hub)
    ensures Pass(objects, files, hub, faults, dryRun, n).aborted <==> BreaksBefore(objects, files, faults, dryRun, n)
    decreases n
  {
    hide *;
    BreaksStep(objects, files, faults, dryRun, n);
    if n == 0 {
      NothingPassed(objects, files, hub, faults, dryRun);
    } else {
      var before := Pass(objects, files, hub, faults, dryRun, n - 1);
      AbortedExactly(objects, files, hub, faults, dryRun, n - 1);
      PassStep(objects, files, hub, faults, dryRun, n);
      PassOnFile(objects, files, hub, faults, dryRun, n - 1, n - 1);
      if !before.aborted {
        StepBreaks(objects, before, files[n - 1], hub, faults(n - 1), dryRun);
      }
    }
  }

  lemma NothingPassed(objects: Objects, files: seq<FileMeta>, hub: Hub, faults: Faults, dryRun: bool)
    ensures Pass(objects, files, hub, faults, dryRun, 0) == Progress(objects, [], false)
  {
  }

  lemma BreaksStep(objects: Objects, files: seq<FileMeta>, faults: Faults, dryRun: bool, n: nat)
    requires n <= |files|
    ensures BreaksBefore(objects, files, faults, dryRun, n)
       <==> n > 0 && (BreaksBefore(objects, files, faults, dryRun, n - 1)
                      || Breaks(objects, files[n - 1], faults(n - 1), dryRun))
  {
    hide Breaks;
    if n > 0 && BreaksBefore(objects, files, faults, dryRun, n - 1) {
      var i :| 0 <= i < n - 1 && Breaks(objects, files[i], faults(i), dryRun);
    }
  }

  lemma StepBreaks(objects: Objects, p: Progress, f: FileMeta, hub: Hub, fault: Fault, dryRun: bool)
    requires !p.aborted && OnFile(objects, p, f, hub, dryRun, false)
    ensures StepFile(p, f, hub, fault, dryRun).aborted <==> Breaks(objects, f, fault, dryRun)
  {
    SkipsByHead(p.objects, objects, f);
  }

  /** An upload of the file lands if and only if no fault breaks the run before it, it is not skipped, it is no dry run,
      and its own fault is none or one after the upload. */
  lemma {:induction false} LandsExactly(objects: Objects, files: seq<FileMeta>, hub: Hub, faults: Faults, dryRun: bool, n: nat, j: nat)
    requires j < n <= |files| && Listed(files, hub)
    ensures Landings(Pass(objects, files, hub, faults, dryRun, n).landed, files[j].key) == 1
       <==> !BreaksBefore(objects, files, faults, dryRun, j) && !Skips(objects, files[j]) && !dryRun
            && (faults(j).NoFault? || faults(j).ErrorAfterUpload?)
    decreases n
  {
    hide *;
    var before := Pass(objects, files, hub, faults, dryRun, n - 1);
    PassStep(objects, files, hub, faults, dryRun, n);
    if j == n - 1 {
      AbortedExactly(objects, files, hub, faults, dryRun, j);
      PassOnFile(objects, files, hub, faults, dryRun, j, j);
      StepLands(objects, before, files[j], hub, faults(j), dryRun);
    } else {
      LandsExactly(objects, files, hub, faults, dryRun, n - 1, j);
      KeysDiffer(files, hub, n - 1, j);
      StepKeeps(before, files[n - 1], files[j], hub, faults(n - 1), dryRun);
    }
  }

  lemma StepLands(objects: Objects, p: Progress, f: FileMeta, hub: Hub, fault: Fault, dryRun: bool)
    requires OnFile(objects, p, f, hub, dryRun, false)
    ensures Landings(p.landed, f.key) == 0
    ensures Landings(StepFile(p, f, hub, fault, dryRun).landed, f.key) == 1
       <==> !Skips(objects, f) && !dryRun && (fault.NoFault? || fault.ErrorAfterUpload?)
  {
    SkipsByHead(p.objects, objects, f);
  }

  lemma StepKeeps(p: Progress, g: FileMeta, f: FileMeta, hub: Hub, fault: Fault, dryRun: bool)
    requires g.key != f.key
    ensures Landings(StepFile(p, g, hub, fault, dryRun).landed, f.key) == Landings(p.landed, f.key)
  {
  }

  datatype Run = Run(faults: Faults, dryRun: bool)

  /** A sequence of runs on an unchanged listing: the final store and all uploads that landed. */
  function Runs(objects: Objects, files: seq<FileMeta>, hub: Hub, runs: seq<Run>): (Objects, seq<Key>) {
    if runs == [] then (objects, [])
    else
      var before := Runs(objects, files, hub, runs[..|runs| - 1]);
      var run := runs[|runs| - 1];
      var p := Pass(before.0, files, hub, run.faults, run.dryRun, |files|);
      (p.objects, before.1 + p.landed)
  }

  /** A file that was correctly stored stays so through any runs, however they abort. */
  lemma {:induction false} CorrectFilesOnlyGrow(objects: Objects, files: seq<FileMeta>, hub: Hub, runs: seq<Run>, j: nat)
    requires j < |files| && Listed(files, hub) && Correct(objects, files[j], hub)
    ensures Correct(Runs(objects, files, hub, runs).0, files[j], hub)
  {
    if runs == [] {
    } else {
      var init, run := runs[..|runs| - 1], runs[|runs| - 1];
      CorrectFilesOnlyGrow(objects, files, hub, init, j);
      PassOnFile(Runs(objects, files, hub, init).0, files, hub, run.faults, run.dryRun, |files|, j);
    }
  }

  /** A file of known size is uploaded at most once over any runs, and is skipped ever after. */
  lemma {:induction false} KnownSizeUploadedAtMostOnce(objects: Objects, files: seq<FileMeta>, hub: Hub, runs: seq<Run>, j: nat)
    requires j < |files| && Listed(files, hub) && files[j].size.Some?
    ensures var after := Runs(objects, files, hub, runs);
      && Landings(after.1, files[j].key) <= 1
      && (Landings(after.1, files[j].key) == 1 ==> Correct(after.0, files[j], hub))
      && (Skips(objects, files[j]) ==> Landings(after.1, files[j].key) == 0 && Skips(after.0, files[j]))
  {
    if runs == [] {
    } else {
      var init, run := runs[..|runs| - 1], runs[|runs| - 1];
      var before := Runs(objects, files, hub, init);
      KnownSizeUploadedAtMostOnce(objects, files, hub, init, j);
      PassOnFile(before.0, files, hub, run.faults, run.dryRun, |files|, j);
      if Landings(before.1, files[j].key) == 1 {
        CorrectIsSkipped(before.0, files, hub, j);
      }
      var p := Pass(before.0, files, hub, run.faults, run.dryRun, |files|);
      SkipsByHead(p.objects, before.0, files[j]);
      assert multiset(before.1 + p.landed) == multiset(before.1) + multiset(p.landed);
    }
  }

  ghost predicate Completed(objects: Objects, files: seq<FileMeta>, hub: Hub, run: Run) {
    !run.dryRun && !Pass(objects, files, hub, run.faults, run.dryRun, |files|).aborted
  }

  /** After a completed run, later runs never upload a file of known size. */
  lemma NothingLeftToUpload(objects: Objects, files: seq<FileMeta>, hub: Hub, run: Run, later: seq<Run>, j: nat)
    requires j < |files| && Listed(files, hub) && Completed(objects, files, hub, run) && files[j].size.Some?
    ensures var after := Pass(objects, files, hub, run.faults, run.dryRun, |files|).objects;
      Landings(Runs(after, files, hub, later).1, files[j].key) == 0
  {
    var p := Pass(objects, files, hub, run.faults, run.dryRun, |files|);
    PassOnFile(objects, files, hub, run.faults, run.dryRun, |files|, j);
    SkipsByHead(p.objects, objects, files[j]);
    if Landings(p.landed, files[j].key) == 1 {
      CorrectIsSkipped(p.objects, files, hub, j);
    }
    KnownSizeUploadedAtMostOnce(p.objects, files, hub, later, j);
  }

  /** A second completed run uploads a file exactly when its size is unknown. */
  lemma SecondRunUploads(objects: Objects, files: seq<FileMeta>, hub: Hub, first: Run, second: Run, j: nat)
    requires j < |files| && Listed(files, hub) && Completed(objects, files, hub, first)
    requires Completed(Pass(objects, files, hub, first.faults, first.dryRun, |files|).objects, files, hub, second)
    ensures var after := Pass(objects, files, hub, first.faults, first.dryRun, |files|).objects;
      Landings(Pass(after, files, hub, second.faults, second.dryRun, |files|).landed, files[j].key) == 1
      <==> files[j].size.None?
  {
    var p := Pass(objects, files, hub, first.faults, first.dryRun, |files|);
    PassOnFile(objects, files, hub, first.faults, first.dryRun, |files|, j);
    PassOnFile(p.objects, files, hub, second.faults, second.dryRun, |files|, j);
    SkipsByHead(p.objects, objects, files[j]);
    if Landings(p.landed, files[j].key) == 1 {
      CorrectIsSkipped(p.objects, files, hub, j);
    }
  }

  /** An object that passes the skip test without being the hub's file with its checksum record. */
  predicate Lookalike(objects: Objects, f: FileMeta, hub: Hub) {
    Skips(objects, f) && !Correct(objects, f, hub)
  }

  /** A completed run leaves a file correctly stored exactly when the store did not hold a lookalike of it. */
  lemma CompletedRunCorrects(objects: Objects, files: seq<FileMeta>, hub: Hub, run: Run, j: nat)
    requires j < |files| && Listed(files, hub) && Completed(objects, files, hub, run)
    ensures Correct(Pass(objects, files, hub, run.faults, run.dryRun, |files|).objects, files[j], hub)
       <==> !Lookalike(objects, files[j], hub)
  {
    PassOnFile(objects, files, hub, run.faults, run.dryRun, |files|, j);
  }

  /** The stored bytes are the hub's, whatever checksum is recorded with them. */
  predicate RightContent(objects: Objects, f: FileMeta, hub: Hub) {
    f.key in objects && objects[f.key].content == hub(f.relpath)
  }

  /** A completed run leaves a file with the hub's bytes exactly when the store did not hold other bytes that pass the
      skip test. */
  lemma CompletedRunStoresContent(objects: Objects, files: seq<FileMeta>, hub: Hub, run: Run, j: nat)
    requires j < |files| && Listed(files, hub) && Completed(objects, files, hub, run)
    ensures RightContent(Pass(objects, files, hub, run.faults, run.dryRun, |files|).objects, files[j], hub)
       <==> !(Skips(objects, files[j]) && !RightContent(objects, files[j], hub))
  {
    PassOnFile(objects, files, hub, run.faults, run.dryRun, |files|, j);
  }

  /** An input on which a completed run leaves wrong bytes: a `config.json` of the right size with other content. */
  lemma LookalikeStays() returns (objects: Objects, files: seq<FileMeta>, hub: Hub, run: Run)
    ensures |files| == 1 && Listed(files, hub) && Completed(objects, files, hub, run)
    ensures Lookalike(objects, files[0], hub)
    ensures !RightContent(Pass(objects, files, hub, run.faults, run.dryRun, |files|).objects, files[0], hub)
  {
    var key: Key := [99];
    files := [FileMeta("config.json", Some(1), key, None)];
    hub := name => [49];
    objects := map[key := Object([50], None)];
    run := Run(i => NoFault, false);
    assert Skips(objects, files[0]);
    assert Pass(objects, files, hub, run.faults, run.dryRun, 0) == Progress(objects, [], false);
    CompletedRunStoresContent(objects, files, hub, run, 0);
  }

  /** With distinct checksums for distinct contents a weight shard has no lookalikes that were uploaded with their own
      checksum: only objects that differ in content can fool the size test, and only where there is no checksum. */
  lemma ShardsHaveNoLookalikes(objects: Objects, f: FileMeta, hub: Hub, shaOf: Content -> Sha)
    requires f.sha == Some(shaOf(hub(f.relpath)))
    requires forall a, b :: shaOf(a) == shaOf(b) ==> a == b
    requires forall k :: k in objects && objects[k].sha.Some? ==> objects[k].sha.value == shaOf(objects[k].content)
    requires |f.sha.value| == 64
    ensures !Lookalike(objects, f, hub)
  {
  }

  /** A completed run on a publicly readable bucket passes its own verification. */
  lemma CompletedRunVerifies(objects: Objects, files: seq<FileMeta>, hub: Hub, run: Run, base: PublicUrl.Bytes, web: Web, j: nat)
    requires j < |files| && Listed(files, hub) && Completed(objects, files, hub, run)
    requires forall probe, url :: web(probe, url) == 200
    ensures Verifies(Pass(objects, files, hub, run.faults, run.dryRun, |files|).objects, files[j], base, web)
  {
    hide Pass, PublicUrl.Url;
    PassOnFile(objects, files, hub, run.faults, run.dryRun, |files|, j);
  }

  /** A dry run changes nothing. */
  lemma {:induction false} DryRunChangesNothing(objects: Objects, files: seq<FileMeta>, hub: Hub, faults: Faults, n: nat)
    requires n <= |files|
    ensures Pass(objects, files, hub, faults, true, n).objects == objects
    ensures Pass(objects, files, hub, faults, true, n).landed == []
  {
    if n == 0 {
    } else {
      DryRunChangesNothing(objects, files, hub, faults, n - 1);
    }
  }
}
