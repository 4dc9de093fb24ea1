/** A resumable mirror of a model repository into an object store (scripts/mirror_to_r2.py).
    A run may be aborted at any step and run again. */
module Mirror {
  import opened Wrappers
  import PublicUrl

  type Key = PublicUrl.Bytes
  type Content = PublicUrl.Bytes
  type Sha = string

  /** One expected file.  `size` is unknown when the hub did not expose it; `sha` is known for weight shards. */
  datatype FileMeta = FileMeta(relpath: string, size: Option<nat>, key: Key, sha: Option<Sha>)

  /** A stored object with the checksum metadata it was uploaded with. */
  datatype Object = Object(content: Content, sha: Option<Sha>)
  type Objects = map<Key, Object>

  /** The hub's files by relative path. */
  type Hub = string -> Content

  /** What goes wrong while a file is handled; every fault aborts the run.  An upload may land although the client
      sees an error right after it.  What a killed process leaves in the store is what an abort at that step leaves. */
  datatype Fault = NoFault | HeadError | DownloadError | UploadError | ErrorAfterUpload
  type Faults = nat -> Fault

  function SizeOf(head: Option<Object>): Option<nat> {
    if head.Some? then Some(|head.value.content|) else None
  }

  function ShaOf(head: Option<Object>): Option<Sha> {
    if head.Some? then head.value.sha else None
  }

  /** The skip decision. */
  predicate ShouldSkip(existingSize: Option<nat>, expectedSize: Option<nat>, existingSha: Option<Sha>, expectedSha: Option<Sha>) {
    if existingSize.None? then false
    else if expectedSize.None? then false
    else if existingSize.value != expectedSize.value then false
    else if expectedSha.Some? then existingSha == expectedSha
    else true
  }

  function Head(objects: Objects, key: Key): Option<Object> {
    if key in objects then Some(objects[key]) else None
  }

  predicate Skips(objects: Objects, f: FileMeta) {
    var head := Head(objects, f.key);
    ShouldSkip(SizeOf(head), f.size, ShaOf(head), f.sha)
  }

  /** The stored object of a file: an empty checksum is not recorded. */
  function Uploaded(f: FileMeta, hub: Hub): Object {
    Object(hub(f.relpath), if f.sha.Some? && f.sha.value != "" then f.sha else None)
  }

  /** A listing as the hub gives it: distinct keys, checksums of 64 characters, and sizes that are those of the files. */
  ghost predicate Listed(files: seq<FileMeta>, hub: Hub) {
    && (forall i, j :: 0 <= i < j < |files| ==> files[i].key != files[j].key)
    && (forall i :: 0 <= i < |files| && files[i].sha.Some? ==> |files[i].sha.value| == 64)
    && (forall i :: 0 <= i < |files| && files[i].size.Some? ==> files[i].size.value == |hub(files[i].relpath)|)
  }

  datatype Progress = Progress(objects: Objects, landed: seq<Key>, aborted: bool)

  /** The effect of one file on the store and on the list of uploads that landed. */
  function StepFile(p: Progress, f: FileMeta, hub: Hub, fault: Fault, dryRun: bool): Progress {
    if fault.HeadError? then p.(aborted := true)
    else if Skips(p.objects, f) || dryRun then p
    else if fault.DownloadError? || fault.UploadError? then p.(aborted := true)
    else Progress(p.objects[f.key := Uploaded(f, hub)], p.landed + [f.key], fault.ErrorAfterUpload?)
  }

  /** The upload loop over the first `n` files; it stops at the first abort. */
  function Pass(objects: Objects, files: seq<FileMeta>, hub: Hub, faults: Faults, dryRun: bool, n: nat): Progress
    requires n <= |files|
  {
    if n == 0 then Progress(objects, [], false)
    else
      var p := Pass(objects, files, hub, faults, dryRun, n - 1);
      if p.aborted then p else StepFile(p, files[n - 1], hub, faults(n - 1), dryRun)
  }

  // ---- the program

  /** The remote bucket. */
  class Bucket {
    var objects: Objects

    constructor (objects: Objects)
      ensures this.objects == objects
    {
      this.objects := objects;
    }

    method HeadObject(key: Key) returns (head: Option<Object>)
      ensures head == Head(objects, key)
    {
      head := if key in objects then Some(objects[key]) else None;
    }

    method UploadFile(content: Content, key: Key, sha: Option<Sha>)
      modifies this
      ensures objects == old(objects)[key := Object(content, if sha.Some? && sha.value != "" then sha else None)]
    {
      var metadata := if sha.Some? && sha.value != "" then sha else None;
      objects := objects[key := Object(content, metadata)];
    }
  }

  /** The run's scratch directory; `peak` is the largest number of files it has held. */
  class Scratch {
    var files: set<string>
    ghost var peak: nat

    constructor ()
      ensures files == {} && peak == 0
    {
      files, peak := {}, 0;
    }

    method Store(name: string)
      modifies this
      ensures files == old(files) + {name}
      ensures peak == if |old(files) + {name}| > old(peak) then |old(files) + {name}| else old(peak)
    {
      files := files + {name};
      peak := if |files| > peak then |files| else peak;
    }

    method Remove(name: string)
      modifies this`files
      ensures files == old(files) - {name}
    {
      files := files - {name};
    }

    method Clear()
      modifies this`files
      ensures files == {}
    {
      files := {};
    }
  }

  /** Downloads, uploads and deletes one file.  The local copy is gone afterwards in every case but a failed
      download, which leaves whatever it had written. */
  method Transfer(bucket: Bucket, scratch: Scratch, f: FileMeta, hub: Hub, fault: Fault) returns (ok: bool)
    requires scratch.files == {} && !fault.HeadError?
    modifies bucket, scratch
    ensures ok <==> fault.NoFault?
    ensures bucket.objects == if fault.DownloadError? || fault.UploadError? then old(bucket.objects)
                              else old(bucket.objects)[f.key := Uploaded(f, hub)]
    ensures ok ==> scratch.files == {}
    ensures scratch.peak <= if old(scratch.peak) < 1 then 1 else old(scratch.peak)
  {
    scratch.Store(f.relpath);
    if fault.DownloadError? {
      return false;
    }
    if !fault.UploadError? {
      bucket.UploadFile(hub(f.relpath), f.key, f.sha);
    }
    scratch.Remove(f.relpath);
    ok := fault.NoFault?;
  }

  /** The upload and skip loop, with its clean-up. */
  method UploadAll(bucket: Bucket, scratch: Scratch, files: seq<FileMeta>, hub: Hub, faults: Faults, dryRun: bool)
    returns (aborted: bool, uploaded: nat, skipped: nat, ghost landed: seq<Key>)
    requires scratch.files == {} && scratch.peak == 0
    modifies bucket, scratch
    ensures Progress(bucket.objects, landed, aborted) == Pass(old(bucket.objects), files, hub, faults, dryRun, |files|)
    ensures !aborted ==> uploaded == |landed|
    ensures !aborted && !dryRun ==> uploaded + skipped == |files|
    ensures scratch.files == {} && scratch.peak <= 1
  {
    uploaded, skipped, aborted, landed := 0, 0, false, [];
    var i := 0;
    while i < |files| && !aborted
      invariant 0 <= i <= |files|
      invariant Progress(bucket.objects, landed, aborted) == Pass(old(bucket.objects), files, hub, faults, dryRun, i)
      invariant !aborted ==> uploaded == |landed| && scratch.files == {}
      invariant !aborted && !dryRun ==> uploaded + skipped == i
      invariant scratch.peak <= 1
      decreases |files| - i, !aborted
    {
      var f := files[i];
      var fault := faults(i);
      i := i + 1;
      if fault.HeadError? {
        aborted := true;
        break;
      }
      var head := bucket.HeadObject(f.key);
      if ShouldSkip(SizeOf(head), f.size, ShaOf(head), f.sha) {
        skipped := skipped + 1;
        continue;
      }
      if dryRun {
        continue;
      }
      var ok := Transfer(bucket, scratch, f, hub, fault);
      if fault.NoFault? || fault.ErrorAfterUpload? {
        landed := landed + [f.key];
      }
      if ok {
        uploaded := uploaded + 1;
      } else {
        aborted := true;
      }
    }
    if aborted {
      StaysAborted(old(bucket.objects), files, hub, faults, dryRun, i, |files|);
    }
    scratch.Clear();
  }

  lemma {:induction false} StaysAborted(objects: Objects, files: seq<FileMeta>, hub: Hub, faults: Faults, dryRun: bool, i: nat, n: nat)
    requires i <= n <= |files| && Pass(objects, files, hub, faults, dryRun, i).aborted
    ensures Pass(objects, files, hub, faults, dryRun, n) == Pass(objects, files, hub, faults, dryRun, i)
    decreases n
  {
    if i < n {
      StaysAborted(objects, files, hub, faults, dryRun, i, n - 1);
    }
  }

  datatype Probe = HttpHead | RangeGet

  /** The public answer to a probe of a URL. */
  type Web = (Probe, PublicUrl.Bytes) -> int

  /** Whether the verification pass accepts a file: stored, of the known size if there is one, and publicly readable.
      An empty object is probed without a range. */
  predicate Verifies(objects: Objects, f: FileMeta, base: PublicUrl.Bytes, web: Web) {
    && f.key in objects
    && (f.size.Some? ==> |objects[f.key].content| == f.size.value)
    && web(if |objects[f.key].content| == 0 then HttpHead else RangeGet, PublicUrl.Url(base, f.key)) == 200
  }

  /** The verification pass.  An error of the store ends it with an exception; `headFails` says for which files. */
  method VerifyAll(bucket: Bucket, files: seq<FileMeta>, base: PublicUrl.Bytes, web: Web, headFails: nat -> bool)
    returns (raised: bool, failed: seq<Key>)
    ensures raised <==> exists i :: 0 <= i < |files| && headFails(i)
    ensures !raised ==> (failed == [] <==> forall i :: 0 <= i < |files| ==> Verifies(bucket.objects, files[i], base, web))
    ensures !raised ==> forall k :: k in failed <==>
              exists i :: 0 <= i < |files| && files[i].key == k && !Verifies(bucket.objects, files[i], base, web)
  {
    hide PublicUrl.Url;
    raised, failed := false, [];
    for i := 0 to |files|
      invariant forall j :: 0 <= j < i ==> !headFails(j)
      invariant failed == [] <==> forall j :: 0 <= j < i ==> Verifies(bucket.objects, files[j], base, web)
      invariant forall k :: k in failed <==>
                  exists j :: 0 <= j < i && files[j].key == k && !Verifies(bucket.objects, files[j], base, web)
    {
      var f := files[i];
      if headFails(i) {
        return true, failed;
      }
      var head := bucket.HeadObject(f.key);
      var headSize := SizeOf(head);
      if headSize.None? {
        failed := failed + [f.key];
        continue;
      }
      if f.size.Some? && headSize.value != f.size.value {
        failed := failed + [f.key];
        continue;
      }
      var url := PublicUrl.Url(base, f.key);
      var status := if headSize.value == 0 then web(HttpHead, url) else web(RangeGet, url);
      if status != 200 {
        failed := failed + [f.key];
      }
    }
  }

  /** One run of the tool; the result is the process exit code, which is one for an exception that escapes. */
  method MirrorRepo(bucket: Bucket, files: seq<FileMeta>, hub: Hub, faults: Faults, base: PublicUrl.Bytes, web: Web,
                    headFails: nat -> bool, dryRun: bool, verifyOnly: bool)
    returns (code: nat, ghost landed: seq<Key>)
    modifies bucket
    ensures var p := if verifyOnly then Progress(old(bucket.objects), [], false)
                     else Pass(old(bucket.objects), files, hub, faults, dryRun, |files|);
      var raised := exists i :: 0 <= i < |files| && headFails(i);
      && bucket.objects == p.objects && landed == p.landed
      && (code == 2 <==> p.aborted)
      && (code == 1 <==> !p.aborted && raised)
      && (code == 0 <==> !p.aborted && !raised
                         && forall i :: 0 <= i < |files| ==> Verifies(bucket.objects, files[i], base, web))
      && code in {0, 1, 2, 3}
  {
    landed := [];
    if !verifyOnly {
      var scratch := new Scratch();
      var aborted, uploaded, skipped;
      aborted, uploaded, skipped, landed := UploadAll(bucket, scratch, files, hub, faults, dryRun);
      if aborted {
        return 2, landed;
      }
    }
    var raised, failed := VerifyAll(bucket, files, base, web, headFails);
    code := if raised then 1 else if failed != [] then 3 else 0;
  }
}
