/** Sweeping the files of a source tree for alias names (the loop of scripts/sweep_alias_refs.py). */
module FileSweep {
  import opened Wrappers
  import opened AliasSweep

  /** A source tree: readable text files by path. */
  class Tree {
    var files: map<string, string>

    constructor (files: map<string, string>)
      ensures this.files == files
    {
      this.files := files;
    }
  }

  /** What the substitution makes of a text. */
  type Rewriter = string -> Rewrite

  function Substitution(keys: seq<string>, renames: Renames): Rewriter {
    text => Rewritten(text, keys, renames)
  }

  function NewText(rewriter: Rewriter, text: string): string {
    if rewriter(text).Some? then rewriter(text).value.0 else text
  }

  function Count(rewriter: Rewriter, text: string): nat {
    if rewriter(text).Some? then rewriter(text).value.1 else 0
  }

  /** The tree after the listed files have been swept. */
  function Swept(files: map<string, string>, paths: seq<string>, rewriter: Rewriter, dryRun: bool): map<string, string> {
    map p | p in files :: if p in paths && !dryRun then NewText(rewriter, files[p]) else files[p]
  }

  lemma SweptSnoc(files: map<string, string>, paths: seq<string>, path: string, rewriter: Rewriter, dryRun: bool)
    requires path in files && path !in paths
    ensures path in Swept(files, paths, rewriter, dryRun) && Swept(files, paths, rewriter, dryRun)[path] == files[path]
    ensures Swept(files, paths + [path], rewriter, dryRun)
         == Swept(files, paths, rewriter, dryRun)[path := if dryRun then files[path] else NewText(rewriter, files[path])]
  {
    hide NewText;
  }

  predicate Changes(files: map<string, string>, path: string, rewriter: Rewriter) {
    path in files && NewText(rewriter, files[path]) != files[path]
  }

  /** The changed files among the listed ones, each with its number of replacements. */
  function ChangedFiles(files: map<string, string>, paths: seq<string>, rewriter: Rewriter): seq<(string, nat)> {
    if paths == [] then []
    else
      var earlier, path := ChangedFiles(files, paths[..|paths| - 1], rewriter), paths[|paths| - 1];
      if Changes(files, path, rewriter) then earlier + [(path, Count(rewriter, files[path]))] else earlier
  }

  function SumOfCounts(changed: seq<(string, nat)>): nat {
    if changed == [] then 0 else SumOfCounts(changed[..|changed| - 1]) + changed[|changed| - 1].1
  }

  lemma SumSnoc(changed: seq<(string, nat)>, path: string, count: nat)
    ensures SumOfCounts(changed + [(path, count)]) == SumOfCounts(changed) + count
  {
  }

  /** The report names exactly the files whose text changes, with the number of names replaced in each. */
  lemma {:induction false} ReportIsComplete(files: map<string, string>, paths: seq<string>, rewriter: Rewriter,
                                            path: string, n: nat)
    ensures (path, n) in ChangedFiles(files, paths, rewriter)
      <==> path in paths && Changes(files, path, rewriter) && n == Count(rewriter, files[path])
  {
    hide Changes, Count;
    if paths == [] {
    } else {
      var k := |paths| - 1;
      ReportIsComplete(files, paths[..k], rewriter, path, n);
      assert paths == paths[..k] + [paths[k]];
    }
  }

  lemma ChangedSnoc(files: map<string, string>, paths: seq<string>, path: string, rewriter: Rewriter)
    requires path in files
    ensures ChangedFiles(files, paths + [path], rewriter)
         == ChangedFiles(files, paths, rewriter)
          + if NewText(rewriter, files[path]) != files[path] then [(path, Count(rewriter, files[path]))] else []
  {
    hide NewText, Count;
    assert (paths + [path])[..|paths|] == paths;
  }

  lemma NothingSwept(files: map<string, string>, rewriter: Rewriter, dryRun: bool)
    ensures Swept(files, [], rewriter, dryRun) == files
    ensures ChangedFiles(files, [], rewriter) == []
    ensures SumOfCounts([]) == 0
  {
  }

  lemma RewriterValue(keys: seq<string>, renames: Renames, text: string)
    ensures var r := Rewritten(text, keys, renames);
      && Substitution(keys, renames)(text) == r
      && (r.Some? ==> NewText(Substitution(keys, renames), text) == r.value.0
                      && Count(Substitution(keys, renames), text) == r.value.1)
  {
  }

  /** The sweep reaches the file at `done`, where the substitution raises an exception, or the end. */
  ghost predicate Reaches(files: map<string, string>, paths: seq<string>, rewriter: Rewriter, done: nat) {
    && done <= |paths|
    && (forall i :: 0 <= i < done ==> paths[i] in files && rewriter(files[paths[i]]).Some?)
    && (done < |paths| ==> paths[done] in files && rewriter(files[paths[done]]).None?)
  }

  /** Rewrites every listed file whose text changes; a dry run only counts.  An exception ends the sweep, with the
      files before it rewritten. */
  method Sweep(tree: Tree, paths: seq<string>, keys: seq<string>, renames: Renames, dryRun: bool)
    returns (raised: bool, changed: seq<(string, nat)>, total: nat, ghost done: nat)
    requires forall p :: p in paths ==> p in tree.files
    requires forall i, j :: 0 <= i < j < |paths| ==> paths[i] != paths[j]
    modifies tree
    ensures Reaches(old(tree.files), paths, Substitution(keys, renames), done) && (raised <==> done < |paths|)
    ensures tree.files == Swept(old(tree.files), paths[..done], Substitution(keys, renames), dryRun)
    ensures changed == ChangedFiles(old(tree.files), paths[..done], Substitution(keys, renames))
    ensures total == SumOfCounts(changed)
  {
    hide Swept, ChangedFiles, SumOfCounts, Substitution, Rewritten, NewText, Count;
    raised, changed, total, done := false, [], 0, 0;
    ghost var files, rewriter := tree.files, Substitution(keys, renames);
    NothingSwept(files, rewriter, dryRun);
    for i := 0 to |paths|
      invariant done == i && forall j :: 0 <= j < i ==> rewriter(files[paths[j]]).Some?
      invariant tree.files == Swept(files, paths[..i], rewriter, dryRun)
      invariant changed == ChangedFiles(files, paths[..i], rewriter)
      invariant total == SumOfCounts(changed)
    {
      var path := paths[i];
      assert paths[..i + 1] == paths[..i] + [path];
      SweptSnoc(files, paths[..i], path, rewriter, dryRun);
      ChangedSnoc(files, paths[..i], path, rewriter);
      var original := tree.files[path];
      RewriterValue(keys, renames, original);
      var r := Substitute(original, keys, renames);
      if r.None? {
        raised := true;
        return;
      }
      var new_, count := r.value.0, r.value.1;
      if new_ != original {
        SumSnoc(changed, path, count);
        changed := changed + [(path, count)];
        total := total + count;
        if !dryRun {
          tree.files := tree.files[path := new_];
        }
      }
      done := i + 1;
    }
    assert paths[..|paths|] == paths;
  }

  /** With names as keys a text becomes its mapping. */
  lemma NamesNewText(text: string, keys: seq<string>, renames: Renames)
    requires NamesOnly(renames) && forall k :: k in keys <==> k in renames
    ensures NewText(Substitution(keys, renames), text) == Mapped(text, renames)
    ensures Mapped(text, renames) != text ==> Count(Substitution(keys, renames), text) == Hits(text, renames)
    ensures Substitution(keys, renames)(text).None? <==> renames == map[] && HasGap(text, 0)
  {
    hide Rewritten, Mapped, HasGap, Hits, NamesOnly;
    RewriteIsMapped(text, keys, renames);
    if renames == map[] {
      NothingRenamed(text);
    }
  }

  /** Some listed file has a gap. */
  ghost predicate SomeGap(files: map<string, string>, paths: seq<string>) {
    exists i :: 0 <= i < |paths| && paths[i] in files && HasGap(files[paths[i]], 0)
  }

  /** With names as keys the sweep raises an exception exactly for an empty rename map and a file with a gap, and in any
      case every listed file ends up mapped and the report is complete for all of them. */
  lemma SweepOfNames(files: map<string, string>, paths: seq<string>, keys: seq<string>, renames: Renames, dryRun: bool,
                     done: nat, path: string, n: nat)
    requires NamesOnly(renames) && forall k :: k in keys <==> k in renames
    requires Reaches(files, paths, Substitution(keys, renames), done) && forall p :: p in paths ==> p in files
    ensures done < |paths| <==> renames == map[] && SomeGap(files, paths)
    ensures Swept(files, paths[..done], Substitution(keys, renames), dryRun)
         == map p | p in files :: if p in paths && !dryRun then Mapped(files[p], renames) else files[p]
    ensures (path, n) in ChangedFiles(files, paths[..done], Substitution(keys, renames))
       <==> path in paths && Mapped(files[path], renames) != files[path] && n == Hits(files[path], renames)
  {
    hide Substitution, NewText, Count, Mapped, Hits, HasGap, NamesOnly, ChangedFiles;
    var rewriter := Substitution(keys, renames);
    forall text
      ensures NewText(rewriter, text) == Mapped(text, renames)
      ensures Mapped(text, renames) != text ==> Count(rewriter, text) == Hits(text, renames)
      ensures rewriter(text).None? <==> renames == map[] && HasGap(text, 0)
      ensures renames == map[] ==> Mapped(text, renames) == text
    {
      NamesNewText(text, keys, renames);
      NothingRenamed(text);
    }
    ReportIsComplete(files, paths[..done], rewriter, path, n);
    assert paths[..|paths|] == paths;
  }

  /** The substitution changes nothing that it has made of a listed file. */
  ghost predicate SettledFiles(files: map<string, string>, paths: seq<string>, rewriter: Rewriter) {
    forall p :: p in paths && p in files ==>
      NewText(rewriter, NewText(rewriter, files[p])) == NewText(rewriter, files[p])
  }

  /** A second sweep changes nothing and reports nothing if and only if the listed files are settled by the first. */
  lemma SweepTwice(files: map<string, string>, paths: seq<string>, rewriter: Rewriter)
    ensures var swept := Swept(files, paths, rewriter, false);
      && (Swept(swept, paths, rewriter, false) == swept <==> SettledFiles(files, paths, rewriter))
      && (ChangedFiles(swept, paths, rewriter) == [] <==> SettledFiles(files, paths, rewriter))
  {
    hide NewText, Count, ChangedFiles;
    var swept := Swept(files, paths, rewriter, false);
    forall p ensures Changes(swept, p, rewriter) && p in paths <==>
      p in paths && p in files && NewText(rewriter, NewText(rewriter, files[p])) != NewText(rewriter, files[p]) {
    }
    if SettledFiles(files, paths, rewriter) {
      NothingReported(swept, paths, rewriter);
    } else {
      var p :| p in paths && p in files && NewText(rewriter, NewText(rewriter, files[p])) != NewText(rewriter, files[p]);
      ReportIsComplete(swept, paths, rewriter, p, Count(rewriter, swept[p]));
      assert Swept(swept, paths, rewriter, false)[p] != swept[p];
    }
  }

  /** With names as keys and every target left alone, all files are settled. */
  lemma SettledTargets(files: map<string, string>, paths: seq<string>, keys: seq<string>, renames: Renames)
    requires NamesOnly(renames) && TargetsSettled(renames) && forall k :: k in keys <==> k in renames
    ensures SettledFiles(files, paths, Substitution(keys, renames))
  {
    hide Mapped, TargetsSettled, Substitution, NewText, NamesOnly;
    forall text
      ensures NewText(Substitution(keys, renames), NewText(Substitution(keys, renames), text))
           == NewText(Substitution(keys, renames), text)
    {
      NamesNewText(text, keys, renames);
      NamesNewText(Mapped(text, renames), keys, renames);
      SettledTwice(text, renames);
    }
  }

  lemma NothingReported(files: map<string, string>, paths: seq<string>, rewriter: Rewriter)
    requires forall p :: p in paths ==> !Changes(files, p, rewriter)
    ensures ChangedFiles(files, paths, rewriter) == []
  {
    hide Changes, Count;
  }
}
