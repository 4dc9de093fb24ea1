/** Rewriting legacy alias names throughout a source tree (scripts/sweep_alias_refs.py).
    The pattern is an alternation of all names, longest first, that must not touch a name character on either side. */
module AliasSweep {
  import opened Wrappers

  type Renames = map<string, string>

  /** `[A-Za-z0-9._-]` */
  predicate NameChar(c: char) {
    'a' <= c <= 'z' || 'A' <= c <= 'Z' || '0' <= c <= '9' || c == '.' || c == '_' || c == '-'
  }

  /** Letters, digits, and the characters with code points 45, 46 and 95. */
  lemma NameCharacters(c: char)
    ensures NameChar(c) <==> var n := c as int; 97 <= n <= 122 || 65 <= n <= 90 || 48 <= n <= 57 || n in {45, 46, 95}
  {
  }

  predicate IsName(s: string) {
    s != "" && forall i :: 0 <= i < |s| ==> NameChar(s[i])
  }

  ghost predicate NamesOnly(renames: Renames) {
    forall k :: k in renames ==> IsName(k)
  }

  const HAND_HANDLED: set<string> := {"gemma4"}

  /** The entries that are swept: those with a target, without the hand-handled names. */
  function Prepared(raw: map<string, Option<string>>): Renames {
    map k | k in raw && raw[k].Some? && raw[k].value != "" && k !in HAND_HANDLED :: raw[k].value
  }

  /** Exactly the entries with a target that is not empty stay, with that target, but not the hand-handled name. */
  lemma PreparedAre(raw: map<string, Option<string>>, k: string)
    ensures k in Prepared(raw) <==> k in raw && raw[k].GetOr("") != "" && k != "gemma4"
    ensures k in Prepared(raw) ==> Prepared(raw)[k] == raw[k].value
  {
  }

  // ---- the specification: whole runs of name characters are looked up

  /** The length of the run of name characters at the front. */
  function RunLength(text: string): (n: nat)
    ensures n <= |text|
    ensures forall i :: 0 <= i < n ==> NameChar(text[i])
    ensures n < |text| ==> !NameChar(text[n])
  {
    if text == "" || !NameChar(text[0]) then 0 else 1 + RunLength(text[1..])
  }

  function Target(run: string, renames: Renames): string {
    if run in renames then renames[run] else run
  }

  /** The text with every maximal run replaced by its target. */
  function Mapped(text: string, renames: Renames): string
    decreases |text|
  {
    if text == "" then ""
    else if !NameChar(text[0]) then [text[0]] + Mapped(text[1..], renames)
    else Target(text[..RunLength(text)], renames) + Mapped(text[RunLength(text)..], renames)
  }

  /** The number of runs that have a target. */
  function Hits(text: string, renames: Renames): nat
    decreases |text|
  {
    if text == "" then 0
    else if !NameChar(text[0]) then Hits(text[1..], renames)
    else (if text[..RunLength(text)] in renames then 1 else 0) + Hits(text[RunLength(text)..], renames)
  }

  // ---- the scanner

  /** Whether the pattern can match at `i`: no name character before. */
  predicate StartsHere(text: string, i: nat) {
    i <= |text| && (i == 0 || !NameChar(text[i - 1]))
  }

  /** Whether an alternative matches at `i`: the name itself and no name character after it. */
  predicate MatchesAt(text: string, i: nat, key: string) {
    && i + |key| <= |text| && text[i..i + |key|] == key
    && (i + |key| < |text| ==> !NameChar(text[i + |key|]))
  }

  /** The alternatives of the pattern.  The pattern of an empty list still has one, the empty text. */
  function Alternatives(keys: seq<string>): seq<string> {
    if keys == [] then [""] else keys
  }

  /** The first alternative that matches at `i`.  Right after an empty match there, only a longer one counts. */
  function FirstOf(text: string, i: nat, names: seq<string>, advance: bool): (found: Option<string>)
    ensures found.Some? ==> found.value in names && MatchesAt(text, i, found.value) && (advance ==> found.value != "")
    ensures found.None? ==> forall k :: k in names ==> !MatchesAt(text, i, k) || (advance && k == "")
  {
    if names == [] then None
    else if MatchesAt(text, i, names[0]) && !(advance && names[0] == "") then Some(names[0])
    else FirstOf(text, i, names[1..], advance)
  }

  /** Tries the alternatives in order. */
  method FirstMatch(text: string, i: nat, names: seq<string>, advance: bool) returns (found: Option<string>)
    ensures found == FirstOf(text, i, names, advance)
  {
    for n := 0 to |names|
      invariant FirstOf(text, i, names, advance) == FirstOf(text, i, names[n..], advance)
    {
      if MatchesAt(text, i, names[n]) && !(advance && names[n] == "") {
        return Some(names[n]);
      }
    }
    return None;
  }

  /** A new text and the number of replacements in it; nothing when a match has no replacement. */
  type Rewrite = Option<(string, nat)>

  function Emit(piece: string, count: nat, rest: Rewrite): Rewrite {
    if rest.None? then None else Some((piece + rest.value.0, count + rest.value.1))
  }

  /** The substitution from position `i` on, for any alternatives: at every position the first one that matches is
      replaced, and without a match one character is copied. */
  function Scanned(text: string, i: nat, advance: bool, names: seq<string>, renames: Renames): Rewrite
    requires i <= |text|
    decreases |text| - i, !advance
  {
    var found := if StartsHere(text, i) then FirstOf(text, i, names, advance) else None;
    if found.Some? then
      var k := found.value;
      if k !in renames then None else Emit(renames[k], 1, Scanned(text, i + |k|, k == "", names, renames))
    else if i == |text| then Some(("", 0))
    else Emit([text[i]], 0, Scanned(text, i + 1, false, names, renames))
  }

  /** The whole substitution. */
  function Rewritten(text: string, keys: seq<string>, renames: Renames): Rewrite {
    Scanned(text, 0, false, Alternatives(keys), renames)
  }

  /** At the start of a run the only name that can match is the whole run. */
  lemma MatchIsRun(text: string, i: nat, key: string)
    requires i <= |text| && IsName(key)
    ensures MatchesAt(text, i, key) <==> key == text[i..][..RunLength(text[i..])] && RunLength(text[i..]) > 0
  {
  }

  /** What is still to come at position `i`: inside a run its rest is copied. */
  function Pending(text: string, i: nat, renames: Renames): string
    requires i <= |text|
  {
    var rest := text[i..];
    if StartsHere(text, i) then Mapped(rest, renames)
    else rest[..RunLength(rest)] + Mapped(rest[RunLength(rest)..], renames)
  }

  function PendingHits(text: string, i: nat, renames: Renames): nat
    requires i <= |text|
  {
    var rest := text[i..];
    if StartsHere(text, i) then Hits(rest, renames) else Hits(rest[RunLength(rest)..], renames)
  }

  /** Copying one character where nothing matches. */
  lemma CopyOne(text: string, i: nat, renames: Renames)
    requires i < |text| && NamesOnly(renames)
    requires StartsHere(text, i) ==> forall k :: k in renames ==> !MatchesAt(text, i, k)
    ensures Pending(text, i, renames) == [text[i]] + Pending(text, i + 1, renames)
    ensures PendingHits(text, i, renames) == PendingHits(text, i + 1, renames)
  {
    var rest, tail := text[i..], text[i + 1..];
    var n := RunLength(rest);
    assert rest[0] == text[i] && rest[1..] == tail;
    if NameChar(text[i]) {
      assert n == 1 + RunLength(tail);
      assert rest[..n] == [text[i]] + tail[..n - 1] && rest[n..] == tail[n - 1..];
      if StartsHere(text, i) && rest[..n] in renames {
        MatchIsRun(text, i, rest[..n]);
      }
      assert [text[i]] + (tail[..n - 1] + Mapped(tail[n - 1..], renames))
          == rest[..n] + Mapped(rest[n..], renames);
    } else {
      assert n == 0 && rest[..0] == "" && rest[0..] == rest;
      assert "" + Mapped(rest, renames) == Mapped(rest, renames);
    }
  }

  /** Replacing a match. */
  lemma ReplaceOne(text: string, i: nat, key: string, renames: Renames)
    requires i <= |text| && NamesOnly(renames) && key in renames
    requires StartsHere(text, i) && MatchesAt(text, i, key)
    ensures |key| > 0
    ensures Pending(text, i, renames) == renames[key] + Pending(text, i + |key|, renames)
    ensures PendingHits(text, i, renames) == 1 + PendingHits(text, i + |key|, renames)
  {
    hide *;
    KeyIsName(renames, key);
    MatchFits(text, i, key);
    MatchIsRun(text, i, key);
    var rest := text[i..];
    var n := RunLength(rest);
    var after := text[i + n..];
    RunFirst(rest, renames);
    assert rest[n..] == after;
    PendingAtStart(text, i, renames);
    PendingAfterRun(text, i, renames);
  }

  lemma KeyIsName(renames: Renames, key: string)
    requires NamesOnly(renames) && key in renames
    ensures IsName(key)
    ensures |key| > 0 && Target(key, renames) == renames[key]
  {
  }

  lemma PendingAtStart(text: string, i: nat, renames: Renames)
    requires StartsHere(text, i)
    ensures i <= |text|
    ensures Pending(text, i, renames) == Mapped(text[i..], renames)
    ensures PendingHits(text, i, renames) == Hits(text[i..], renames)
  {
  }

  /** Right behind a run nothing is left of it. */
  lemma PendingAfterRun(text: string, i: nat, renames: Renames)
    requires i <= |text| && RunLength(text[i..]) > 0
    ensures var j := i + RunLength(text[i..]);
      && Pending(text, j, renames) == Mapped(text[j..], renames)
      && PendingHits(text, j, renames) == Hits(text[j..], renames)
  {
  }

  /** A text that starts with a run. */
  lemma RunFirst(text: string, renames: Renames)
    requires RunLength(text) > 0
    ensures var n := RunLength(text);
      && Mapped(text, renames) == Target(text[..n], renames) + Mapped(text[n..], renames)
      && Hits(text, renames) == (if text[..n] in renames then 1 else 0) + Hits(text[n..], renames)
  {
  }

  /** The substitution: scans from the left, replaces the first alternative that matches, and goes on after it. */
  method Substitute(text: string, keys: seq<string>, renames: Renames) returns (r: Rewrite)
    ensures r == Rewritten(text, keys, renames)
  {
    hide *;
    var names := Alternatives(keys);
    var new_, count: nat, i, advance := "", 0, 0, false;
    SubstituteStart(text, keys, renames);
    while true
      invariant i <= |text|
      invariant Emit(new_, count, Scanned(text, i, advance, names, renames)) == Rewritten(text, keys, renames)
      decreases |text| - i, !advance
    {
      ScannedStep(text, i, advance, names, renames, new_, count);
      var found: Option<string> := None;
      if StartsHere(text, i) {
        found := FirstMatch(text, i, names, advance);
      }
      if found.Some? {
        if found.value !in renames {
          return None;
        }
        new_ := new_ + renames[found.value];
        count := count + 1;
        i := i + |found.value|;
        advance := found.value == "";
      } else {
        if i == |text| {
          return Some((new_, count));
        }
        new_ := new_ + [text[i]];
        i := i + 1;
        advance := false;
      }
    }
  }

  lemma SubstituteStart(text: string, keys: seq<string>, renames: Renames)
    ensures Emit("", 0, Scanned(text, 0, false, Alternatives(keys), renames)) == Rewritten(text, keys, renames)
  {
    var r := Rewritten(text, keys, renames);
    assert r.Some? ==> "" + r.value.0 == r.value.0;
  }

  /** One step of the scan, behind what has been emitted already. */
  lemma ScannedStep(text: string, i: nat, advance: bool, names: seq<string>, renames: Renames, new_: string, count: nat)
    requires i <= |text|
    ensures var whole := Emit(new_, count, Scanned(text, i, advance, names, renames));
      var found := if StartsHere(text, i) then FirstOf(text, i, names, advance) else None;
      && (found.Some? ==>
            var k := found.value;
            && i + |k| <= |text| && (k == "" ==> !advance)
            && whole == if k !in renames then None
                        else Emit(new_ + renames[k], count + 1, Scanned(text, i + |k|, k == "", names, renames)))
      && (found.None? ==>
            whole == if i == |text| then Some((new_, count))
                     else Emit(new_ + [text[i]], count, Scanned(text, i + 1, false, names, renames)))
  {
    hide StartsHere, FirstOf;
    var found := if StartsHere(text, i) then FirstOf(text, i, names, advance) else None;
    if found.Some? {
      var k := found.value;
      MatchFits(text, i, k);
      if k in renames {
        EmitTwice(new_, count, renames[k], 1, Scanned(text, i + |k|, k == "", names, renames));
      }
    } else if i == |text| {
      assert new_ + "" == new_;
    } else {
      EmitTwice(new_, count, [text[i]], 0, Scanned(text, i + 1, false, names, renames));
    }
  }

  lemma EmitTwice(a: string, m: nat, b: string, n: nat, rest: Rewrite)
    ensures Emit(a, m, Emit(b, n, rest)) == Emit(a + b, m + n, rest)
  {
    if rest.Some? {
      Regroup(a, b, rest.value.0);
    }
  }

  // ---- names: the scan is the mapping of whole runs

  lemma {:induction false} NamesScanned(text: string, i: nat, advance: bool, names: seq<string>, renames: Renames)
    requires i <= |text| && NamesOnly(renames) && forall k :: k in names <==> k in renames
    ensures Scanned(text, i, advance, names, renames)
         == Some((Pending(text, i, renames), PendingHits(text, i, renames)))
    decreases |text| - i
  {
    hide *;
    EmitNothing(Scanned(text, i, advance, names, renames));
    ScannedStep(text, i, advance, names, renames, "", 0);
    var found := if StartsHere(text, i) then FirstOf(text, i, names, advance) else None;
    if found.Some? {
      var k := found.value;
      ReplaceOne(text, i, k, renames);
      NamesScanned(text, i + |k|, false, names, renames);
      EmitSome(renames[k], 1, text, i + |k|, renames);
    } else if i == |text| {
      NothingPending(text, renames);
    } else {
      NoMatch(text, i, names, advance, renames);
      CopyOne(text, i, renames);
      NamesScanned(text, i + 1, false, names, renames);
      EmitSome([text[i]], 0, text, i + 1, renames);
    }
  }

  lemma EmitNothing(rest: Rewrite)
    ensures Emit("", 0, rest) == rest
    ensures forall piece: string :: "" + piece == piece
  {
    assert rest.Some? ==> "" + rest.value.0 == rest.value.0;
  }

  lemma EmitSome(piece: string, count: nat, text: string, i: nat, renames: Renames)
    requires i <= |text|
    ensures Emit(piece, count, Some((Pending(text, i, renames), PendingHits(text, i, renames))))
         == Some((piece + Pending(text, i, renames), count + PendingHits(text, i, renames)))
  {
  }

  lemma NoMatch(text: string, i: nat, names: seq<string>, advance: bool, renames: Renames)
    requires i <= |text| && NamesOnly(renames) && forall k :: k in names <==> k in renames
    requires (if StartsHere(text, i) then FirstOf(text, i, names, advance) else None).None?
    ensures StartsHere(text, i) ==> forall k :: k in renames ==> !MatchesAt(text, i, k)
  {
  }

  /** A position without a name character on either side. */
  predicate IsGap(text: string, i: nat) {
    StartsHere(text, i) && MatchesAt(text, i, "")
  }

  ghost predicate HasGap(text: string, from: nat) {
    exists i: nat :: from <= i <= |text| && IsGap(text, i)
  }

  lemma {:induction false} EmptyScanned(text: string, i: nat)
    requires i <= |text|
    ensures Scanned(text, i, false, [""], map[]) == if HasGap(text, i) then None else Some((text[i..], 0))
    decreases |text| - i
  {
    assert IsGap(text, i) ==> HasGap(text, i);
    assert HasGap(text, i) ==> IsGap(text, i) || HasGap(text, i + 1);
    hide MatchesAt, StartsHere, HasGap;
    if IsGap(text, i) {
    } else if i == |text| {
      assert text[i..] == "";
    } else {
      EmptyScanned(text, i + 1);
      assert text[i..] == [text[i]] + text[i + 1..];
    }
  }

  lemma {:induction false} NothingRenamed(text: string)
    ensures Mapped(text, map[]) == text && Hits(text, map[]) == 0
    decreases |text|
  {
    if text == "" {
    } else if !NameChar(text[0]) {
      NothingRenamed(text[1..]);
    } else {
      NothingRenamed(text[RunLength(text)..]);
    }
  }

  /** With names as keys the substitution maps whole runs, whatever the order of the alternatives.  An empty rename map
      raises an exception on exactly the texts that have a gap. */
  lemma RewriteIsMapped(text: string, keys: seq<string>, renames: Renames)
    requires NamesOnly(renames) && forall k :: k in keys <==> k in renames
    ensures Rewritten(text, keys, renames)
         == if renames == map[] && HasGap(text, 0) then None else Some((Mapped(text, renames), Hits(text, renames)))
  {
    hide HasGap, Scanned, Mapped, Hits, NamesOnly;
    if keys == [] {
      assert renames == map[];
      EmptyScanned(text, 0);
      NothingRenamed(text);
      assert text[0..] == text;
    } else {
      assert keys[0] in renames;
      NamesScanned(text, 0, false, keys, renames);
      AllPending(text, renames);
    }
  }

  lemma Regroup(a: string, b: string, c: string)
    ensures a + b + c == a + (b + c)
  {
  }

  lemma MatchFits(text: string, i: nat, key: string)
    requires MatchesAt(text, i, key)
    ensures i + |key| <= |text|
  {
  }

  lemma AllPending(text: string, renames: Renames)
    ensures Pending(text, 0, renames) == Mapped(text, renames) && PendingHits(text, 0, renames) == Hits(text, renames)
    ensures "" + Pending(text, 0, renames) == Pending(text, 0, renames)
  {
  }

  lemma NothingPending(text: string, renames: Renames)
    ensures Pending(text, |text|, renames) == "" && PendingHits(text, |text|, renames) == 0
  {
  }

  // ---- the order of the alternatives

  ghost predicate SameElements(names: seq<string>, keys: set<string>) {
    forall k :: k in names <==> k in keys
  }

  /** Both keys can match at one position: the first is a proper beginning of the second, and no name character
      follows it there. */
  predicate Conflict(k1: string, k2: string) {
    k1 < k2 && !NameChar(k2[|k1|])
  }

  ghost predicate NoConflict(keys: set<string>) {
    forall k1, k2 :: k1 in keys && k2 in keys ==> !Conflict(k1, k2)
  }

  ghost predicate OrderIrrelevant(keys: set<string>) {
    forall text, a, b, renames: Renames ::
      renames.Keys == keys && SameElements(a, keys) && SameElements(b, keys) ==>
        Rewritten(text, a, renames) == Rewritten(text, b, renames)
  }

  /** Two keys that match at one position conflict. */
  lemma BothMatch(text: string, i: nat, k1: string, k2: string)
    requires MatchesAt(text, i, k1) && MatchesAt(text, i, k2)
    ensures k1 == k2 || Conflict(k1, k2) || Conflict(k2, k1)
  {
    if |k1| < |k2| {
      assert k2[..|k1|] == text[i..i + |k1|] && k2[|k1|] == text[i + |k1|];
    } else if |k2| < |k1| {
      assert k1[..|k2|] == text[i..i + |k2|] && k1[|k2|] == text[i + |k2|];
    }
  }

  lemma SameFirst(text: string, i: nat, advance: bool, keys: set<string>, a: seq<string>, b: seq<string>)
    requires NoConflict(keys) && SameElements(a, keys) && SameElements(b, keys)
    ensures FirstOf(text, i, a, advance) == FirstOf(text, i, b, advance)
  {
    hide MatchesAt, Conflict;
    var x, y := FirstOf(text, i, a, advance), FirstOf(text, i, b, advance);
    if x.Some? && y.Some? {
      BothMatch(text, i, x.value, y.value);
    }
  }

  lemma {:induction false} SameScan(text: string, i: nat, advance: bool, keys: set<string>, a: seq<string>,
                                    b: seq<string>, renames: Renames)
    requires i <= |text| && NoConflict(keys) && SameElements(a, keys) && SameElements(b, keys)
    ensures Scanned(text, i, advance, a, renames) == Scanned(text, i, advance, b, renames)
    decreases |text| - i, !advance
  {
    hide NoConflict, SameElements, StartsHere, MatchesAt, FirstOf;
    SameFirst(text, i, advance, keys, a, b);
    var found := if StartsHere(text, i) then FirstOf(text, i, a, advance) else None;
    if found.Some? {
      var k := found.value;
      MatchFits(text, i, k);
      SameScan(text, i + |k|, k == "", keys, a, b, renames);
    } else if i < |text| {
      SameScan(text, i + 1, false, keys, a, b, renames);
    }
  }

  /** Without a missing replacement there is no exception. */
  lemma {:induction false} ScanSucceeds(text: string, i: nat, advance: bool, names: seq<string>, renames: Renames)
    requires i <= |text| && forall k :: k in names ==> k in renames
    ensures Scanned(text, i, advance, names, renames).Some?
    decreases |text| - i, !advance
  {
    hide StartsHere, MatchesAt;
    var found := if StartsHere(text, i) then FirstOf(text, i, names, advance) else None;
    if found.Some? {
      var k := found.value;
      MatchFits(text, i, k);
      ScanSucceeds(text, i + |k|, k == "", names, renames);
    } else if i < |text| {
      ScanSucceeds(text, i + 1, false, names, renames);
    }
  }

  lemma {:induction false} Enumerate(keys: set<string>) returns (names: seq<string>)
    ensures SameElements(names, keys)
    decreases |keys|
  {
    names := [];
    if keys != {} {
      var k :| k in keys;
      var rest := Enumerate(keys - {k});
      names := [k] + rest;
    }
  }

  /** Of two keys in conflict the one that is tried first wins on the text of the longer. */
  lemma FirstWins(keys: set<string>, k1: string, k2: string, first: string, renames: Renames)
    returns (names: seq<string>)
    requires k1 in keys && k2 in keys && Conflict(k1, k2) && first in {k1, k2} && renames.Keys == keys
    ensures SameElements(names, keys) && Rewritten(k2, names, renames).Some?
    ensures renames[first] <= Rewritten(k2, names, renames).value.0
  {
    var rest := Enumerate(keys);
    names := [first] + rest;
    assert k2[..|k1|] == k1 && k2[..|k2|] == k2;
    assert MatchesAt(k2, 0, first);
    assert FirstOf(k2, 0, names, false) == Some(first);
    ScanSucceeds(k2, 0, false, names, renames);
    assert Rewritten(k2, names, renames)
        == Emit(renames[first], 1, Scanned(k2, |first|, first == "", names, renames));
  }

  /** The order of the alternatives is irrelevant, for all texts and all targets, if and only if no key is a proper
      beginning of another that goes on with something else than a name character. */
  lemma OrderIrrelevantIff(keys: set<string>)
    ensures OrderIrrelevant(keys) <==> NoConflict(keys)
  {
    hide Rewritten, Conflict;
    if NoConflict(keys) {
      forall text, a, b, renames: Renames | renames.Keys == keys && SameElements(a, keys) && SameElements(b, keys)
        ensures Rewritten(text, a, renames) == Rewritten(text, b, renames)
      {
        SameRewrite(text, keys, a, b, renames);
      }
    } else {
      var k1, k2 :| k1 in keys && k2 in keys && Conflict(k1, k2);
      ConflictMeaning(k1, k2);
      var renames: Renames := map k | k in keys :: if k == k1 then "x" else "y";
      var a := FirstWins(keys, k1, k2, k1, renames);
      var b := FirstWins(keys, k1, k2, k2, renames);
      assert "x"[0] != "y"[0];
      assert Rewritten(k2, a, renames).value.0[0] == 'x';
      assert Rewritten(k2, b, renames).value.0[0] == 'y';
    }
  }

  lemma ConflictMeaning(k1: string, k2: string)
    requires Conflict(k1, k2)
    ensures k1 != k2
  {
  }

  lemma SameRewrite(text: string, keys: set<string>, a: seq<string>, b: seq<string>, renames: Renames)
    requires NoConflict(keys) && SameElements(a, keys) && SameElements(b, keys)
    ensures Rewritten(text, a, renames) == Rewritten(text, b, renames)
  {
    hide NoConflict, Scanned;
    EmptyTogether(keys, a, b);
    if a != [] {
      SameScan(text, 0, false, keys, a, b, renames);
    }
  }

  lemma EmptyTogether(keys: set<string>, a: seq<string>, b: seq<string>)
    requires SameElements(a, keys) && SameElements(b, keys)
    ensures a == [] <==> b == []
  {
    assert a != [] ==> a[0] in keys;
    assert b != [] ==> b[0] in keys;
  }

  /** Names are never in conflict. */
  lemma NamesNeverConflict(renames: Renames)
    requires NamesOnly(renames)
    ensures NoConflict(renames.Keys)
  {
  }

  /** With keys that are not names the order of the alternatives can matter. */
  lemma OrderMatters()
    ensures !OrderIrrelevant({"a", "a b"})
  {
    assert |"a"| == 1 && "a b"[..1] == "a";
    assert Conflict("a", "a b");
    OrderIrrelevantIff({"a", "a b"});
  }

  // ---- idempotence

  /** The seam between two texts cuts no run. */
  predicate Seam(a: string, b: string) {
    a == "" || b == "" || !NameChar(a[|a| - 1]) || !NameChar(b[0])
  }

  lemma {:induction false} MappedConcat(a: string, b: string, renames: Renames)
    requires Seam(a, b)
    ensures Mapped(a + b, renames) == Mapped(a, renames) + Mapped(b, renames)
    decreases |a|
  {
    hide *;
    if a == "" {
      assert a + b == b;
      NothingMapped(renames);
    } else if !NameChar(a[0]) {
      OtherFirst(a, renames);
      OtherFirst(a + b, renames);
      assert (a + b)[1..] == a[1..] + b;
      SeamOfTail(a, b);
      MappedConcat(a[1..], b, renames);
      Regroup([a[0]], Mapped(a[1..], renames), Mapped(b, renames));
    } else {
      RunConcat(a, b);
      var n := RunLength(a);
      RunFirst(a, renames);
      RunFirst(a + b, renames);
      MappedConcat(a[n..], b, renames);
      Regroup(Target(a[..n], renames), Mapped(a[n..], renames), Mapped(b, renames));
    }
  }

  lemma NothingMapped(renames: Renames)
    ensures Mapped("", renames) == ""
  {
  }

  /** A text that starts with another character. */
  lemma OtherFirst(text: string, renames: Renames)
    requires text != "" && !NameChar(text[0])
    ensures Mapped(text, renames) == [text[0]] + Mapped(text[1..], renames)
  {
  }

  lemma SeamOfTail(a: string, b: string)
    requires a != "" && Seam(a, b)
    ensures Seam(a[1..], b)
  {
  }

  /** A run in front of a seam is the same run behind the seam's removal. */
  lemma RunConcat(a: string, b: string)
    requires a != "" && NameChar(a[0]) && Seam(a, b)
    ensures var n := RunLength(a);
      && n > 0 && RunLength(a + b) == n && (a + b)[..n] == a[..n] && (a + b)[n..] == a[n..] + b && Seam(a[n..], b)
  {
    RunOfConcat(a, b);
    var n := RunLength(a);
    assert n < |a| ==> a[n..][|a| - n - 1] == a[|a| - 1];
  }

  lemma {:induction false} RunOfConcat(a: string, b: string)
    requires a != "" && Seam(a, b)
    ensures RunLength(a + b) == RunLength(a)
    decreases |a|
  {
    if NameChar(a[0]) {
      assert (a + b)[1..] == a[1..] + b;
      if a[1..] == "" {
        assert a[1..] + b == b;
      } else {
        RunOfConcat(a[1..], b);
      }
    }
  }

  /** Every target is left alone by the rewrite. */
  ghost predicate TargetsSettled(renames: Renames) {
    forall k :: k in renames ==> Mapped(renames[k], renames) == renames[k]
  }

  lemma NameIsOneRun(name: string, renames: Renames)
    requires IsName(name)
    ensures Mapped(name, renames) == Target(name, renames)
  {
    var n := RunLength(name);
    assert name[..n] == name && name[n..] == "";
    assert Target(name, renames) + "" == Target(name, renames);
  }

  /** A target that is itself a name is settled exactly when it is no source, or maps to itself. */
  lemma SettledName(name: string, renames: Renames)
    requires IsName(name)
    ensures Mapped(name, renames) == name <==> name !in renames || renames[name] == name
  {
    NameIsOneRun(name, renames);
  }

  lemma {:induction false} SettledTwice(text: string, renames: Renames)
    requires TargetsSettled(renames)
    ensures Mapped(Mapped(text, renames), renames) == Mapped(text, renames)
    decreases |text|
  {
    if text == "" {
    } else {
      if !NameChar(text[0]) {
        var rest := Mapped(text[1..], renames);
        SettledTwice(text[1..], renames);
        assert ([text[0]] + rest)[1..] == rest;
      } else {
        var n := RunLength(text);
        var run, rest := text[..n], Mapped(text[n..], renames);
        SettledTwice(text[n..], renames);
        assert IsName(run);
        NameIsOneRun(run, renames);
        var t := Target(run, renames);
        assert Mapped(t, renames) == t;
        RestStartsOutside(text[n..], renames);
        MappedConcat(t, rest, renames);
      }
    }
  }

  lemma RestStartsOutside(text: string, renames: Renames)
    requires text != "" ==> !NameChar(text[0])
    ensures var m := Mapped(text, renames); m != "" ==> !NameChar(m[0])
  {
  }

  ghost predicate IdempotentRewrite(renames: Renames) {
    forall text: string :: Mapped(Mapped(text, renames), renames) == Mapped(text, renames)
  }

  /** The rewrite is idempotent on every text exactly when every target is settled. */
  lemma RewriteIdempotent(renames: Renames)
    requires NamesOnly(renames)
    ensures TargetsSettled(renames) <==> IdempotentRewrite(renames)
  {
    hide Mapped;
    if TargetsSettled(renames) {
      forall text ensures Mapped(Mapped(text, renames), renames) == Mapped(text, renames) {
        SettledTwice(text, renames);
      }
    }
    if IdempotentRewrite(renames) {
      forall k | k in renames ensures Mapped(renames[k], renames) == renames[k] {
        NameIsOneRun(k, renames);
        assert Mapped(Mapped(k, renames), renames) == Mapped(k, renames);
      }
    }
  }

  /** A rename map with a chain of names is not idempotent. */
  lemma ChainedNames() returns (renames: Renames, text: string)
    ensures NamesOnly(renames) && Mapped(Mapped(text, renames), renames) != Mapped(text, renames)
  {
    hide Mapped;
    assert "a"[0] != "b"[0] && "b"[0] != "c"[0];
    text, renames := "a", map["a" := "b", "b" := "c"];
    assert "a" in renames && "b" in renames;
    NameIsOneRun("a", renames);
    NameIsOneRun("b", renames);
  }

  /** Hand-handled names are never rewritten, wherever they stand as whole runs. */
  lemma HandHandledStay(raw: map<string, Option<string>>, name: string, a: string, b: string)
    requires name in HAND_HANDLED && Seam(a, name) && Seam(name, b)
    ensures var renames := Prepared(raw);
      Mapped(a + name + b, renames) == Mapped(a, renames) + name + Mapped(b, renames)
  {
    hide *;
    var renames := Prepared(raw);
    HandHandledAlone(raw, name);
    SeamBefore(a, name, b);
    Regroup(a, name, b);
    MappedConcat(a, name + b, renames);
    MappedConcat(name, b, renames);
    Regroup(Mapped(a, renames), name, Mapped(b, renames));
  }

  lemma HandHandledAlone(raw: map<string, Option<string>>, name: string)
    requires name in HAND_HANDLED
    ensures name != "" && Mapped(name, Prepared(raw)) == name
  {
    assert name == "gemma4";
    assert IsName(name);
    NameIsOneRun(name, Prepared(raw));
  }

  lemma SeamBefore(a: string, name: string, b: string)
    requires name != "" && Seam(a, name)
    ensures Seam(a, name + b)
  {
  }
}
