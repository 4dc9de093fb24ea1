/** Recovering per-position acceptance statistics from a flat stream of "came from the draft" flags
    (bench/bench_mtp_k3.py). */
module ParseRounds {
  import opened RunCounts

  /** The lengths of the accept runs of a stream, in order: one per closing `false`, and the open run at the end. */
  function RunsOf(flags: seq<bool>): (runs: seq<nat>)
    ensures runs != []
  {
    if flags == [] then [0]
    else
      var before := RunsOf(flags[..|flags| - 1]);
      if flags[|flags| - 1] then before[|before| - 1 := before[|before| - 1] + 1] else before + [0]
  }

  datatype Stat = Stat(attempts: nat, accepted: nat)

  /** The statistics of a list of runs: an empty run is not counted at all, a longer run counts as an attempt at
      every position and as accepted up to its length. */
  ghost predicate StatsOf(stats: map<nat, Stat>, runs: seq<nat>, k: nat) {
    && (forall p :: p in stats <==> 1 <= p <= k)
    && (forall p :: 1 <= p <= k ==> stats[p] == Stat(AtLeast(runs, 1), AtLeast(runs, p)))
  }

  /** Adds one finished run to the statistics. */
  method CountRun(stats: map<nat, Stat>, ghost runs: seq<nat>, runLen: nat, k: nat) returns (updated: map<nat, Stat>)
    requires StatsOf(stats, runs, k)
    ensures StatsOf(updated, runs + [runLen], k)
  {
    updated := stats;
    forall p: int ensures AtLeast(runs + [runLen], p) == AtLeast(runs, p) + (if runLen >= p then 1 else 0) {
      AtLeastSnoc(runs, runLen, p);
    }
    if runLen <= 0 {
      return;
    }
    for p := 1 to k + 1
      invariant forall q :: q in updated <==> 1 <= q <= k
      invariant forall q :: 1 <= q < p ==> updated[q] == Stat(AtLeast(runs + [runLen], 1), AtLeast(runs + [runLen], q))
      invariant forall q :: p <= q <= k ==> updated[q] == stats[q]
    {
      var stat := updated[p];
      stat := stat.(attempts := stat.attempts + 1);
      if runLen >= p {
        stat := stat.(accepted := stat.accepted + 1);
      }
      updated := updated[p := stat];
    }
  }

  /** The stream parser. */
  method Parse(flags: seq<bool>, k: nat) returns (stats: map<nat, Stat>)
    ensures StatsOf(stats, RunsOf(flags), k)
  {
    stats := map[];
    for p := 1 to k + 1
      invariant forall q :: q in stats <==> 1 <= q < p
      invariant forall q :: 1 <= q < p ==> stats[q] == Stat(0, 0)
    {
      stats := stats[p := Stat(0, 0)];
    }
    var runLen := 0;
    ghost var done: seq<nat> := [];
    for i := 0 to |flags|
      invariant StatsOf(stats, done, k)
      invariant RunsOf(flags[..i]) == done + [runLen]
    {
      assert flags[..i + 1][..i] == flags[..i];
      if flags[i] {
        runLen := runLen + 1;
      } else {
        stats := CountRun(stats, done, runLen, k);
        done := done + [runLen];
        runLen := 0;
      }
    }
    assert flags[..|flags|] == flags;
    stats := CountRun(stats, done, runLen, k);
  }

  /** A generator round: a plain step without a draft, or a verification that accepted some drafts. */
  datatype Round = Plain | Verify(accepted: nat)

  function AcceptedIn(round: Round): nat {
    match round
    case Plain => 0
    case Verify(n) => n
  }

  function AcceptCounts(rounds: seq<Round>): (runs: seq<nat>)
    ensures |runs| == |rounds|
    ensures forall i :: 0 <= i < |runs| ==> runs[i] == AcceptedIn(rounds[i])
  {
    seq(|rounds|, i requires 0 <= i < |rounds| => AcceptedIn(rounds[i]))
  }

  /** What the generator yields: per round its accepted drafts and then one token of its own; the stream may stop
      after `open` accepted drafts of a further round. */
  function Stream(rounds: seq<Round>, open: nat): seq<bool>
    decreases |rounds|, open
  {
    if open > 0 then Stream(rounds, open - 1) + [true]
    else if rounds == [] then []
    else Stream(rounds[..|rounds| - 1], AcceptedIn(rounds[|rounds| - 1])) + [false]
  }

  /** Parsing the stream of any rounds, cut off anywhere, gives back their accepted counts. */
  lemma {:induction false} RunsOfStream(rounds: seq<Round>, open: nat)
    ensures RunsOf(Stream(rounds, open)) == AcceptCounts(rounds) + [open]
    decreases |rounds|, open
  {
    StreamSteps(rounds, open);
    hide RunsOf, Stream, AcceptCounts;
    if open > 0 {
      RunsOfStream(rounds, open - 1);
      RunsOfSnoc(Stream(rounds, open - 1), true);
    } else if rounds != [] {
      var init, last := rounds[..|rounds| - 1], AcceptedIn(rounds[|rounds| - 1]);
      RunsOfStream(init, last);
      RunsOfSnoc(Stream(init, last), false);
    }
  }

  lemma RunsOfSnoc(flags: seq<bool>, flag: bool)
    ensures var before := RunsOf(flags);
      RunsOf(flags + [flag]) == if flag then before[|before| - 1 := before[|before| - 1] + 1] else before + [0]
  {
    assert (flags + [flag])[..|flags|] == flags;
  }

  lemma StreamSteps(rounds: seq<Round>, open: nat)
    ensures open > 0 ==> Stream(rounds, open) == Stream(rounds, open - 1) + [true]
    ensures open == 0 && rounds == [] ==> RunsOf(Stream(rounds, open)) == AcceptCounts(rounds) + [open]
    ensures rounds != [] ==>
      var init, last := rounds[..|rounds| - 1], AcceptedIn(rounds[|rounds| - 1]);
      && AcceptCounts(rounds) == AcceptCounts(init) + [last]
      && (open == 0 ==> Stream(rounds, open) == Stream(init, last) + [false])
  {
  }

  /** What the parsed numbers mean for the rounds behind the stream.  `open` is the unfinished last round. */
  lemma ParsedStatistics(rounds: seq<Round>, open: nat, k: nat, stats: map<nat, Stat>)
    requires StatsOf(stats, RunsOf(Stream(rounds, open)), k)
    ensures var runs := AcceptCounts(rounds) + [open];
      && (forall a :: 1 <= a < k ==> stats[a].accepted == stats[a + 1].accepted + Exactly(runs, a))
      && (forall p :: 1 <= p <= k ==> stats[p].attempts == |runs| - Exactly(runs, 0))
      && AcceptedSum(stats, k) == CappedSum(runs, k)
  {
    RunsOfStream(rounds, open);
    var runs := AcceptCounts(rounds) + [open];
    forall a | 1 <= a < k ensures stats[a].accepted == stats[a + 1].accepted + Exactly(runs, a) {
      AtLeastDifference(runs, a);
    }
    AtLeastZero(runs);
    AtLeastDifference(runs, 0);
    AcceptedSumIsByPosition(stats, runs, k, k);
    DoubleCounting(runs, k);
  }

  function AcceptedSum(stats: map<nat, Stat>, k: nat): nat
    requires forall p :: 1 <= p <= k ==> p in stats
  {
    if k == 0 then 0 else AcceptedSum(stats, k - 1) + stats[k].accepted
  }

  lemma {:induction false} AcceptedSumIsByPosition(stats: map<nat, Stat>, runs: seq<nat>, k: nat, p: nat)
    requires StatsOf(stats, runs, k) && p <= k
    ensures AcceptedSum(stats, p) == ByPosition(runs, p)
  {
    if p == 0 {
    } else {
      AcceptedSumIsByPosition(stats, runs, k, p - 1);
    }
  }

  /** The documented number of attempts: every verification round attempts every position. */
  function Verifications(rounds: seq<Round>): nat {
    if rounds == [] then 0 else Verifications(rounds[..|rounds| - 1]) + (if rounds[|rounds| - 1].Verify? then 1 else 0)
  }

  /** How many of them rejected their first draft. */
  function Rejections(rounds: seq<Round>): nat {
    if rounds == [] then 0
    else Rejections(rounds[..|rounds| - 1]) + (if rounds[|rounds| - 1] == Verify(0) then 1 else 0)
  }

  lemma {:induction false} VerificationsAre(rounds: seq<Round>)
    ensures Verifications(rounds) == |set i | 0 <= i < |rounds| && rounds[i].Verify?|
  {
    var all := set i | 0 <= i < |rounds| && rounds[i].Verify?;
    if rounds == [] {
      assert all == {};
    } else {
      var n := |rounds| - 1;
      VerificationsAre(rounds[..n]);
      var before := set i | 0 <= i < |rounds[..n]| && rounds[..n][i].Verify?;
      assert all == if rounds[n].Verify? then before + {n} else before;
    }
  }

  lemma {:induction false} RejectionsAre(rounds: seq<Round>)
    ensures Rejections(rounds) == |set i | 0 <= i < |rounds| && rounds[i] == Verify(0)|
  {
    var all := set i | 0 <= i < |rounds| && rounds[i] == Verify(0);
    if rounds == [] {
      assert all == {};
    } else {
      var n := |rounds| - 1;
      RejectionsAre(rounds[..n]);
      var before := set i | 0 <= i < |rounds[..n]| && rounds[..n][i] == Verify(0);
      assert all == if rounds[n] == Verify(0) then before + {n} else before;
    }
  }

  /** The parser misses exactly the verification rounds that rejected their first draft. */
  lemma {:induction false} MissedAttempts(rounds: seq<Round>)
    ensures Verifications(rounds) == AtLeast(AcceptCounts(rounds), 1) + Rejections(rounds)
  {
    if rounds == [] {
    } else {
      var init := rounds[..|rounds| - 1];
      MissedAttempts(init);
      assert AcceptCounts(rounds)[..|rounds| - 1] == AcceptCounts(init);
    }
  }

  /** No verification round rejected its first draft. */
  ghost predicate NeverRejectedAtOnce(rounds: seq<Round>) {
    forall i :: 0 <= i < |rounds| ==> rounds[i] != Verify(0)
  }

  lemma {:induction false} NoRejections(rounds: seq<Round>)
    ensures Rejections(rounds) == 0 <==> NeverRejectedAtOnce(rounds)
  {
    if rounds == [] {
    } else {
      var init := rounds[..|rounds| - 1];
      NoRejections(init);
      assert rounds == init + [rounds[|rounds| - 1]];
    }
  }

  /** The attempts are the documented ones, where a verification round that is cut off counts once it has yielded a
      draft, exactly when no verification round rejected its first draft. */
  lemma AttemptsAsDocumented(rounds: seq<Round>, open: nat, k: nat, p: nat, stats: map<nat, Stat>)
    requires 1 <= p <= k && StatsOf(stats, RunsOf(Stream(rounds, open)), k)
    ensures stats[p].attempts == Verifications(rounds) + (if open > 0 then 1 else 0) <==> NeverRejectedAtOnce(rounds)
  {
    hide Verifications, Rejections, NeverRejectedAtOnce, RunsOf, Stream, AtLeast, AcceptCounts;
    RunsOfStream(rounds, open);
    MissedAttempts(rounds);
    NoRejections(rounds);
    AtLeastSnoc(AcceptCounts(rounds), open, 1);
  }

  /** No parser could do better: two runs of different rounds yield the same stream. */
  lemma RejectionsLeaveNoTrace()
    ensures exists a, b :: Stream(a, 0) == Stream(b, 0) && Verifications(a) != Verifications(b)
  {
    var a, b := [Plain], [Verify(0)];
    assert Stream(a[..0], 0) == [] == Stream(b[..0], 0);
    assert Stream(a, 0) == [false] == Stream(b, 0);
    assert Verifications(a[..0]) == 0 == Verifications(b[..0]);
    assert Verifications(a) == 0 && Verifications(b) == 1;
  }

  /** Positions at which two streams agree. */
  function Matches(a: seq<int>, b: seq<int>): (n: nat)
    requires |a| == |b|
    ensures n <= |a|
  {
    if a == [] then 0
    else Matches(a[..|a| - 1], b[..|b| - 1]) + (if a[|a| - 1] == b[|b| - 1] then 1 else 0)
  }

  /** The positions are exactly those with equal tokens. */
  lemma {:induction false} MatchesAre(a: seq<int>, b: seq<int>)
    requires |a| == |b|
    ensures Matches(a, b) == |set i | 0 <= i < |a| && a[i] == b[i]|
  {
    var all := set i | 0 <= i < |a| && a[i] == b[i];
    if a == [] {
      assert all == {};
    } else {
      var n := |a| - 1;
      MatchesAre(a[..n], b[..n]);
      var before := set i | 0 <= i < |a[..n]| && a[..n][i] == b[..n][i];
      assert all == if a[n] == b[n] then before + {n} else before;
    }
  }

  /** The size of the multiset intersection of two streams. */
  function Overlap(a: seq<int>, b: seq<int>): nat {
    |multiset(a) * multiset(b)|
  }

  /** Agreeing positions are overlapping tokens. */
  lemma {:induction false} MatchesWithinOverlap(a: seq<int>, b: seq<int>)
    requires |a| == |b|
    ensures Matches(a, b) <= Overlap(a, b)
  {
    if a == [] {
    } else {
      var a', b', x, y := a[..|a| - 1], b[..|b| - 1], a[|a| - 1], b[|b| - 1];
      MatchesWithinOverlap(a', b');
      assert a == a' + [x] && b == b' + [y];
      assert multiset(a) == multiset(a') + multiset{x} && multiset(b) == multiset(b') + multiset{y};
      IntersectionGrows(multiset(a'), multiset(b'), x, y);
    }
  }

  lemma IntersectionGrows(s: multiset<int>, t: multiset<int>, x: int, y: int)
    ensures |(s + multiset{x}) * (t + multiset{y})| >= |s * t| + (if x == y then 1 else 0)
  {
    var large := (s + multiset{x}) * (t + multiset{y});
    var least := s * t + (if x == y then multiset{x} else multiset{});
    assert least <= large;
    assert large == least + (large - least);
  }

  /** The streams agree everywhere exactly when they are equal. */
  lemma {:induction false} AllMatch(a: seq<int>, b: seq<int>)
    requires |a| == |b|
    ensures Matches(a, b) == |a| <==> a == b
  {
    if a == [] {
    } else {
      AllMatch(a[..|a| - 1], b[..|b| - 1]);
      assert a == a[..|a| - 1] + [a[|a| - 1]] && b == b[..|b| - 1] + [b[|b| - 1]];
    }
  }

  /** They overlap entirely exactly when they are permutations of each other. */
  lemma OverlapIsPermutation(a: seq<int>, b: seq<int>)
    requires |a| == |b|
    ensures Overlap(a, b) <= |a|
    ensures Overlap(a, b) == |a| <==> multiset(a) == multiset(b)
  {
    var both := multiset(a) * multiset(b);
    assert multiset(a) == both + (multiset(a) - both);
    assert multiset(b) == both + (multiset(b) - both);
    if Overlap(a, b) == |a| {
      assert multiset(a) - both == multiset{} == multiset(b) - both;
    }
  }

  /** The overlap is the most positions that can match after rearranging one of the streams. */
  lemma {:induction false} OverlapIsAttained(a: seq<int>, b: seq<int>) returns (c: seq<int>)
    requires |a| == |b|
    ensures multiset(c) == multiset(b) && |c| == |a| && Matches(a, c) == Overlap(a, b)
    ensures forall d :: multiset(d) == multiset(b) && |d| == |a| ==> Matches(a, d) <= Overlap(a, b)
  {
    c := Rearranged(a, b);
    forall d | multiset(d) == multiset(b) && |d| == |a| ensures Matches(a, d) <= Overlap(a, b) {
      MatchesWithinOverlap(a, d);
    }
  }

  lemma {:induction false} Rearranged(a: seq<int>, b: seq<int>) returns (c: seq<int>)
    requires |a| == |b|
    ensures multiset(c) == multiset(b) && |c| == |a| && Matches(a, c) == Overlap(a, b)
    decreases |a|
  {
    if a == [] {
      c := [];
      assert b == [];
    } else {
      var a', x := a[..|a| - 1], a[|a| - 1];
      assert a == a' + [x];
      var z := LastFor(a', x, b);
      var i :| 0 <= i < |b| && b[i] == z;
      var rest := b[..i] + b[i + 1..];
      assert b == b[..i] + [z] + b[i + 1..];
      assert multiset(b) == multiset(rest) + multiset{z};
      var c' := Rearranged(a', rest);
      c := c' + [z];
      assert c[..|c| - 1] == c';
      OverlapWithLast(multiset(a'), multiset(rest), x, z);
    }
  }

  /** The token to put last: an equal one if there is one, and otherwise one that the rest can spare. */
  lemma LastFor(a: seq<int>, x: int, b: seq<int>) returns (z: int)
    requires |b| == |a| + 1
    ensures z in b
    ensures z == x || (x !in b && multiset(b)[z] > multiset(a)[z])
  {
    if x in b {
      z := x;
    } else {
      z := Spare(b, multiset(a));
    }
  }

  /** A stream that is longer than a multiset has more of some token. */
  lemma {:induction false} Spare(b: seq<int>, m: multiset<int>) returns (z: int)
    requires |b| > |m|
    ensures z in b && multiset(b)[z] > m[z]
    decreases |b|
  {
    var b', last := b[..|b| - 1], b[|b| - 1];
    assert b == b' + [last];
    if last in m {
      z := Spare(b', m - multiset{last});
    } else {
      z := last;
    }
  }

  lemma OverlapWithLast(s: multiset<int>, rest: multiset<int>, x: int, z: int)
    requires z == x || (x !in rest + multiset{z} && (rest + multiset{z})[z] > s[z])
    ensures |(s + multiset{x}) * (rest + multiset{z})| == |s * rest| + (if x == z then 1 else 0)
  {
    if x == z {
      assert (s + multiset{x}) * (rest + multiset{z}) == s * rest + multiset{x};
    } else {
      assert (s + multiset{x}) * (rest + multiset{z}) == s * rest;
    }
  }
}
