/** Greedy matching of parallel tool calls against expected ones (evals/run_eval.py). */
module ParallelCalls {
  import opened Wrappers
  import opened FuzzyArgs

  datatype Expected = Expected(tool: string, args: Args, mode: Mode)

  /** What the argument text of a call parses to: an object, or some other value that Python takes for true or not. */
  datatype Arguments = Object(args: Args) | NoObject(truthy: bool)

  /** An actual call; unparsable arguments read as an empty object. */
  datatype Actual = Actual(name: string, arguments: Arguments, validJson: bool)

  /** Whether scoring looks a key up in something that is no object, which ends the grading with an exception. */
  predicate Raises(exp: Expected, act: Actual) {
    act.arguments.NoObject? && exp.args != map[]
    && match exp.mode
       case Exact => false
       case Contains => true
       case Fuzzy => act.arguments.truthy
  }

  ghost function Score(exp: Expected, act: Actual, ops: TextOps): (r: real)
    ensures 0.0 <= r <= 1.0
  {
    match exp.mode
    case Exact => if act.arguments == Object(exp.args) then 1.0 else 0.0
    case Contains =>
      if exp.args == map[] || (act.arguments.Object? && ContainsAll(exp.args, act.arguments.args, ops)) then 1.0 else 0.0
    case Fuzzy => if act.arguments.Object? then FuzzyScore(exp.args, act.arguments.args, ops) else 0.0
  }

  method ScoreCall(exp: Expected, act: Actual, ops: TextOps) returns (score: Option<real>)
    ensures score.None? <==> Raises(exp, act)
    ensures score.Some? ==> score.value == Score(exp, act, ops)
  {
    match exp.mode
    case Exact =>
      score := Some(if act.arguments == Object(exp.args) then 1.0 else 0.0);
    case Contains =>
      if exp.args == map[] {
        return Some(1.0);
      }
      if act.arguments.NoObject? {
        return None;
      }
      score := Some(if ContainsAll(exp.args, act.arguments.args, ops) then 1.0 else 0.0);
    case Fuzzy =>
      if act.arguments.NoObject? {
        return if exp.args == map[] || !act.arguments.truthy then Some(0.0) else None;
      }
      var fuzzy := FuzzyMatchArgs(exp.args, act.arguments.args, ops);
      score := Some(fuzzy);
  }

  /** What is scored: exact arguments and containment all or nothing, anything else by the fuzzy score.  Arguments that
      are no object are never exact, contain nothing that is expected, and have no fuzzy score. */
  lemma ScoreIs(exp: Expected, act: Actual, ops: TextOps)
    ensures exp.mode == Exact ==> Score(exp, act, ops) == if act.arguments == Object(exp.args) then 1.0 else 0.0
    ensures act.arguments.Object? && exp.mode == Contains ==>
              Score(exp, act, ops) == if ContainsAll(exp.args, act.arguments.args, ops) then 1.0 else 0.0
    ensures act.arguments.Object? && exp.mode == Fuzzy ==>
              Score(exp, act, ops) == FuzzyScore(exp.args, act.arguments.args, ops)
    ensures act.arguments.NoObject? ==>
              && (Raises(exp, act) <==>
                    exp.args != map[] && (exp.mode == Contains || (exp.mode == Fuzzy && act.arguments.truthy)))
              && (exp.mode == Fuzzy ==> Score(exp, act, ops) == 0.0)
              && (exp.mode == Contains && exp.args == map[] ==> Score(exp, act, ops) == 1.0)
    ensures act.arguments.Object? ==> !Raises(exp, act)
  {
    hide FuzzyScore;
  }

  /** For every expected call the index of the actual call it was matched with. */
  type Picks = seq<Option<nat>>

  function UsedBy(picks: Picks): set<nat> {
    set i | 0 <= i < |picks| && picks[i].Some? :: picks[i].value
  }

  /** An unused actual call of the right name. */
  predicate Candidate(exp: Expected, actual: seq<Actual>, used: set<nat>, j: nat) {
    j < |actual| && j !in used && actual[j].name == exp.tool
  }

  /** The first of the best-scoring candidates among the first `n` calls. */
  ghost predicate BestAmong(exp: Expected, actual: seq<Actual>, used: set<nat>, ops: TextOps, n: nat, j: nat) {
    && j < n && Candidate(exp, actual, used, j)
    && forall k: nat :: k < n && Candidate(exp, actual, used, k) ==>
         Score(exp, actual[k], ops) < Score(exp, actual[j], ops)
         || (Score(exp, actual[k], ops) == Score(exp, actual[j], ops) && j <= k)
  }

  /** The choice for one expected call: its best candidate if that scores at least one half, and nothing otherwise. */
  ghost predicate Chosen(exp: Expected, actual: seq<Actual>, used: set<nat>, ops: TextOps, pick: Option<nat>) {
    match pick
    case Some(j) => BestAmong(exp, actual, used, ops, |actual|, j) && Score(exp, actual[j], ops) >= 0.5
    case None => forall k: nat :: Candidate(exp, actual, used, k) ==> Score(exp, actual[k], ops) < 0.5
  }

  /** A call is chosen if and only if it is an unused one of the right name that scores at least one half, more than
      every such call before it and no less than every one behind; none is if and only if all score less. */
  lemma ChosenExactly(exp: Expected, actual: seq<Actual>, used: set<nat>, ops: TextOps, j: nat)
    ensures Chosen(exp, actual, used, ops, Some(j))
       <==> && j < |actual| && j !in used && actual[j].name == exp.tool && Score(exp, actual[j], ops) >= 0.5
            && (forall k: nat :: k < j && k !in used && actual[k].name == exp.tool ==>
                  Score(exp, actual[k], ops) < Score(exp, actual[j], ops))
            && (forall k: nat :: j < k < |actual| && k !in used && actual[k].name == exp.tool ==>
                  Score(exp, actual[k], ops) <= Score(exp, actual[j], ops))
    ensures Chosen(exp, actual, used, ops, None)
       <==> forall k: nat :: k < |actual| && k !in used && actual[k].name == exp.tool ==> Score(exp, actual[k], ops) < 0.5
  {
    hide Score;
    if Chosen(exp, actual, used, ops, Some(j)) {
      assert forall k: nat :: k < |actual| && k !in used && actual[k].name == exp.tool ==> Candidate(exp, actual, used, k);
    }
    if Chosen(exp, actual, used, ops, None) {
      assert forall k: nat :: k < |actual| && k !in used && actual[k].name == exp.tool ==> Candidate(exp, actual, used, k);
    }
  }

  /** The greedy matching: every expected call in turn chooses among what the ones before it left. */
  ghost predicate Greedy(expected: seq<Expected>, actual: seq<Actual>, ops: TextOps, picks: Picks) {
    && |picks| == |expected|
    && forall i :: 0 <= i < |expected| ==> Chosen(expected[i], actual, UsedBy(picks[..i]), ops, picks[i])
  }

  function Matched(picks: Picks): (n: nat)
    ensures n <= |picks|
  {
    if picks == [] then 0 else Matched(picks[..|picks| - 1]) + (if picks[|picks| - 1].Some? then 1 else 0)
  }

  datatype Grade = Grade(toolDetected: bool, correctName: bool, validJsonArgs: bool, argScore: real, matched: nat)

  /** Whether some candidate cannot be scored. */
  ghost predicate RaisesFor(exp: Expected, actual: seq<Actual>, used: set<nat>) {
    exists k: nat :: Candidate(exp, actual, used, k) && Raises(exp, actual[k])
  }

  /** The inner loop: the best candidate for one expected call. */
  method FindBest(exp: Expected, actual: seq<Actual>, used: set<nat>, ops: TextOps)
    returns (raised: bool, pick: Option<nat>)
    ensures raised <==> RaisesFor(exp, actual, used)
    ensures !raised ==> Chosen(exp, actual, used, ops, pick)
  {
    hide Score, FuzzyScore, Raises;
    var bestScore: real := -1.0;
    var bestIdx := -1;
    for i := 0 to |actual|
      invariant forall k: nat :: k < i && Candidate(exp, actual, used, k) ==> !Raises(exp, actual[k])
      invariant bestIdx < 0 ==> bestScore == -1.0 && forall k: nat :: k < i ==> !Candidate(exp, actual, used, k)
      invariant bestIdx >= 0 ==> BestAmong(exp, actual, used, ops, i, bestIdx) && bestScore == Score(exp, actual[bestIdx], ops)
    {
      if i in used || actual[i].name != exp.tool {
        continue;
      }
      var score := ScoreCall(exp, actual[i], ops);
      if score.None? {
        assert Candidate(exp, actual, used, i);
        return true, None;
      }
      if score.value > bestScore {
        bestScore := score.value;
        bestIdx := i;
      }
    }
    raised, pick := false, if bestIdx >= 0 && bestScore >= 0.5 then Some(bestIdx) else None;
  }

  /** The first `n` greedy choices can be made without an exception. */
  ghost predicate Quiet(expected: seq<Expected>, actual: seq<Actual>, picks: Picks, n: nat)
    requires n <= |expected| && n <= |picks|
  {
    forall i :: 0 <= i < n ==> !RaisesFor(expected[i], actual, UsedBy(picks[..i]))
  }

  lemma GreedySnoc(expected: seq<Expected>, actual: seq<Actual>, ops: TextOps, picks: Picks, pick: Option<nat>)
    requires |picks| < |expected| && Greedy(expected[..|picks|], actual, ops, picks)
    requires Quiet(expected, actual, picks, |picks|) && !RaisesFor(expected[|picks|], actual, UsedBy(picks))
    requires Chosen(expected[|picks|], actual, UsedBy(picks), ops, pick)
    ensures Greedy(expected[..|picks| + 1], actual, ops, picks + [pick])
    ensures Quiet(expected, actual, picks + [pick], |picks| + 1)
  {
    hide Chosen, RaisesFor, UsedBy;
    var n, longer := |picks|, picks + [pick];
    assert longer[..n] == picks;
    forall i | 0 <= i <= n
      ensures Chosen(expected[..n + 1][i], actual, UsedBy(longer[..i]), ops, longer[i])
      ensures !RaisesFor(expected[i], actual, UsedBy(longer[..i]))
    {
      if i < n {
        assert longer[..i] == picks[..i];
        assert Chosen(expected[..n][i], actual, UsedBy(picks[..i]), ops, picks[i]);
      }
    }
  }

  lemma NothingChosen(expected: seq<Expected>, actual: seq<Actual>, ops: TextOps)
    ensures Greedy(expected[..0], actual, ops, []) && Quiet(expected, actual, [], 0)
    ensures UsedBy([]) == {} && Matched([]) == 0
  {
  }

  /** The matching loop and the grade.  The grading ends in an exception if and only if some expected call has a
      candidate that cannot be scored, given the choices before it. */
  method CheckParallelCalls(expected: seq<Expected>, actual: seq<Actual>, ops: TextOps, roundToTwo: real -> real)
    returns (raised: bool, grade: Grade, picks: Picks)
    ensures expected == [] ==> !raised && grade == Grade(false, false, false, 0.0, 0)
    ensures |picks| <= |expected| && Greedy(expected[..|picks|], actual, ops, picks)
    ensures Quiet(expected, actual, picks, |picks|)
    ensures raised <==> |picks| < |expected|
    ensures raised ==> RaisesFor(expected[|picks|], actual, UsedBy(picks))
    ensures !raised ==> Greedy(expected, actual, ops, picks) && grade.matched == Matched(picks)
    ensures !raised && expected != [] ==>
              && grade.argScore == roundToTwo(grade.matched as real / |expected| as real)
              && (grade.correctName <==> forall i :: 0 <= i < |picks| ==> picks[i].Some?)
              && grade.toolDetected == (actual != [])
              && (grade.validJsonArgs <==> actual != [] && forall j :: 0 <= j < |actual| ==> actual[j].validJson)
  {
    hide *;
    raised, grade, picks := false, Grade(false, false, false, 0.0, 0), [];
    NothingChosen(expected, actual, ops);
    if expected == [] {
      assert expected[..0] == expected;
      return;
    }
    var matched, used: set<nat> := 0, {};
    for i := 0 to |expected|
      invariant |picks| == i && used == UsedBy(picks) && matched == Matched(picks)
      invariant Greedy(expected[..i], actual, ops, picks) && Quiet(expected, actual, picks, i)
      invariant matched <= i && (matched == i <==> forall k :: 0 <= k < i ==> picks[k].Some?)
    {
      var pick;
      raised, pick := FindBest(expected[i], actual, used, ops);
      if raised {
        return;
      }
      GreedySnoc(expected, actual, ops, picks, pick);
      UsedSnoc(picks, pick);
      MatchedSnoc(picks, pick);
      if pick.Some? {
        matched := matched + 1;
        used := used + {pick.value};
      }
      ghost var before := picks;
      picks := picks + [pick];
      assert picks[i] == pick && forall k :: 0 <= k < i ==> picks[k] == before[k];
    }
    var total := |expected|;
    assert expected[..total] == expected;
    grade := Grade(|actual| > 0, matched == total,
                   actual != [] && forall j :: 0 <= j < |actual| ==> actual[j].validJson,
                   roundToTwo(matched as real / total as real), matched);
  }

  lemma MatchedSnoc(picks: Picks, pick: Option<nat>)
    ensures Matched(picks + [pick]) == Matched(picks) + (if pick.Some? then 1 else 0)
  {
    assert (picks + [pick])[..|picks|] == picks;
  }

  lemma UsedSnoc(picks: Picks, pick: Option<nat>)
    ensures UsedBy(picks + [pick]) == UsedBy(picks) + (if pick.Some? then {pick.value} else {})
  {
    var all := picks + [pick];
    forall j | j in UsedBy(picks) ensures j in UsedBy(all) {
      var i :| 0 <= i < |picks| && picks[i].Some? && picks[i].value == j;
      assert all[i] == picks[i];
    }
    if pick.Some? {
      assert all[|picks|] == pick;
    }
  }

  /** A matching: distinct actual calls of the right names, each scoring at least one half. */
  ghost predicate ValidMatching(expected: seq<Expected>, actual: seq<Actual>, ops: TextOps, m: map<nat, nat>) {
    && (forall i :: i in m ==> i < |expected| && m[i] < |actual| && actual[m[i]].name == expected[i].tool
                               && Score(expected[i], actual[m[i]], ops) >= 0.5)
    && (forall i, k :: i in m && k in m && m[i] == m[k] ==> i == k)
  }

  function AsMap(picks: Picks): map<nat, nat> {
    map i | 0 <= i < |picks| && picks[i].Some? :: picks[i].value
  }

  /** The greedy choices are a matching. */
  lemma GreedyIsValid(expected: seq<Expected>, actual: seq<Actual>, ops: TextOps, picks: Picks)
    requires Greedy(expected, actual, ops, picks)
    ensures ValidMatching(expected, actual, ops, AsMap(picks))
    ensures |AsMap(picks)| == Matched(picks)
  {
    hide Score;
    forall i, k | 0 <= i < k < |picks| && picks[i].Some? && picks[k].Some?
      ensures picks[i].value != picks[k].value
    {
      assert picks[..k][i] == picks[i];
      assert picks[i].value in UsedBy(picks[..k]);
      assert Chosen(expected[k], actual, UsedBy(picks[..k]), ops, picks[k]);
    }
    forall i | i in AsMap(picks)
      ensures i < |expected| && AsMap(picks)[i] < |actual| && actual[AsMap(picks)[i]].name == expected[i].tool
      ensures Score(expected[i], actual[AsMap(picks)[i]], ops) >= 0.5
    {
      assert Chosen(expected[i], actual, UsedBy(picks[..i]), ops, picks[i]);
    }
    MatchedIsSize(picks);
  }

  lemma {:induction false} MatchedIsSize(picks: Picks)
    ensures |AsMap(picks)| == Matched(picks)
  {
    if picks == [] {
      assert AsMap(picks) == map[];
    } else {
      var init, last := picks[..|picks| - 1], picks[|picks| - 1];
      MatchedIsSize(init);
      if last.Some? {
        assert AsMap(picks) == AsMap(init)[|init| := last.value];
      } else {
        assert AsMap(picks) == AsMap(init);
      }
    }
  }

  /** The matching is maximal: of any admissible pair, one side is matched. */
  lemma GreedyIsMaximal(expected: seq<Expected>, actual: seq<Actual>, ops: TextOps, picks: Picks, i: nat, j: nat)
    requires Greedy(expected, actual, ops, picks)
    requires i < |expected| && j < |actual| && actual[j].name == expected[i].tool
    requires Score(expected[i], actual[j], ops) >= 0.5
    ensures picks[i].Some? || j in UsedBy(picks)
  {
  }

  lemma {:induction false} InjectiveImage(m: map<nat, nat>, keys: set<nat>, image: set<nat>)
    requires keys <= m.Keys
    requires forall i, k :: i in m && k in m && m[i] == m[k] ==> i == k
    requires forall i :: i in keys ==> m[i] in image
    ensures |keys| <= |image|
    decreases |keys|
  {
    if keys == {} {
    } else {
      var i :| i in keys;
      InjectiveImage(m, keys - {i}, image - {m[i]});
    }
  }

  /** The greedy matching is at least half as large as any other. */
  lemma GreedyIsHalfOptimal(expected: seq<Expected>, actual: seq<Actual>, ops: TextOps, picks: Picks, m: map<nat, nat>)
    requires Greedy(expected, actual, ops, picks) && ValidMatching(expected, actual, ops, m)
    ensures |m| <= 2 * Matched(picks)
  {
    hide Score, Chosen, Greedy;
    var byExpected := m.Keys * AsMap(picks).Keys;
    var byActual := m.Keys - AsMap(picks).Keys;
    forall i | i in byActual ensures m[i] in UsedBy(picks) {
      GreedyAt(expected, actual, ops, picks);
      GreedyIsMaximal(expected, actual, ops, picks, i, m[i]);
    }
    InjectiveImage(m, byActual, UsedBy(picks));
    UsedSize(picks);
    MatchedIsSize(picks);
    SubsetSize(byExpected, AsMap(picks).Keys);
    assert m.Keys == byExpected + byActual;
    assert |m| == |m.Keys| && |AsMap(picks)| == |AsMap(picks).Keys|;
  }

  lemma {:induction false} UsedSize(picks: Picks)
    ensures |UsedBy(picks)| <= Matched(picks)
  {
    if picks == [] {
    } else {
      var init, last := picks[..|picks| - 1], picks[|picks| - 1];
      UsedSize(init);
      UsedSnoc(init, last);
      assert picks == init + [last];
    }
  }

  /** The greedy choices are determined by the inputs. */
  lemma {:induction false} GreedyUnique(expected: seq<Expected>, actual: seq<Actual>, ops: TextOps, p: Picks, q: Picks, n: nat)
    requires Greedy(expected, actual, ops, p) && Greedy(expected, actual, ops, q) && n <= |expected|
    ensures p[..n] == q[..n]
  {
    hide *;
    GreedyAt(expected, actual, ops, p);
    GreedyAt(expected, actual, ops, q);
    if n == 0 {
    } else {
      var i := n - 1;
      GreedyUnique(expected, actual, ops, p, q, i);
      ChosenUnique(expected[i], actual, UsedBy(p[..i]), ops, p[i], q[i]);
      assert p[..n] == p[..i] + [p[i]] && q[..n] == q[..i] + [q[i]];
    }
  }

  lemma ChosenUnique(exp: Expected, actual: seq<Actual>, used: set<nat>, ops: TextOps, p: Option<nat>, q: Option<nat>)
    requires Chosen(exp, actual, used, ops, p) && Chosen(exp, actual, used, ops, q)
    ensures p == q
  {
    hide Score;
  }

  lemma GreedyAt(expected: seq<Expected>, actual: seq<Actual>, ops: TextOps, picks: Picks)
    requires Greedy(expected, actual, ops, picks)
    ensures |picks| == |expected|
    ensures forall i :: 0 <= i < |expected| ==> Chosen(expected[i], actual, UsedBy(picks[..i]), ops, picks[i])
  {
  }

  /** One half is the best that can be said: two calls that could both be matched, of which the greedy choice matches
      one. */
  lemma GreedyCanMissHalf()
    returns (expected: seq<Expected>, actual: seq<Actual>, ops: TextOps, picks: Picks, m: map<nat, nat>)
    ensures Greedy(expected, actual, ops, picks) && ValidMatching(expected, actual, ops, m)
    ensures |m| == 2 && Matched(picks) == 1
  {
    ops := TextOps(s => s, s => {}, v => "");
    var some: Args := map["k" := Other(1)];
    var anything, particular := Expected("f", map[], Contains), Expected("f", some, Exact);
    expected, actual := [anything, particular], [Actual("f", Object(some), true), Actual("f", Object(map[]), true)];
    picks, m := [Some(0), None], map[0 := 1, 1 := 0];
    assert "k" in some;
    assert Score(anything, actual[0], ops) == 1.0 && Score(anything, actual[1], ops) == 1.0;
    assert Score(particular, actual[0], ops) == 1.0 && Score(particular, actual[1], ops) == 0.0;
    hide Score;
    UsedSnoc([], Some(0));
    assert UsedBy([]) == {} && [] + [Some(0)] == picks[..1] && picks[..0] == [];
    assert Candidate(anything, actual, {}, 0);
    assert Chosen(anything, actual, UsedBy(picks[..0]), ops, picks[0]);
    assert Chosen(particular, actual, UsedBy(picks[..1]), ops, picks[1]);
    assert Matched(picks[..1]) == 1;
  }
}
