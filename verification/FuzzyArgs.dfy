/** Scoring the arguments of a tool call against expected ones (evals/run_eval.py). */
module FuzzyArgs {
  import opened Wrappers

  /** An argument value: text, or anything else. */
  datatype Value = Text(s: string) | Other(id: int)
  type Args = map<string, Value>

  /** What the scoring uses of Python's strings: lower-casing, the set of words, and `str`. */
  datatype TextOps = TextOps(lower: string -> string, words: string -> set<string>, str: Value -> string)

  datatype Mode = Exact | Contains | Fuzzy

  /** The value of a key, or the empty text. */
  function ValueAt(args: Args, key: string): Value {
    if key in args then args[key] else Text("")
  }

  /** The share of the words of the first set that are in the second; nothing if either is empty. */
  function Overlap(exp: set<string>, act: set<string>): (r: real)
    ensures 0.0 <= r <= 1.0
  {
    if exp == {} || act == {} then 0.0
    else
      SubsetSize(exp * act, exp);
      Share(|exp * act|, |exp|)
  }

  function Share(part: nat, whole: nat): (r: real)
    requires part <= whole && whole > 0
    ensures 0.0 <= r <= 1.0
  {
    part as real / whole as real
  }

  /** The credit for one expected argument. */
  function Credit(exp: Value, act: Value, ops: TextOps): (r: real)
    ensures 0.0 <= r <= 1.0
  {
    if exp.Text? && act.Text? then
      var e, a := ops.lower(exp.s), ops.lower(act.s);
      if IsPart(e, a) || IsPart(a, e) then 1.0 else Overlap(ops.words(e), ops.words(a))
    else if exp == act then 1.0 else 0.0
  }

  /** Two texts of which one, in lower case, is part of the other earn full credit; otherwise the credit is the share of
      the expected words that occur in the other text, nothing if either has no words.  Anything else earns full credit
      when equal and none otherwise. */
  lemma CreditIs(exp: Value, act: Value, ops: TextOps)
    ensures exp.Text? && act.Text? ==>
      var e, a := ops.lower(exp.s), ops.lower(act.s);
      var expWords, actWords := ops.words(e), ops.words(a);
      && ((exists b, c :: a == b + e + c) || (exists b, c :: e == b + a + c) ==> Credit(exp, act, ops) == 1.0)
      && (!(exists b, c :: a == b + e + c) && !(exists b, c :: e == b + a + c) ==>
            && Credit(exp, act, ops) * |expWords| as real == |expWords * actWords| as real
            && (expWords == {} ==> Credit(exp, act, ops) == 0.0))
    ensures !(exp.Text? && act.Text?) ==> Credit(exp, act, ops) == if exp == act then 1.0 else 0.0
  {
    if exp.Text? && act.Text? {
      var e, a := ops.lower(exp.s), ops.lower(act.s);
      PartIs(e, a);
      PartIs(a, e);
      hide IsPart, Overlap;
      OverlapIs(ops.words(e), ops.words(a));
    }
  }

  lemma OverlapIs(exp: set<string>, act: set<string>)
    ensures Overlap(exp, act) * |exp| as real == |exp * act| as real
    ensures exp == {} ==> Overlap(exp, act) == 0.0
  {
    if exp == {} || act == {} {
      assert exp * act == {};
    } else {
      SubsetSize(exp * act, exp);
      var part, whole := |exp * act| as real, |exp| as real;
      assert part / whole * whole == part;
    }
  }

  /** The credit of every expected argument. */
  function CreditMap(expected: Args, actual: Args, ops: TextOps): (credits: map<string, real>)
    ensures credits.Keys == expected.Keys
    ensures forall k :: k in credits ==> 0.0 <= credits[k] <= 1.0
  {
    map k | k in expected :: Credit(expected[k], ValueAt(actual, k), ops)
  }

  /** An argument that is there is credited against its own value. */
  lemma PresentCredit(expected: Args, actual: Args, ops: TextOps, k: string)
    requires k in expected && k in actual
    ensures CreditMap(expected, actual, ops)[k] == Credit(expected[k], actual[k], ops)
  {
    hide Credit;
  }

  function CreditIn(credits: map<string, real>): string -> real {
    k => if k in credits then credits[k] else 0.0
  }

  const PLUS: (real, real) -> real := (a, b) => a + b

  ghost function Total(credits: map<string, real>, keys: set<string>): real
    requires keys <= credits.Keys
  {
    Fold(keys, CreditIn(credits), PLUS, 0.0)
  }

  /** The order in which credits are added up does not matter. */
  lemma TotalRemove(credits: map<string, real>, keys: set<string>, k: string)
    requires keys <= credits.Keys && k in keys
    ensures Total(credits, keys) == credits[k] + Total(credits, keys - {k})
  {
    FoldRemove(keys, CreditIn(credits), PLUS, 0.0, k);
  }

  lemma {:induction false} TotalBounds(credits: map<string, real>, keys: set<string>)
    requires keys <= credits.Keys
    requires forall k :: k in credits ==> 0.0 <= credits[k] <= 1.0
    ensures 0.0 <= Total(credits, keys) <= |keys| as real
    decreases |keys|
  {
    if keys == {} {
    } else {
      var k :| k in keys;
      TotalRemove(credits, keys, k);
      TotalBounds(credits, keys - {k});
    }
  }

  /** The fuzzy score: the average credit, and nothing when either side has no arguments. */
  ghost function FuzzyScore(expected: Args, actual: Args, ops: TextOps): (r: real)
    ensures 0.0 <= r <= 1.0
  {
    if expected == map[] || actual == map[] then 0.0
    else
      hide CreditMap;
      var n, credits := |expected.Keys|, CreditMap(expected, actual, ops);
      TotalBounds(credits, expected.Keys);
      NonEmptyKeys(expected);
      Average(Total(credits, expected.Keys), n);
      Total(credits, expected.Keys) / n as real
  }

  lemma NonEmptyKeys(args: Args)
    requires args != map[]
    ensures |args.Keys| > 0
  {
  }

  lemma Average(total: real, n: nat)
    requires n > 0 && 0.0 <= total <= n as real
    ensures 0.0 <= total / n as real <= 1.0
  {
  }

  /** The scoring loop. */
  method FuzzyMatchArgs(expected: Args, actual: Args, ops: TextOps) returns (score: real)
    ensures score == FuzzyScore(expected, actual, ops)
    ensures 0.0 <= score <= 1.0
  {
    if expected == map[] || actual == map[] {
      return 0.0;
    }
    NonEmptyKeys(expected);
    var total := |expected.Keys|;
    var matches := SumCredits(expected, actual, ops);
    score := matches / total as real;
    assert score == FuzzyScore(expected, actual, ops);
  }

  /** Adds up the credits of all expected arguments. */
  method SumCredits(expected: Args, actual: Args, ops: TextOps) returns (matches: real)
    ensures matches == Total(CreditMap(expected, actual, ops), expected.Keys)
  {
    hide Credit;
    ghost var credits := CreditMap(expected, actual, ops);
    matches := 0.0;
    var todo := expected.Keys;
    ghost var done: set<string> := {};
    while todo != {}
      invariant todo !! done && todo + done == expected.Keys
      invariant matches == Total(credits, done)
      decreases todo
    {
      var key :| key in todo;
      todo := todo - {key};
      var credit := CreditOf(expected[key], ValueAt(actual, key), ops);
      TotalRemove(credits, done + {key}, key);
      assert done + {key} - {key} == done;
      done := done + {key};
      matches := matches + credit;
    }
    assert done == expected.Keys;
  }

  /** The body of the loop. */
  method CreditOf(exp: Value, act: Value, ops: TextOps) returns (credit: real)
    ensures credit == Credit(exp, act, ops)
  {
    credit := 0.0;
    if exp.Text? && act.Text? {
      var e, a := ops.lower(exp.s), ops.lower(act.s);
      if IsPart(e, a) || IsPart(a, e) {
        credit := credit + 1.0;
      } else {
        var expWords, actWords := ops.words(e), ops.words(a);
        if expWords != {} && actWords != {} {
          SubsetSize(expWords * actWords, expWords);
          credit := credit + Share(|expWords * actWords|, |expWords|);
        }
      }
    } else if exp == act {
      credit := credit + 1.0;
    }
  }

  /** A missing argument reads as the empty text.  That earns full credit for an expected text and none for anything
      else. */
  lemma MissingCredit(exp: Value, ops: TextOps)
    requires ops.lower("") == ""
    ensures Credit(exp, Text(""), ops) == if exp.Text? then 1.0 else 0.0
  {
    if exp.Text? {
      var e := ops.lower(exp.s);
      assert "" <= e[0..];
      assert IsPart("", e);
    }
  }

  /** The expected arguments that the call does not have, and those of them that are texts. */
  function MissingKeys(expected: Args, actual: Args): set<string> {
    expected.Keys - actual.Keys
  }

  function MissingTexts(expected: Args, actual: Args): set<string> {
    set k | k in MissingKeys(expected, actual) && expected[k].Text?
  }

  lemma MissingKey(expected: Args, actual: Args, ops: TextOps, k: string)
    requires ops.lower("") == "" && k in MissingKeys(expected, actual)
    ensures k in expected && CreditMap(expected, actual, ops)[k] == if expected[k].Text? then 1.0 else 0.0
    ensures k in MissingTexts(expected, actual) <==> expected[k].Text?
  {
    MissingCredit(expected[k], ops);
  }

  /** Missing arguments together earn one credit per expected text among them. */
  lemma {:induction false} MissingTotal(expected: Args, actual: Args, ops: TextOps, missing: set<string>)
    requires ops.lower("") == "" && missing <= MissingKeys(expected, actual)
    ensures var credits := CreditMap(expected, actual, ops);
      Total(credits, expected.Keys)
      == Total(credits, expected.Keys - missing) + |missing * MissingTexts(expected, actual)| as real
    decreases |missing|
  {
    hide *;
    if missing == {} {
      assert missing * MissingTexts(expected, actual) == {};
      assert expected.Keys - missing == expected.Keys;
    } else {
      var k :| k in missing;
      var texts := MissingTexts(expected, actual);
      MissingKey(expected, actual, ops, k);
      MissingTotal(expected, actual, ops, missing - {k});
      TotalRemove(CreditMap(expected, actual, ops), expected.Keys - (missing - {k}), k);
      assert expected.Keys - (missing - {k}) - {k} == expected.Keys - missing;
      if k in texts {
        assert missing * texts == (missing - {k}) * texts + {k};
      } else {
        assert missing * texts == (missing - {k}) * texts;
      }
    }
  }

  /** The score: the credits of the arguments that are there, and one for every missing text, on average. */
  lemma ScoreWithMissing(expected: Args, actual: Args, ops: TextOps)
    requires ops.lower("") == "" && expected != map[] && actual != map[]
    ensures FuzzyScore(expected, actual, ops) * |expected.Keys| as real
         == Total(CreditMap(expected, actual, ops), expected.Keys * actual.Keys)
            + |MissingTexts(expected, actual)| as real
  {
    hide Total, CreditMap;
    var missing, texts := MissingKeys(expected, actual), MissingTexts(expected, actual);
    MissingTotal(expected, actual, ops, missing);
    assert expected.Keys - missing == expected.Keys * actual.Keys;
    assert missing * texts == texts;
    NonEmptyKeys(expected);
    Unaveraged(Total(CreditMap(expected, actual, ops), expected.Keys), |expected.Keys|);
  }

  lemma Unaveraged(total: real, n: nat)
    requires n > 0
    ensures total / n as real * n as real == total
  {
  }

  ghost predicate NoTextMissing(expected: Args, actual: Args) {
    forall k :: k in expected && k !in actual ==> !expected[k].Text?
  }

  lemma NoTextMissingIsEmpty(expected: Args, actual: Args)
    ensures NoTextMissing(expected, actual) <==> |MissingTexts(expected, actual)| == 0
  {
    var texts := MissingTexts(expected, actual);
    assert |texts| == 0 <==> texts == {};
    if k :| k in texts {
      assert k in expected && k !in actual && expected[k].Text?;
    } else {
      forall k | k in expected && k !in actual ensures !expected[k].Text? {
        assert k !in texts;
      }
    }
  }

  /** Missing arguments earn nothing if and only if there are no arguments at all or no expected text is missing. */
  lemma MissingArgumentsEarnNothing(expected: Args, actual: Args, ops: TextOps)
    requires ops.lower("") == ""
    ensures FuzzyScore(expected, actual, ops) * |expected.Keys| as real
         == Total(CreditMap(expected, actual, ops), expected.Keys * actual.Keys)
       <==> actual == map[] || NoTextMissing(expected, actual)
  {
    hide *;
    NoTextMissingIsEmpty(expected, actual);
    if expected == map[] || actual == map[] {
      NothingScored(expected, actual, ops);
    } else {
      ScoreWithMissing(expected, actual, ops);
    }
  }

  lemma NothingScored(expected: Args, actual: Args, ops: TextOps)
    requires expected == map[] || actual == map[]
    ensures FuzzyScore(expected, actual, ops) * |expected.Keys| as real
         == Total(CreditMap(expected, actual, ops), expected.Keys * actual.Keys)
    ensures actual == map[] || NoTextMissing(expected, actual)
  {
    hide *;
    NoArguments(expected, actual, ops);
    NothingTotal(CreditMap(expected, actual, ops));
    NothingTimes(FuzzyScore(expected, actual, ops), |expected.Keys|);
  }

  lemma NoArguments(expected: Args, actual: Args, ops: TextOps)
    requires expected == map[] || actual == map[]
    ensures FuzzyScore(expected, actual, ops) == 0.0
    ensures expected.Keys * actual.Keys == {}
    ensures actual == map[] || NoTextMissing(expected, actual)
  {
  }

  lemma NothingTimes(score: real, n: nat)
    requires score == 0.0
    ensures score * n as real == 0.0
  {
  }

  /** Any non-empty arguments that miss all expected texts score one. */
  lemma MissingTextScoresFull(expected: Args, actual: Args, ops: TextOps)
    requires expected != map[] && actual != map[]
    requires forall k :: k in expected ==> expected[k].Text? && k !in actual
    requires ops.lower("") == ""
    ensures FuzzyScore(expected, actual, ops) == 1.0
  {
    hide FuzzyScore, Total, CreditMap;
    ScoreWithMissing(expected, actual, ops);
    assert MissingTexts(expected, actual) == expected.Keys;
    assert expected.Keys * actual.Keys == {};
    NothingTotal(CreditMap(expected, actual, ops));
    NonEmptyKeys(expected);
    OnlyOne(FuzzyScore(expected, actual, ops), |expected.Keys|);
  }

  lemma OnlyOne(score: real, n: nat)
    requires n > 0 && score * n as real == n as real
    ensures score == 1.0
  {
    assert score == score * n as real / n as real;
  }

  /** An input on which nothing is right: a call without the one expected argument scores one. */
  lemma NothingRightScoresFull(ops: TextOps) returns (expected: Args, actual: Args)
    requires ops.lower("") == ""
    ensures expected.Keys !! actual.Keys && FuzzyScore(expected, actual, ops) == 1.0
  {
    hide FuzzyScore;
    var city, limit := "city", "limit";
    assert |city| != |limit|;
    expected, actual := map[city := Text("Paris")], map[limit := Other(1)];
    assert city in expected && limit in actual;
    MissingTextScoresFull(expected, actual, ops);
  }

  lemma NothingTotal(credits: map<string, real>)
    ensures Total(credits, {}) == 0.0
  {
  }

  /** Whether the text of every expected value is part of the text of the actual one. */
  predicate ContainsAll(expected: Args, actual: Args, ops: TextOps) {
    forall k :: k in expected ==> IsPart(ops.str(expected[k]), ops.str(ValueAt(actual, k)))
  }

  /** The expected texts are looked for in the actual ones, a missing argument reading as the empty text. */
  lemma ContainsAllIs(expected: Args, actual: Args, ops: TextOps)
    ensures ContainsAll(expected, actual, ops)
       <==> forall k :: k in expected ==>
              exists b, c :: ops.str(if k in actual then actual[k] else Text("")) == b + ops.str(expected[k]) + c
  {
    hide IsPart;
    forall k | k in expected
      ensures IsPart(ops.str(expected[k]), ops.str(ValueAt(actual, k)))
         <==> exists b, c :: ops.str(ValueAt(actual, k)) == b + ops.str(expected[k]) + c
    {
      PartIs(ops.str(expected[k]), ops.str(ValueAt(actual, k)));
    }
  }
}
