/** Greedy decoding with and without speculative drafts (scripts/bench_suffix_decoding.py).
    The speculative decoder overshoots its cache, accepts a prefix of the draft and rolls the cache back. */
module SuffixDecoding {
  import opened GreedyModel

  /** Whether a cache with the given contents can be rolled back. */
  type Rollback = seq<Token> -> bool

  /** A key-value cache: a growing buffer and the number of positions in use.
      Trimming moves the length back and leaves the stale positions in the buffer, or does nothing at all. */
  class KvCache {
    const canTrim: Rollback
    var buffer: array<Token>
    var length: nat
    /** How many forward passes it has seen. */
    ghost var forwards: nat

    ghost predicate Valid()
      reads this
    {
      length <= buffer.Length
    }

    ghost function Contents(): seq<Token>
      requires Valid()
      reads this, buffer
    {
      buffer[..length]
    }

    constructor (canTrim: Rollback)
      ensures this.canTrim == canTrim
      ensures Valid() && Contents() == [] && fresh(buffer) && forwards == 0
    {
      this.canTrim := canTrim;
      buffer := new Token[0];
      length, forwards := 0, 0;
    }

    method Extend(tokens: seq<Token>)
      requires Valid()
      modifies this`buffer, this`length, buffer
      ensures Valid() && (buffer == old(buffer) || fresh(buffer))
      ensures Contents() == old(Contents()) + tokens
    {
      if length + |tokens| > buffer.Length {
        var held := buffer[..length];
        var larger := new Token[2 * (length + |tokens|)];
        forall i | 0 <= i < |held| { larger[i] := held[i]; }
        buffer := larger;
        assert Contents() == held;
      }
      ghost var before := Contents();
      var b, at := buffer, length;
      forall i | 0 <= i < |tokens| { b[at + i] := tokens[i]; }
      length := at + |tokens|;
      assert b[..at] == before;
    }

    /** Drops the last `n` positions (all of them when there are fewer), if the cache can be rolled back now. */
    method Trim(n: nat)
      requires Valid()
      modifies this`length
      ensures Valid()
      ensures Contents() == if canTrim(old(Contents())) then DropLast(old(Contents()), n) else old(Contents())
    {
      if canTrim(buffer[..length]) {
        length := length - (if n <= length then n else length);
      }
    }

    /** One causal forward pass: the argmax at every input position depends on the cache and the inputs up to it. */
    method Forward(next: Model, inputs: seq<Token>) returns (pred: seq<Token>)
      requires Valid()
      modifies this, buffer
      ensures Valid() && (buffer == old(buffer) || fresh(buffer))
      ensures Contents() == old(Contents()) + inputs && forwards == old(forwards) + 1
      ensures |pred| == |inputs|
      ensures forall i :: 0 <= i < |inputs| ==> pred[i] == next(old(Contents()) + inputs[..i + 1])
    {
      var before := buffer[..length];
      pred := seq(|inputs|, i requires 0 <= i < |inputs| => next(before + inputs[..i + 1]));
      Extend(inputs);
      forwards := forwards + 1;
    }
  }

  /** What a drafter proposes, as a function of how often it was asked, all tokens it was shown and all
      acceptance counts it was told.  Nothing is assumed about it. */
  type DraftOracle = (nat, seq<Token>, seq<nat>) -> seq<Token>

  class Drafter {
    const oracle: DraftOracle
    var calls: nat
    var history: seq<Token>
    var acceptances: seq<nat>

    constructor (oracle: DraftOracle)
      ensures this.oracle == oracle && calls == 0 && history == [] && acceptances == []
    {
      this.oracle := oracle;
      calls, history, acceptances := 0, [], [];
    }

    method AddTokens(tokens: seq<Token>)
      modifies this`history
      ensures history == old(history) + tokens
    {
      history := history + tokens;
    }

    method GetDraft() returns (draft: seq<Token>)
      modifies this`calls
      ensures draft == oracle(old(calls), history, acceptances) && calls == old(calls) + 1
    {
      draft := oracle(calls, history, acceptances);
      calls := calls + 1;
    }

    method RecordAcceptance(n: nat)
      modifies this`acceptances
      ensures acceptances == old(acceptances) + [n]
    {
      acceptances := acceptances + [n];
    }
  }

  datatype RunResult = RunResult(out: seq<Token>, stoppedOnEos: bool)

  /** The first token is emitted before the budget is looked at, so a budget below one acts like one. */
  function Budget(maxTokens: int): nat {
    if maxTokens < 1 then 1 else maxTokens
  }

  /** How many draft tokens one verification round keeps, with room for `room` more tokens. */
  function Accepted(next: Model, ctx: seq<Token>, draft: seq<Token>, eos: set<Token>, room: nat): (n: nat)
    requires room > 0
    ensures n <= |draft| && n <= room
    decreases room
  {
    if draft == [] || draft[0] != next(ctx) then 0
    else if draft[0] in eos || room == 1 then 1
    else 1 + Accepted(next, ctx + [draft[0]], draft[1..], eos, room - 1)
  }

  /** The acceptance count seen from the middle of the draft. */
  lemma AcceptedFrom(next: Model, ctx: seq<Token>, draft: seq<Token>, eos: set<Token>, room: nat, k: nat)
    requires k <= |draft| && k < room
    ensures Accepted(next, ctx + draft[..k], draft[k..], eos, room - k)
         == if k == |draft| || draft[k] != next(ctx + draft[..k]) then 0
            else if draft[k] in eos || k + 1 == room then 1
            else 1 + Accepted(next, ctx + draft[..k + 1], draft[k + 1..], eos, room - (k + 1))
  {
    if k < |draft| {
      assert ctx + draft[..k] + [draft[k]] == ctx + draft[..k + 1];
      assert draft[k..][1..] == draft[k + 1..];
    }
  }

  /** The kept drafts are the longest run that agrees with the model, goes no further than a stop token, and fits. */
  lemma {:induction false} AcceptedExactly(next: Model, ctx: seq<Token>, draft: seq<Token>, eos: set<Token>, room: nat, n: nat)
    requires room > 0
    ensures n == Accepted(next, ctx, draft, eos, room)
       <==> && n <= |draft| && n <= room
            && (forall i :: 0 <= i < n ==> draft[i] == next(ctx + draft[..i]))
            && (forall i :: 0 <= i < n - 1 ==> draft[i] !in eos)
            && (n < |draft| && n < room && (n > 0 ==> draft[n - 1] !in eos) ==> draft[n] != next(ctx + draft[..n]))
    decreases room
  {
    assert ctx + draft[..0] == ctx;
    if draft == [] || draft[0] != next(ctx) || draft[0] in eos || room == 1 {
      assert |draft| > 0 ==> draft[..1] == [draft[0]];
    } else if 0 < n <= |draft| {
      var longer, rest := ctx + [draft[0]], draft[1..];
      AcceptedExactly(next, longer, rest, eos, room - 1, n - 1);
      forall i | 1 <= i <= |draft| ensures ctx + draft[..i] == longer + rest[..i - 1] {
      }
      assert forall i :: 0 <= i < |rest| ==> rest[i] == draft[i + 1];
      ShiftedAgreement(next, ctx, draft, n);
    }
  }

  /** Agreement from the second draft on. */
  lemma ShiftedAgreement(next: Model, ctx: seq<Token>, draft: seq<Token>, n: nat)
    requires 0 < n <= |draft| && draft[0] == next(ctx)
    ensures (forall i :: 0 <= i < n ==> draft[i] == next(ctx + draft[..i]))
       <==> forall i :: 0 <= i < n - 1 ==> draft[1..][i] == next(ctx + [draft[0]] + draft[1..][..i])
  {
    assert ctx + draft[..0] == ctx;
    forall i | 1 <= i < n ensures ctx + draft[..i] == ctx + [draft[0]] + draft[1..][..i - 1] {
    }
  }

  /** Whether the round that kept `n` draft tokens ended the run on one of them. */
  predicate EndsOnDraft(draft: seq<Token>, eos: set<Token>, room: nat, n: nat)
    requires n <= |draft|
  {
    n > 0 && (draft[n - 1] in eos || n == room)
  }

  /** What the cache holds after a round that fed `draft` behind `base` and kept `n` of it. */
  function CacheAfter(canTrim: Rollback, base: seq<Token>, draft: seq<Token>, n: nat): seq<Token>
    requires n <= |draft|
  {
    if n == |draft| || canTrim(base + draft) then base + draft[..n] else base + draft
  }

  /** How a run ends: its output, and whether a draft token was the last. */
  datatype Ending = Ending(out: seq<Token>, onDraft: bool)

  /** The rest of a speculative run, for any cache. */
  function Speculate(
      next: Model, oracle: DraftOracle, canTrim: Rollback, prompt: seq<Token>, eos: set<Token>, maxTokens: int,
      cached: seq<Token>, out: seq<Token>, calls: nat, acceptances: seq<nat>): (r: Ending)
    requires out != []
    ensures r.out != []
    decreases maxTokens - |out|
  {
    if |out| >= maxTokens || out[|out| - 1] in eos then Ending(out, false)
    else
      var base := cached + [out[|out| - 1]];
      var draft := oracle(calls, prompt + out, acceptances);
      var n := Accepted(next, base, draft, eos, maxTokens - |out|);
      var longer := out + draft[..n];
      if EndsOnDraft(draft, eos, maxTokens - |out|, n) then Ending(longer, true)
      else
        Speculate(next, oracle, canTrim, prompt, eos, maxTokens, CacheAfter(canTrim, base, draft, n),
                  longer + [next(base + draft[..n])], calls + 1, if draft == [] then acceptances else acceptances + [n])
  }

  /** A whole speculative run. */
  function Speculated(
      next: Model, oracle: DraftOracle, canTrim: Rollback, prompt: seq<Token>, eos: set<Token>, maxTokens: int): (r: Ending)
    ensures r.out != []
  {
    Speculate(next, oracle, canTrim, prompt, eos, maxTokens, prompt, [next(prompt)], 0, [])
  }

  /** The whole output of a run, whatever the decoder. */
  function Output(next: Model, prompt: seq<Token>, eos: set<Token>, maxTokens: int): (out: seq<Token>)
    ensures out != []
  {
    Decode(next, prompt, eos, Budget(maxTokens))
  }

  /** A stop token that the decoder gets to look at again: the first one, or one with budget left after it. */
  predicate EosSeen(out: seq<Token>, eos: set<Token>, maxTokens: int)
    requires out != []
  {
    out[|out| - 1] in eos && (|out| == 1 || |out| < maxTokens)
  }

  /** A later stop token emitted exactly when the budget runs out. */
  predicate EosOnBudget(out: seq<Token>, eos: set<Token>, maxTokens: int)
    requires out != []
  {
    out[|out| - 1] in eos && |out| == maxTokens > 1
  }

  /** What the speculative decoder's stop flag says. */
  predicate SuffixReportsEos(
      next: Model, oracle: DraftOracle, canTrim: Rollback, prompt: seq<Token>, eos: set<Token>, maxTokens: int)
  {
    var ending := Speculated(next, oracle, canTrim, prompt, eos, maxTokens);
    EosSeen(ending.out, eos, maxTokens) || (EosOnBudget(ending.out, eos, maxTokens) && ending.onDraft)
  }

  /** One token per forward pass. */
  method RunVanilla(next: Model, canTrim: Rollback, prompt: seq<Token>, eos: set<Token>, maxTokens: int)
    returns (r: RunResult, ghost forwards: nat)
    requires prompt != []
    ensures r.out == Output(next, prompt, eos, maxTokens)
    ensures r.stoppedOnEos <==> EosSeen(r.out, eos, maxTokens)
    ensures forwards == |r.out|
  {
    hide Final, Decode;
    var cache := new KvCache(canTrim);
    var pred := cache.Forward(next, prompt);
    var nextTok := pred[|prompt| - 1];
    assert [] + prompt[..|prompt|] == prompt;
    var out := [nextTok];
    FinalStart(next, prompt, eos, Budget(maxTokens));
    var stopped := nextTok in eos;
    var i := 0;
    while i < maxTokens - 1
      invariant 0 <= i && (i > 0 ==> i <= maxTokens - 1)
      invariant |out| == i + 1 && nextTok == out[i] && cache.forwards == |out|
      invariant fresh(cache) && fresh(cache.buffer) && cache.Valid()
      invariant cache.Contents() == prompt + out[..i]
      invariant |out| <= Budget(maxTokens)
      invariant Final(next, prompt, eos, Budget(maxTokens), out) == Output(next, prompt, eos, maxTokens)
      invariant stopped <==> i == 0 && nextTok in eos
    {
      if nextTok in eos {
        stopped := true;
        break;
      }
      pred := cache.Forward(next, [nextTok]);
      assert [nextTok][..1] == [nextTok];
      assert prompt + out[..i] + [nextTok] == prompt + out;
      nextTok := pred[0];
      FinalStep(next, prompt, eos, Budget(maxTokens), out);
      out := out + [nextTok];
      i := i + 1;
    }
    FinalOver(next, prompt, eos, Budget(maxTokens), out);
    r, forwards := RunResult(out, stopped), cache.forwards;
  }

  /** The acceptance loop: keeps draft tokens while they agree with the verifier's predictions, and stops right
      after a stop token or when the budget is spent. */
  method AcceptDraft(next: Model, drafter: Drafter, ghost prompt: seq<Token>, ghost base: seq<Token>, out: seq<Token>,
                     pred: seq<Token>, draft: seq<Token>, eos: set<Token>, maxTokens: nat)
    returns (longer: seq<Token>, accepted: nat, eosInDraft: bool)
    requires |out| < maxTokens && |pred| > |draft|
    requires forall i :: 0 <= i <= |draft| ==> pred[i] == next(base + draft[..i])
    requires drafter.history == prompt + out
    modifies drafter`history
    ensures accepted == Accepted(next, base, draft, eos, maxTokens - |out|)
    ensures longer == out + draft[..accepted] && drafter.history == prompt + longer
    ensures eosInDraft <==> accepted > 0 && draft[accepted - 1] in eos
    ensures EndsOnDraft(draft, eos, maxTokens - |out|, accepted) <==> eosInDraft || |longer| >= maxTokens
  {
    hide Accepted;
    ghost var room: nat := maxTokens - |out|;
    accepted := 0;
    longer, eosInDraft := out, false;
    assert base + draft[..0] == base && draft[0..] == draft;
    while accepted < |draft|
      invariant accepted <= |draft| && accepted < room && !eosInDraft
      invariant longer == out + draft[..accepted] && drafter.history == prompt + longer
      invariant accepted > 0 ==> draft[accepted - 1] !in eos
      invariant Accepted(next, base, draft, eos, room)
             == accepted + Accepted(next, base + draft[..accepted], draft[accepted..], eos, room - accepted)
    {
      var tok := draft[accepted];
      AcceptedFrom(next, base, draft, eos, room, accepted);
      if pred[accepted] != tok {
        break;
      }
      accepted := accepted + 1;
      longer := longer + [tok];
      drafter.AddTokens([tok]);
      if tok in eos {
        eosInDraft := true;
        break;
      }
      if |longer| >= maxTokens {
        break;
      }
    }
    if accepted < room && !eosInDraft {
      AcceptedFrom(next, base, draft, eos, room, accepted);
    }
  }

  /** One verification round: a single forward pass over the last token and the whole draft, acceptance of the
      agreeing prefix, and a roll-back of the cache by the rejected drafts. */
  method VerifyRound(next: Model, cache: KvCache, drafter: Drafter, ghost prompt: seq<Token>, out: seq<Token>,
                     draft: seq<Token>, eos: set<Token>, maxTokens: nat)
    returns (longer: seq<Token>, eosInDraft: bool, ended: bool, ghost n: nat)
    requires out != [] && draft != [] && |out| < maxTokens
    requires cache.Valid() && drafter.history == prompt + out
    modifies cache, cache.buffer, drafter`history, drafter`acceptances
    ensures cache.Valid() && (cache.buffer == old(cache.buffer) || fresh(cache.buffer))
    ensures cache.forwards == old(cache.forwards) + 1
    ensures var base := old(cache.Contents()) + [out[|out| - 1]];
      && n == Accepted(next, base, draft, eos, maxTokens - |out|)
      && longer == (if ended then out + draft[..n] else out + draft[..n] + [next(base + draft[..n])])
      && (!ended ==> cache.Contents() == CacheAfter(cache.canTrim, base, draft, n))
    ensures drafter.acceptances == old(drafter.acceptances) + [n] && drafter.history == prompt + longer
    ensures ended <==> EndsOnDraft(draft, eos, maxTokens - |out|, n)
    ensures eosInDraft <==> n > 0 && draft[n - 1] in eos
    ensures |out| < |longer| <= maxTokens
  {
    hide Accepted;
    var fed := [out[|out| - 1]] + draft;
    ghost var cached := cache.Contents();
    ghost var base := cached + [out[|out| - 1]];
    var pred := cache.Forward(next, fed);
    FedIsDraft(cached, out[|out| - 1], draft);
    var accepted;
    longer, accepted, eosInDraft := AcceptDraft(next, drafter, prompt, base, out, pred, draft, eos, maxTokens);
    n := accepted;
    drafter.RecordAcceptance(accepted);
    ended := eosInDraft || |longer| >= maxTokens;
    if !ended {
      var nextTok := pred[accepted];
      longer := longer + [nextTok];
      drafter.AddTokens([nextTok]);
      var rejected := |draft| - accepted;
      if rejected > 0 {
        cache.Trim(rejected);
      }
      KeptOfDraft(base, draft, n);
    }
  }

  /** Feeding the last token and the draft to a cache. */
  lemma FedIsDraft(cached: seq<Token>, last: Token, draft: seq<Token>)
    ensures cached + ([last] + draft) == cached + [last] + draft
    ensures forall i :: 0 <= i <= |draft| ==> cached + ([last] + draft)[..i + 1] == cached + [last] + draft[..i]
  {
  }

  /** What a roll-back to the accepted drafts leaves. */
  lemma KeptOfDraft(base: seq<Token>, draft: seq<Token>, n: nat)
    requires n <= |draft|
    ensures DropLast(base + draft, |draft| - n) == base + draft[..n]
    ensures draft[..|draft|] == draft
  {
  }

  /** A round without a draft is one step of the vanilla decoder. */
  method PlainRound(next: Model, cache: KvCache, drafter: Drafter, ghost prompt: seq<Token>, out: seq<Token>)
    returns (longer: seq<Token>)
    requires out != []
    requires cache.Valid() && drafter.history == prompt + out
    modifies cache, cache.buffer, drafter`history
    ensures cache.Valid() && (cache.buffer == old(cache.buffer) || fresh(cache.buffer))
    ensures cache.forwards == old(cache.forwards) + 1
    ensures cache.Contents() == old(cache.Contents()) + [out[|out| - 1]]
    ensures longer == out + [next(cache.Contents())]
    ensures drafter.history == prompt + longer
  {
    var last := out[|out| - 1];
    var pred := cache.Forward(next, [last]);
    assert [last][..1] == [last];
    longer := out + [pred[0]];
    drafter.AddTokens([pred[0]]);
  }

  /** How the ending of a run depends on its next round. */
  lemma SpeculateStep(
      next: Model, oracle: DraftOracle, canTrim: Rollback, prompt: seq<Token>, eos: set<Token>, maxTokens: int,
      cached: seq<Token>, out: seq<Token>, calls: nat, acceptances: seq<nat>)
    requires out != []
    ensures var draft, base := oracle(calls, prompt + out, acceptances), cached + [out[|out| - 1]];
      Speculate(next, oracle, canTrim, prompt, eos, maxTokens, cached, out, calls, acceptances)
      == if |out| >= maxTokens || out[|out| - 1] in eos then Ending(out, false)
         else if draft == [] then
           Speculate(next, oracle, canTrim, prompt, eos, maxTokens, base, out + [next(base)], calls + 1, acceptances)
         else
           var n := Accepted(next, base, draft, eos, maxTokens - |out|);
           if EndsOnDraft(draft, eos, maxTokens - |out|, n) then Ending(out + draft[..n], true)
           else
             Speculate(next, oracle, canTrim, prompt, eos, maxTokens, CacheAfter(canTrim, base, draft, n),
                       out + draft[..n] + [next(base + draft[..n])], calls + 1, acceptances + [n])
  {
    var draft, base := oracle(calls, prompt + out, acceptances), cached + [out[|out| - 1]];
    if draft == [] {
      assert out + draft[..0] == out && base + draft[..0] == base;
    }
  }

  /** One iteration of the speculative loop.  It makes one forward pass, emits at least one token, and leaves the
      ending that the run is heading for as it is.  If the cache can be rolled back it holds, as before, everything but
      the last token. */
  method Round(next: Model, cache: KvCache, drafter: Drafter, ghost prompt: seq<Token>, out: seq<Token>,
               eos: set<Token>, maxTokens: nat)
    returns (longer: seq<Token>, eosInDraft: bool, ended: bool)
    requires out != [] && out[|out| - 1] !in eos && |out| < maxTokens
    requires cache.Valid() && drafter.history == prompt + out
    modifies cache, cache.buffer, drafter
    ensures cache.Valid() && (cache.buffer == old(cache.buffer) || fresh(cache.buffer))
    ensures cache.forwards == old(cache.forwards) + 1
    ensures |out| < |longer| <= maxTokens && drafter.history == prompt + longer
    ensures Speculate(next, drafter.oracle, cache.canTrim, prompt, eos, maxTokens, old(cache.Contents()), out,
                      old(drafter.calls), old(drafter.acceptances))
         == if ended then Ending(longer, true)
            else Speculate(next, drafter.oracle, cache.canTrim, prompt, eos, maxTokens, cache.Contents(), longer,
                           drafter.calls, drafter.acceptances)
    ensures eosInDraft <==> ended && longer[|longer| - 1] in eos
    ensures ended && !eosInDraft ==> |longer| == maxTokens
    ensures RollsBack(cache.canTrim) && prompt != [] && old(cache.Contents()) == prompt + out[..|out| - 1] && !ended
            ==> cache.Contents() == prompt + longer[..|longer| - 1]
  {
    hide Speculate, Accepted, RollsBack;
    ghost var cached, base := cache.Contents(), cache.Contents() + [out[|out| - 1]];
    SpeculateStep(next, drafter.oracle, cache.canTrim, prompt, eos, maxTokens, cached, out,
                  drafter.calls, drafter.acceptances);
    var draft := drafter.GetDraft();
    if draft == [] {
      longer := PlainRound(next, cache, drafter, prompt, out);
      eosInDraft, ended := false, false;
      assert prompt + out[..|out| - 1] + [out[|out| - 1]] == prompt + out;
    } else {
      ghost var n;
      longer, eosInDraft, ended, n := VerifyRound(next, cache, drafter, prompt, out, draft, eos, maxTokens);
      if !ended && cached == prompt + out[..|out| - 1] && RollsBack(cache.canTrim) && prompt != [] {
        CacheRestored(next, cache.canTrim, prompt, out, draft, n);
      }
    }
  }

  /** The cache can be rolled back whenever it may have to be: behind a prompt, the last token and a draft. */
  ghost predicate RollsBack(canTrim: Rollback) {
    forall contents: seq<Token> :: |contents| >= 3 ==> canTrim(contents)
  }

  /** A cache that can be rolled back holds everything but the last token again. */
  lemma CacheRestored(next: Model, canTrim: Rollback, prompt: seq<Token>, out: seq<Token>, draft: seq<Token>, n: nat)
    requires RollsBack(canTrim) && prompt != [] && out != [] && n <= |draft|
    ensures var base := prompt + out[..|out| - 1] + [out[|out| - 1]];
      var longer := out + draft[..n] + [next(base + draft[..n])];
      && base == prompt + out
      && CacheAfter(canTrim, base, draft, n) == prompt + longer[..|longer| - 1]
  {
    var base := prompt + out[..|out| - 1] + [out[|out| - 1]];
    var longer := out + draft[..n] + [next(base + draft[..n])];
    assert base == prompt + out;
    assert longer[..|longer| - 1] == out + draft[..n];
    assert base + draft[..n] == prompt + (out + draft[..n]);
  }

  /** Speculative decoding, on any cache.  Whatever the drafter does, the output is the output of `RunVanilla` if the
      cache can be rolled back. */
  method RunSuffix(next: Model, oracle: DraftOracle, canTrim: Rollback, prompt: seq<Token>, eos: set<Token>,
                   maxTokens: int)
    returns (r: RunResult, ghost forwards: nat)
    requires prompt != []
    ensures r.out == Speculated(next, oracle, canTrim, prompt, eos, maxTokens).out
    ensures RollsBack(canTrim) ==> r.out == Output(next, prompt, eos, maxTokens)
    ensures r.stoppedOnEos <==> SuffixReportsEos(next, oracle, canTrim, prompt, eos, maxTokens)
    ensures forwards <= |r.out|
  {
    hide *;
    var cache := new KvCache(canTrim);
    var drafter := new Drafter(oracle);
    drafter.AddTokens(prompt);
    var pred := cache.Forward(next, prompt);
    var nextTok := pred[|prompt| - 1];
    assert [] + prompt == prompt && prompt[..|prompt|] == prompt;
    var out := [nextTok];
    assert prompt + out[..0] == prompt;
    RunStart(next, oracle, canTrim, prompt, eos, maxTokens);
    drafter.AddTokens([nextTok]);
    var stopped := nextTok in eos;
    ghost var over := false;
    while |out| < maxTokens
      invariant out != [] && nextTok == out[|out| - 1] && !over
      invariant fresh(cache) && fresh(cache.buffer) && fresh(drafter) && cache.Valid()
      invariant drafter.oracle == oracle && cache.canTrim == canTrim
      invariant drafter.history == prompt + out
      invariant RollsBack(canTrim) ==> cache.Contents() == prompt + out[..|out| - 1]
      invariant stopped <==> |out| == 1 && nextTok in eos
      invariant cache.forwards <= |out| <= Budget(maxTokens)
      invariant Speculated(next, oracle, canTrim, prompt, eos, maxTokens)
             == Speculate(next, oracle, canTrim, prompt, eos, maxTokens, cache.Contents(), out, drafter.calls,
                          drafter.acceptances)
      decreases maxTokens - |out|
    {
      if nextTok in eos {
        stopped := true;
        break;
      }
      var eosInDraft, ended;
      out, eosInDraft, ended := Round(next, cache, drafter, prompt, out, eos, maxTokens);
      if ended {
        if eosInDraft {
          stopped := true;
        }
        over := true;
        break;
      }
      nextTok := out[|out| - 1];
    }
    if !over {
      SpeculateStep(next, oracle, canTrim, prompt, eos, maxTokens, cache.Contents(), out, drafter.calls,
                    drafter.acceptances);
    }
    RunEnd(next, oracle, canTrim, prompt, eos, maxTokens, Ending(out, over));
    r, forwards := RunResult(out, stopped), cache.forwards;
    if RollsBack(canTrim) {
      Lossless(next, oracle, canTrim, prompt, eos, maxTokens);
    }
  }

  lemma RunStart(next: Model, oracle: DraftOracle, canTrim: Rollback, prompt: seq<Token>, eos: set<Token>,
                 maxTokens: int)
    ensures Speculated(next, oracle, canTrim, prompt, eos, maxTokens)
         == Speculate(next, oracle, canTrim, prompt, eos, maxTokens, prompt, [next(prompt)], 0, [])
    ensures Budget(maxTokens) == if maxTokens < 1 then 1 else maxTokens
  {
  }

  lemma RunEnd(next: Model, oracle: DraftOracle, canTrim: Rollback, prompt: seq<Token>, eos: set<Token>,
               maxTokens: int, ending: Ending)
    requires Speculated(next, oracle, canTrim, prompt, eos, maxTokens) == ending
    ensures ending.out != []
    ensures SuffixReportsEos(next, oracle, canTrim, prompt, eos, maxTokens)
       <==> ending.out[|ending.out| - 1] in eos
            && (|ending.out| == 1 || |ending.out| < maxTokens || (|ending.out| == maxTokens && ending.onDraft))
  {
    hide Speculated;
  }

  // ---- losslessness

  /** Accepted drafts are what the model would have emitted. */
  lemma {:induction false} AcceptedIsGreedy(next: Model, prompt: seq<Token>, eos: set<Token>, budget: nat,
                                            out: seq<Token>, draft: seq<Token>)
    requires |out| < budget && (out != [] ==> out[|out| - 1] !in eos)
    ensures var n := Accepted(next, prompt + out, draft, eos, budget - |out|);
      && Final(next, prompt, eos, budget, out + draft[..n]) == Final(next, prompt, eos, budget, out)
      && (EndsOnDraft(draft, eos, budget - |out|, n) ==>
            Final(next, prompt, eos, budget, out + draft[..n]) == out + draft[..n])
    decreases |draft|
  {
    hide Final;
    var n := Accepted(next, prompt + out, draft, eos, budget - |out|);
    if n == 0 {
      assert out + draft[..0] == out;
    } else {
      var longer := out + [draft[0]];
      assert longer == out + [next(prompt + out)];
      FinalStep(next, prompt, eos, budget, out);
      if draft[0] in eos || budget - |out| == 1 {
        assert draft[..1] == [draft[0]];
        FinalOver(next, prompt, eos, budget, longer);
      } else {
        AcceptedIsGreedy(next, prompt, eos, budget, longer, draft[1..]);
        assert prompt + longer == prompt + out + [draft[0]];
        assert out + draft[..n] == longer + draft[1..][..n - 1];
      }
    }
  }

  /** A draft that does not end the run leaves room behind it. */
  lemma RoomAfterDraft(next: Model, ctx: seq<Token>, draft: seq<Token>, eos: set<Token>, room: nat)
    requires room > 0
    ensures var n := Accepted(next, ctx, draft, eos, room);
      !EndsOnDraft(draft, eos, room, n) ==> n < room && (n > 0 ==> draft[n - 1] !in eos)
  {
  }

  lemma {:induction false} SpeculateIsFinal(
      next: Model, oracle: DraftOracle, canTrim: Rollback, prompt: seq<Token>, eos: set<Token>, maxTokens: int,
      cached: seq<Token>, out: seq<Token>, calls: nat, acceptances: seq<nat>)
    requires RollsBack(canTrim) && prompt != [] && out != [] && |out| <= Budget(maxTokens)
    requires cached == prompt + out[..|out| - 1]
    ensures Speculate(next, oracle, canTrim, prompt, eos, maxTokens, cached, out, calls, acceptances).out
         == Final(next, prompt, eos, Budget(maxTokens), out)
    decreases maxTokens - |out|
  {
    hide *;
    SpeculateStep(next, oracle, canTrim, prompt, eos, maxTokens, cached, out, calls, acceptances);
    BudgetLeft(out, maxTokens);
    if |out| >= maxTokens || out[|out| - 1] in eos {
      FinalOver(next, prompt, eos, Budget(maxTokens), out);
    } else {
      var draft, base := oracle(calls, prompt + out, acceptances), cached + [out[|out| - 1]];
      var n := Accepted(next, base, draft, eos, maxTokens - |out|);
      CacheRestored(next, canTrim, prompt, out, draft, n);
      AcceptedIsGreedy(next, prompt, eos, maxTokens, out, draft);
      RoomAfterDraft(next, base, draft, eos, maxTokens - |out|);
      var kept := out + draft[..n];
      if draft == [] {
        assert kept == out && base + draft[..0] == base;
        NothingKept(canTrim, base, draft);
      }
      if draft == [] || !EndsOnDraft(draft, eos, maxTokens - |out|, n) {
        NoDraftNoEnd(draft, eos, maxTokens - |out|);
        assert base + draft[..n] == prompt + kept;
        assert kept[|kept| - 1] == if n == 0 then out[|out| - 1] else draft[n - 1];
        FinalStep(next, prompt, eos, maxTokens, kept);
        var longer := kept + [next(prompt + kept)];
        SpeculateIsFinal(next, oracle, canTrim, prompt, eos, maxTokens, CacheAfter(canTrim, base, draft, n), longer,
                         calls + 1, if draft == [] then acceptances else acceptances + [n]);
      }
    }
  }

  lemma BudgetLeft(out: seq<Token>, maxTokens: int)
    requires out != [] && |out| <= Budget(maxTokens)
    ensures if |out| < maxTokens then maxTokens == Budget(maxTokens) else |out| == Budget(maxTokens)
  {
  }

  lemma NothingKept(canTrim: Rollback, base: seq<Token>, draft: seq<Token>)
    requires draft == []
    ensures CacheAfter(canTrim, base, draft, 0) == base
  {
  }

  lemma NoDraftNoEnd(draft: seq<Token>, eos: set<Token>, room: nat)
    ensures draft == [] ==> !EndsOnDraft(draft, eos, room, 0)
  {
  }

  /** On a cache that can be rolled back speculation changes no token. */
  lemma Lossless(next: Model, oracle: DraftOracle, canTrim: Rollback, prompt: seq<Token>, eos: set<Token>,
                 maxTokens: int)
    requires RollsBack(canTrim) && prompt != []
    ensures Speculated(next, oracle, canTrim, prompt, eos, maxTokens).out == Output(next, prompt, eos, maxTokens)
  {
    hide Final, Speculate, RollsBack;
    assert prompt + [next(prompt)][..0] == prompt;
    SpeculateIsFinal(next, oracle, canTrim, prompt, eos, maxTokens, prompt, [next(prompt)], 0, []);
    FinalStart(next, prompt, eos, Budget(maxTokens));
  }

  ghost predicate AlwaysLossless(canTrim: Rollback) {
    forall next: Model, oracle: DraftOracle, prompt: seq<Token>, eos: set<Token>, maxTokens: int :: prompt != [] ==>
      Speculated(next, oracle, canTrim, prompt, eos, maxTokens).out == Output(next, prompt, eos, maxTokens)
  }

  /** Speculation changes no token, for every model, drafter, prompt, stop set and budget, if and only if the cache
      can always be rolled back. */
  lemma LosslessIffRollsBack(canTrim: Rollback)
    ensures AlwaysLossless(canTrim) <==> RollsBack(canTrim)
  {
    hide Speculated, Output;
    if RollsBack(canTrim) {
      forall next: Model, oracle: DraftOracle, prompt: seq<Token>, eos: set<Token>, maxTokens: int | prompt != []
        ensures Speculated(next, oracle, canTrim, prompt, eos, maxTokens).out == Output(next, prompt, eos, maxTokens)
      {
        Lossless(next, oracle, canTrim, prompt, eos, maxTokens);
      }
    } else {
      var contents: seq<Token> :| |contents| >= 3 && !canTrim(contents);
      var next, oracle, prompt := RejectedStays(canTrim, contents);
    }
  }

  /** For any contents that cannot be rolled back there is a run that goes wrong: its first draft is rejected there, and
      the third token sees one token too many. */
  lemma RejectedStays(canTrim: Rollback, contents: seq<Token>) returns (next: Model, oracle: DraftOracle, prompt: seq<Token>)
    requires |contents| >= 3 && !canTrim(contents)
    ensures prompt != []
    ensures Speculated(next, oracle, canTrim, prompt, {}, 3).out != Output(next, prompt, {}, 3)
  {
    var m := |contents| - 2;
    var last, wrong := contents[m], contents[m + 1];
    prompt := contents[..m];
    next := ctx => if |ctx| == m then last else if |ctx| == m + 1 then wrong + 1 else |ctx|;
    oracle := (calls, history, acceptances) => if calls == 0 then [wrong] else [];
    var out := [last, wrong + 1];
    assert prompt + [last] + [wrong] == contents;
    assert Output(next, prompt, {}, 3) == [last, wrong + 1, m + 2] by {
      assert Decode(next, prompt + [last] + [wrong + 1], {}, 1) == [m + 2];
      assert Decode(next, prompt + [last], {}, 2) == [wrong + 1, m + 2];
    }
    SpeculateStep(next, oracle, canTrim, prompt, {}, 3, prompt, [last], 0, []);
    assert Accepted(next, prompt + [last], [wrong], {}, 2) == 0;
    assert prompt + [last] + [wrong][..0] == prompt + [last];
    assert [last] + [wrong][..0] + [wrong + 1] == out;
    SpeculateStep(next, oracle, canTrim, prompt, {}, 3, contents, out, 1, [0]);
    assert next(contents + [wrong + 1]) == m + 3;
    SpeculateStep(next, oracle, canTrim, prompt, {}, 3, contents + [wrong + 1], out + [m + 3], 2, [0]);
  }

  /** The benchmark's own losslessness check: run both decoders and count disagreeing positions. */
  method CompareRuns(next: Model, oracle: DraftOracle, canTrim: Rollback, prompt: seq<Token>, eos: set<Token>,
                     maxTokens: int)
    returns (vanilla: RunResult, suffix: RunResult, common: int, diffs: int,
             ghost vanillaForwards: nat, ghost suffixForwards: nat)
    requires prompt != []
    ensures vanilla.out == Output(next, prompt, eos, maxTokens)
    ensures suffix.out == Speculated(next, oracle, canTrim, prompt, eos, maxTokens).out
    ensures common == if |vanilla.out| <= |suffix.out| then |vanilla.out| else |suffix.out|
    ensures diffs == |set i | 0 <= i < common && vanilla.out[i] != suffix.out[i]|
    ensures diffs == 0 <==> vanilla.out[..common] == suffix.out[..common]
    ensures vanilla.stoppedOnEos <==> EosSeen(vanilla.out, eos, maxTokens)
    ensures suffix.stoppedOnEos <==> SuffixReportsEos(next, oracle, canTrim, prompt, eos, maxTokens)
    ensures RollsBack(canTrim) ==>
              && suffix.out == vanilla.out && common == |vanilla.out| && diffs == 0
              && (vanilla.stoppedOnEos ==> suffix.stoppedOnEos)
              && (vanilla.stoppedOnEos == suffix.stoppedOnEos
                  <==> !(EosOnBudget(vanilla.out, eos, maxTokens)
                         && Speculated(next, oracle, canTrim, prompt, eos, maxTokens).onDraft))
              && suffixForwards <= vanillaForwards
  {
    hide Speculated, Output, RollsBack;
    vanilla, vanillaForwards := RunVanilla(next, canTrim, prompt, eos, maxTokens);
    suffix, suffixForwards := RunSuffix(next, oracle, canTrim, prompt, eos, maxTokens);
    common := if |vanilla.out| <= |suffix.out| then |vanilla.out| else |suffix.out|;
    diffs := 0;
    ghost var differing: set<int> := {};
    for i := 0 to common
      invariant differing == set j | 0 <= j < i && vanilla.out[j] != suffix.out[j]
      invariant diffs == |differing|
      invariant diffs == 0 <==> forall j :: 0 <= j < i ==> vanilla.out[j] == suffix.out[j]
    {
      if vanilla.out[i] != suffix.out[i] {
        differing := differing + {i};
        diffs := diffs + 1;
      }
    }
  }

  /** An output shorter than the budget ends in a stop token that both decoders see, and a stop token can only
      stand at the very end. */
  lemma ShortOutputStoppedOnEos(next: Model, prompt: seq<Token>, eos: set<Token>, maxTokens: int)
    ensures var out := Output(next, prompt, eos, maxTokens);
            && (|out| <= maxTokens || |out| == 1)
            && (forall i :: 0 <= i < |out| ==> out[i] == next(prompt + out[..i]))
            && (|out| < maxTokens ==> out[|out| - 1] in eos)
            && (|out| < maxTokens ==> EosSeen(out, eos, maxTokens))
            && (out[|out| - 1] in eos ==> EosSeen(out, eos, maxTokens) || EosOnBudget(out, eos, maxTokens))
            && (forall i :: 0 <= i < |out| && out[i] in eos ==> i == |out| - 1)
  {
    var out := Output(next, prompt, eos, maxTokens);
    DecodeCharacterised(next, prompt, eos, Budget(maxTokens), out);
    forall i | 0 <= i < |out| ensures out[i] == next(prompt + out[..i]) {
      assert (prompt + out)[|prompt| + i] == next((prompt + out)[..|prompt| + i]);
      assert (prompt + out)[..|prompt| + i] == prompt + out[..i];
    }
  }

  /** A draft that is the model's own continuation is accepted as a whole. */
  lemma {:induction false} OwnContinuationAccepted(next: Model, ctx: seq<Token>, eos: set<Token>, room: nat)
    requires room > 0
    ensures var draft := Decode(next, ctx, eos, room);
      draft != [] && Accepted(next, ctx, draft, eos, room) == |draft|
    decreases room
  {
    var t := next(ctx);
    if t in eos || room == 1 {
    } else {
      OwnContinuationAccepted(next, ctx + [t], eos, room - 1);
      assert Decode(next, ctx, eos, room)[1..] == Decode(next, ctx + [t], eos, room - 1);
    }
  }

  /** A drafter that proposes the model's own continuation emits the last token, if there is more than one. */
  lemma OwnContinuationEmitsLast(next: Model, canTrim: Rollback, prompt: seq<Token>, eos: set<Token>, maxTokens: nat)
    requires maxTokens > 1 && next(prompt) !in eos
    requires |Output(next, prompt, eos, maxTokens)| == maxTokens
    ensures var oracle: DraftOracle := (calls, history, acceptances) => Decode(next, history, eos, maxTokens - 1);
      Speculated(next, oracle, canTrim, prompt, eos, maxTokens) == Ending(Output(next, prompt, eos, maxTokens), true)
  {
    var oracle: DraftOracle := (calls, history, acceptances) => Decode(next, history, eos, maxTokens - 1);
    var start, room := [next(prompt)], maxTokens - 1;
    OwnContinuationAccepted(next, prompt + start, eos, room);
    var draft := Decode(next, prompt + start, eos, room);
    assert oracle(0, prompt + start, []) == draft && draft[..|draft|] == draft;
    assert Output(next, prompt, eos, maxTokens) == start + draft;
    SpeculateStep(next, oracle, canTrim, prompt, eos, maxTokens, prompt, start, 0, []);
  }

  /** The two decoders report the same stop flag whatever the drafter does if and only if no stop token lands exactly
      on the budget. */
  lemma StopFlagsAgree(next: Model, canTrim: Rollback, prompt: seq<Token>, eos: set<Token>, maxTokens: int)
    requires RollsBack(canTrim) && prompt != []
    ensures var out := Output(next, prompt, eos, maxTokens);
      (forall oracle :: SuffixReportsEos(next, oracle, canTrim, prompt, eos, maxTokens) == EosSeen(out, eos, maxTokens))
      <==> !EosOnBudget(out, eos, maxTokens)
  {
    hide Speculated, RollsBack;
    var out := Output(next, prompt, eos, maxTokens);
    forall oracle ensures Speculated(next, oracle, canTrim, prompt, eos, maxTokens).out == out {
      Lossless(next, oracle, canTrim, prompt, eos, maxTokens);
    }
    if EosOnBudget(out, eos, maxTokens) {
      var oracle: DraftOracle := (calls, history, acceptances) => Decode(next, history, eos, maxTokens - 1);
      OwnContinuationEmitsLast(next, canTrim, prompt, eos, maxTokens);
      assert SuffixReportsEos(next, oracle, canTrim, prompt, eos, maxTokens);
    }
  }

  /** The stop flag is not part of the losslessness: a stop token that the drafter proposed for the last
      position is reported by the speculative decoder only. */
  lemma StopFlagsCanDiffer() returns (next: Model, oracle: DraftOracle, canTrim: Rollback, prompt: seq<Token>,
                                      eos: set<Token>, maxTokens: int)
    ensures RollsBack(canTrim) && prompt != []
    ensures SuffixReportsEos(next, oracle, canTrim, prompt, eos, maxTokens)
    ensures !EosSeen(Output(next, prompt, eos, maxTokens), eos, maxTokens)
  {
    next, canTrim := ctx => |ctx|, contents => true;
    oracle := (calls, history, acceptances) => [2];
    prompt, eos, maxTokens := [0], {2}, 2;
    assert Decode(next, [0, 1], {2}, 1) == [2];
    assert Output(next, [0], {2}, 2) == [1, 2];
    assert Accepted(next, [0, 1], [2], {2}, 1) == 1;
    SpeculateStep(next, oracle, canTrim, prompt, eos, maxTokens, [0], [1], 0, []);
    assert Speculated(next, oracle, canTrim, prompt, eos, maxTokens) == Ending([1, 2], true);
  }
}
