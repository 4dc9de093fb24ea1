/** Greedy decoding of a causal, deterministic language model.
    A model is an arbitrary function from a token context to the next token. */
module GreedyModel {
  type Token = nat
  type Model = seq<Token> -> Token

  /** Without the last `n` tokens, or without any when there are fewer. */
  function DropLast(s: seq<Token>, n: nat): (r: seq<Token>)
    ensures r <= s && |r| == if n <= |s| then |s| - n else 0
  {
    s[..|s| - (if n <= |s| then n else |s|)]
  }

  /** Every token of `ctx` from position `from` on is the model's choice after the tokens before it. */
  ghost predicate IsGreedy(next: Model, from: nat, ctx: seq<Token>) {
    forall i :: from <= i < |ctx| ==> ctx[i] == next(ctx[..i])
  }

  /** The greedy continuation of `ctx` by exactly `n` tokens. */
  function Continue(next: Model, ctx: seq<Token>, n: nat): (r: seq<Token>)
    ensures |r| == |ctx| + n
    ensures ctx <= r
    decreases n
  {
    if n == 0 then ctx else Continue(next, ctx + [next(ctx)], n - 1)
  }

  /** A greedy extension of `ctx` is determined by its length. */
  lemma {:induction false} GreedyIsContinue(next: Model, ctx: seq<Token>, whole: seq<Token>)
    requires ctx <= whole && IsGreedy(next, |ctx|, whole)
    ensures whole == Continue(next, ctx, |whole| - |ctx|)
    decreases |whole| - |ctx|
  {
    if |ctx| < |whole| {
      assert whole[..|ctx|] == ctx;
      assert whole[|ctx|] == next(whole[..|ctx|]);
      GreedyIsContinue(next, ctx + [next(ctx)], whole);
    }
  }

  lemma {:induction false} ContinueTwice(next: Model, ctx: seq<Token>, m: nat, n: nat)
    ensures Continue(next, Continue(next, ctx, m), n) == Continue(next, ctx, m + n)
    decreases m
  {
    if m == 0 {
    } else {
      ContinueTwice(next, ctx + [next(ctx)], m - 1, n);
    }
  }

  /** Tokens that each are the model's choice after the ones before them continue the context greedily. */
  lemma GreedyRun(next: Model, ctx: seq<Token>, tokens: seq<Token>)
    requires forall i :: 0 <= i < |tokens| ==> tokens[i] == next(ctx + tokens[..i])
    ensures ctx + tokens == Continue(next, ctx, |tokens|)
  {
    var whole := ctx + tokens;
    forall i | |ctx| <= i < |whole| ensures whole[i] == next(whole[..i]) {
      var j := i - |ctx|;
      assert tokens[j] == next(ctx + tokens[..j]);
      assert whole[..i] == ctx + tokens[..j];
    }
    GreedyIsContinue(next, ctx, whole);
  }

  /** The tokens a decoder emits after `ctx`: at most `budget`, stopping after the first end-of-sequence token. */
  function Decode(next: Model, ctx: seq<Token>, eos: set<Token>, budget: nat): (out: seq<Token>)
    ensures |out| <= budget
    decreases budget
  {
    if budget == 0 then []
    else
      var t := next(ctx);
      if t in eos then [t] else [t] + Decode(next, ctx + [t], eos, budget - 1)
  }

  /** The output that a decoder standing at `out` will end up with. */
  function Final(next: Model, prompt: seq<Token>, eos: set<Token>, budget: nat, out: seq<Token>): seq<Token> {
    if |out| >= budget || (out != [] && out[|out| - 1] in eos) then out
    else out + Decode(next, prompt + out, eos, budget - |out|)
  }

  /** Emitting the model's next token leaves the final output as it is. */
  lemma FinalStep(next: Model, prompt: seq<Token>, eos: set<Token>, budget: nat, out: seq<Token>)
    requires |out| < budget
    requires out != [] ==> out[|out| - 1] !in eos
    ensures Final(next, prompt, eos, budget, out + [next(prompt + out)]) == Final(next, prompt, eos, budget, out)
  {
    var t := next(prompt + out);
    assert prompt + (out + [t]) == prompt + out + [t];
    var rest := Decode(next, prompt + out, eos, budget - |out|);
    if t !in eos {
      assert rest == [t] + Decode(next, prompt + out + [t], eos, budget - |out| - 1);
      assert out + [t] + Decode(next, prompt + out + [t], eos, budget - |out| - 1) == out + rest;
    }
  }

  /** A decoder that has spent its budget or emitted a stop token is done. */
  lemma FinalOver(next: Model, prompt: seq<Token>, eos: set<Token>, budget: nat, out: seq<Token>)
    requires |out| >= budget || (out != [] && out[|out| - 1] in eos)
    ensures Final(next, prompt, eos, budget, out) == out
  {
  }

  /** After the prompt has been read, the decoder stands at the model's first token. */
  lemma FinalStart(next: Model, prompt: seq<Token>, eos: set<Token>, budget: nat)
    requires budget > 0
    ensures Final(next, prompt, eos, budget, [next(prompt)]) == Decode(next, prompt, eos, budget)
  {
  }

  /** `out` is a possibly unfinished greedy output: no stop token except possibly the last one. */
  ghost predicate IsRunning(next: Model, prompt: seq<Token>, eos: set<Token>, budget: nat, out: seq<Token>) {
    && |out| <= budget
    && IsGreedy(next, |prompt|, prompt + out)
    && forall i :: 0 <= i < |out| - 1 ==> out[i] !in eos
  }

  /** The run is over: the budget is spent or the last token is a stop token. */
  ghost predicate IsOver(eos: set<Token>, budget: nat, out: seq<Token>) {
    |out| == budget || (out != [] && out[|out| - 1] in eos)
  }

  /** `Decode` is the one sequence that is greedy, has a stop token at most at its end, and cannot be shorter
      than the budget unless it ends in one. */
  lemma {:induction false} DecodeCharacterised(
      next: Model, prompt: seq<Token>, eos: set<Token>, budget: nat, out: seq<Token>)
    ensures out == Decode(next, prompt, eos, budget)
       <==> IsRunning(next, prompt, eos, budget, out) && IsOver(eos, budget, out)
    decreases budget
  {
    if budget == 0 {
      assert prompt + [] == prompt;
    } else if out == [] {
      assert prompt + [] == prompt;
    } else {
      var t := next(prompt);
      var rest := out[1..];
      assert out == [out[0]] + rest;
      if t in eos {
        if IsRunning(next, prompt, eos, budget, out) && IsOver(eos, budget, out) {
          assert (prompt + out)[|prompt|] == next((prompt + out)[..|prompt|]);
          assert (prompt + out)[..|prompt|] == prompt;
        }
        if out == [t] {
          assert (prompt + out)[..|prompt|] == prompt;
        }
      } else {
        DecodeCharacterised(next, prompt + [t], eos, budget - 1, rest);
        DecodeStep(next, prompt, eos, budget, out);
      }
    }
  }

  /** Peeling the first token off an output. */
  lemma DecodeStep(next: Model, prompt: seq<Token>, eos: set<Token>, budget: nat, out: seq<Token>)
    requires budget > 0 && out != [] && next(prompt) !in eos
    ensures IsRunning(next, prompt, eos, budget, out) && IsOver(eos, budget, out)
       <==> out[0] == next(prompt)
            && IsRunning(next, prompt + [next(prompt)], eos, budget - 1, out[1..])
            && IsOver(eos, budget - 1, out[1..])
  {
    var t := next(prompt);
    var rest := out[1..];
    var whole := prompt + out;
    assert whole[..|prompt|] == prompt;
    if IsRunning(next, prompt, eos, budget, out) && IsOver(eos, budget, out) {
      assert whole[|prompt|] == next(whole[..|prompt|]);
      assert prompt + [t] + rest == whole;
      forall i | 0 <= i < |rest| - 1 ensures rest[i] !in eos {
        assert out[i + 1] !in eos;
      }
    }
    if out[0] == t && IsRunning(next, prompt + [t], eos, budget - 1, rest) && IsOver(eos, budget - 1, rest) {
      assert prompt + [t] + rest == whole;
      forall i | 0 <= i < |out| - 1 ensures out[i] !in eos {
        if i > 0 { assert rest[i - 1] !in eos; }
      }
      forall i | |prompt| <= i < |whole| ensures whole[i] == next(whole[..i]) {
        if i > |prompt| { assert whole[i] == next(whole[..i]); }
      }
    }
  }

  /** A smaller budget only cuts the output short; it never changes a token. */
  lemma {:induction false} SmallerBudgetIsPrefix(
      next: Model, ctx: seq<Token>, eos: set<Token>, small: nat, large: nat)
    requires small <= large
    ensures Decode(next, ctx, eos, small) <= Decode(next, ctx, eos, large)
    decreases small
  {
    if small > 0 && next(ctx) !in eos {
      SmallerBudgetIsPrefix(next, ctx + [next(ctx)], eos, small - 1, large - 1);
    }
  }
}
