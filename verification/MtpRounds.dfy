/** Draft, verify and trim rounds of a multi-token-prediction head (bench/bench_mtp_accept_k3.py).
    The backbone has one cache per layer.  Attention caches can be trimmed; recurrent caches cannot, and then the
    rejected drafts stay in their state.  A cache is asked every time whether it can be trimmed. */
module MtpRounds {
  import opened GreedyModel
  import opened RunCounts

  const PREFILL_SIZE: nat := 2048

  /** The tokens that each layer of a stack has consumed. */
  type States = seq<seq<Token>>

  function ExtendAll(states: States, tokens: seq<Token>): (r: States)
    ensures |r| == |states| && forall i :: 0 <= i < |r| ==> r[i] == states[i] + tokens
  {
    seq(|states|, i requires 0 <= i < |states| => states[i] + tokens)
  }

  lemma ExtendTwice(states: States, a: seq<Token>, b: seq<Token>)
    ensures ExtendAll(ExtendAll(states, a), b) == ExtendAll(states, a + b)
    ensures ExtendAll(states, []) == states
  {
    assert forall i :: 0 <= i < |states| ==> states[i] + a + b == states[i] + (a + b);
    assert forall i :: 0 <= i < |states| ==> states[i] + [] == states[i];
  }

  /** A backbone: its prediction depends on what every layer has consumed. */
  type LayeredModel = States -> Token

  /** The drafter's token at every round and depth; nothing is assumed about it. */
  type DraftHead = (nat, nat) -> Token

  /** The backbone as a model over one context, when all its layers have consumed the same tokens. */
  function Uniform(next: LayeredModel, layers: nat): Model {
    (ctx: seq<Token>) => next(seq(layers, i => ctx))
  }

  /** Whether a layer in a given state can be trimmed. */
  type Trimmability = (nat, seq<Token>) -> bool

  /** A prompt cache: one entry per layer, updated in place. */
  class CacheList {
    const canTrim: Trimmability
    var states: States

    constructor (layers: nat, canTrim: Trimmability)
      ensures this.canTrim == canTrim && |states| == layers
      ensures forall i :: 0 <= i < |states| ==> states[i] == []
    {
      this.canTrim := canTrim;
      states := seq(layers, i => []);
    }

    /** All layers consume `tokens`. */
    method Consume(tokens: seq<Token>)
      modifies this`states
      ensures states == ExtendAll(old(states), tokens)
    {
      states := ExtendAll(states, tokens);
    }

    /** One forward pass of the backbone; prediction `i` sees every layer's state and the inputs up to `i`. */
    method Forward(next: LayeredModel, inputs: seq<Token>) returns (pred: seq<Token>)
      modifies this`states
      ensures states == ExtendAll(old(states), inputs)
      ensures |pred| == |inputs|
      ensures forall i :: 0 <= i < |inputs| ==> pred[i] == next(ExtendAll(old(states), inputs[..i + 1]))
    {
      var before := states;
      pred := seq<Token>(|inputs|, i requires 0 <= i < |inputs| => next(ExtendAll(before, inputs[..i + 1])));
      Consume(inputs);
    }

    /** Only the layers that can be trimmed now forget their last `n` tokens. */
    method Trim(n: nat)
      modifies this`states
      ensures |states| == |old(states)|
      ensures forall i :: 0 <= i < |states| ==>
                states[i] == if canTrim(i, old(states)[i]) then DropLast(old(states)[i], n) else old(states)[i]
    {
      for i := 0 to |states|
        invariant |states| == |old(states)|
        invariant forall j :: 0 <= j < i ==>
                    states[j] == if canTrim(j, old(states)[j]) then DropLast(old(states)[j], n) else old(states)[j]
        invariant forall j :: i <= j < |states| ==> states[j] == old(states)[j]
      {
        if canTrim(i, states[i]) {
          states := states[i := DropLast(states[i], n)];
        }
      }
    }
  }

  /** The number of chunks that the prefill loop feeds. */
  function Chunks(n: nat, size: nat): (c: nat)
    requires size >= 2
  {
    if n <= 1 then 0 else if n <= size then 1 else 1 + Chunks(n - size, size)
  }

  /** The chunk count in closed form: all but the last prompt token, divided into pieces of `size`. */
  lemma {:induction false} ChunksClosedForm(n: nat, size: nat)
    requires size >= 2 && n >= 1
    ensures (Chunks(n, size) - 1) * size < n - 1 || n == 1
    ensures n - 1 <= Chunks(n, size) * size
  {
    if n > size {
      ChunksClosedForm(n - size, size);
      assert Chunks(n, size) * size == Chunks(n - size, size) * size + size;
      assert (Chunks(n, size) - 1) * size == (Chunks(n - size, size) - 1) * size + size;
    }
  }

  /** The tokens without the first one of every chunk. */
  function ChunkTails(tokens: seq<Token>, size: nat): seq<Token>
    requires size >= 2
  {
    if tokens == [] then []
    else if |tokens| <= size then tokens[1..]
    else tokens[1..size] + ChunkTails(tokens[size..], size)
  }

  /** One token is missing per chunk. */
  lemma {:induction false} ChunkTailsLength(tokens: seq<Token>, size: nat)
    requires size >= 2
    ensures |ChunkTails(tokens, size)| + Chunks(|tokens| + 1, size) == |tokens|
    decreases |tokens|
  {
    if |tokens| <= size {
    } else {
      ChunkTailsLength(tokens[size..], size);
    }
  }

  /** The token at offset `o` of chunk `c` is behind the `size - 1` tokens of each chunk before and the `o - 1` of its
      own. */
  lemma {:induction false} ChunkTailsAt(tokens: seq<Token>, size: nat, c: nat, o: nat)
    requires size >= 2 && 0 < o < size && c * size + o < |tokens|
    ensures var k := c * (size - 1) + o - 1;
      0 <= k < |ChunkTails(tokens, size)| && ChunkTails(tokens, size)[k] == tokens[c * size + o]
    decreases c
  {
    if c == 0 {
    } else {
      assert c * size == (c - 1) * size + size && (c - 1) * size >= 0;
      assert c * (size - 1) == (c - 1) * (size - 1) + (size - 1) && (c - 1) * (size - 1) >= 0;
      ChunkTailsAt(tokens[size..], size, c - 1, o);
    }
  }

  /** All but the last prompt token fed; the drafter's caches miss the first token of every chunk. */
  ghost predicate Prefilled(backbone: States, mtp: States, prompt: seq<Token>, size: nat)
    requires size >= 2 && prompt != []
  {
    && (forall j :: 0 <= j < |backbone| ==> backbone[j] == prompt[..|prompt| - 1])
    && (forall j :: 0 <= j < |mtp| ==> mtp[j] == ChunkTails(prompt[..|prompt| - 1], size))
  }

  /** What the prefill loop has fed when its next chunk starts at `i`. */
  ghost predicate Fed(backbone: States, mtp: States, prompt: seq<Token>, size: nat, i: nat)
    requires size >= 2 && prompt != []
  {
    if i >= |prompt| then Prefilled(backbone, mtp, prompt, size)
    else
      && (forall j :: 0 <= j < |backbone| ==> backbone[j] == prompt[..i])
      && (forall j :: 0 <= j < |mtp| ==>
            mtp[j] + ChunkTails(prompt[i..|prompt| - 1], size) == ChunkTails(prompt[..|prompt| - 1], size))
  }

  /** The chunk at `i` without the prompt's last token. */
  function Feedable(prompt: seq<Token>, size: nat, i: nat): seq<Token>
    requires size >= 2 && i + 1 < |prompt|
  {
    if i + size >= |prompt| then prompt[i..|prompt| - 1] else prompt[i..i + size]
  }

  /** Feeding one more chunk. */
  lemma TailsNext(prompt: seq<Token>, size: nat, i: nat)
    requires size >= 2 && i + 1 < |prompt|
    ensures var yy := Feedable(prompt, size, i);
      && yy != []
      && ChunkTails(prompt[i..|prompt| - 1], size)
         == yy[1..] + (if i + size >= |prompt| then [] else ChunkTails(prompt[i + size..|prompt| - 1], size))
  {
    hide ChunkTails;
    var rest := prompt[i..|prompt| - 1];
    TailsStep(rest, size);
    if |rest| > size {
      assert rest[..size] == prompt[i..i + size] && rest[1..size] == rest[..size][1..];
      assert rest[size..] == prompt[i + size..|prompt| - 1];
    } else if |rest| == size {
      assert prompt[i + size..|prompt| - 1] == [];
      assert rest == prompt[i..i + size];
    }
  }

  lemma TailsStep(tokens: seq<Token>, size: nat)
    requires size >= 2 && tokens != []
    ensures ChunkTails(tokens, size)
         == if |tokens| <= size then tokens[1..] else tokens[1..size] + ChunkTails(tokens[size..], size)
    ensures ChunkTails([], size) == []
  {
  }

  lemma FedNext(backbone: States, mtp: States, prompt: seq<Token>, size: nat, i: nat)
    requires size >= 2 && i + 1 < |prompt|
    requires Fed(backbone, mtp, prompt, size, i)
    ensures var yy := Feedable(prompt, size, i);
      yy != [] && Fed(ExtendAll(backbone, yy), ExtendAll(mtp, yy[1..]), prompt, size, i + size)
  {
    hide ChunkTails;
    var yy := Feedable(prompt, size, i);
    TailsNext(prompt, size, i);
    assert prompt[..i] + yy == if i + size >= |prompt| then prompt[..|prompt| - 1] else prompt[..i + size];
    forall j | 0 <= j < |mtp|
      ensures mtp[j] + yy[1..] + (if i + size >= |prompt| then [] else ChunkTails(prompt[i + size..|prompt| - 1], size))
           == ChunkTails(prompt[..|prompt| - 1], size)
    {
      assert mtp[j] + ChunkTails(prompt[i..|prompt| - 1], size) == ChunkTails(prompt[..|prompt| - 1], size);
    }
  }

  lemma FedEnough(backbone: States, mtp: States, prompt: seq<Token>, size: nat, i: nat)
    requires size >= 2 && prompt != [] && i + 1 >= |prompt|
    requires Fed(backbone, mtp, prompt, size, i)
    ensures Prefilled(backbone, mtp, prompt, size)
    ensures forall j :: 0 <= j < |backbone| ==> backbone[j] == prompt[..|prompt| - 1]
    ensures forall j :: 0 <= j < |mtp| ==> mtp[j] == ChunkTails(prompt[..|prompt| - 1], size)
  {
    if i < |prompt| {
      assert prompt[i..|prompt| - 1] == [];
    }
  }

  lemma NothingFed(backbone: States, mtp: States, prompt: seq<Token>, size: nat)
    requires size >= 2 && prompt != []
    requires forall i :: 0 <= i < |backbone| ==> backbone[i] == []
    requires forall i :: 0 <= i < |mtp| ==> mtp[i] == []
    ensures Fed(backbone, mtp, prompt, size, 0)
  {
    assert prompt[0..|prompt| - 1] == prompt[..|prompt| - 1];
    var tails := ChunkTails(prompt[..|prompt| - 1], size);
    assert [] + tails == tails;
  }

  /** Chunked prefill: whatever the prompt length, every backbone layer consumes all but the last prompt token, and the
      drafter's caches all of these but the first of every chunk. */
  method Prefill(next: LayeredModel, backbone: CacheList, mtp: CacheList, prompt: seq<Token>, size: nat)
    requires size >= 2 && prompt != []
    requires backbone != mtp
    requires forall i :: 0 <= i < |backbone.states| ==> backbone.states[i] == []
    requires forall i :: 0 <= i < |mtp.states| ==> mtp.states[i] == []
    modifies backbone`states, mtp`states
    ensures |backbone.states| == |old(backbone.states)| && |mtp.states| == |old(mtp.states)|
    ensures Prefilled(backbone.states, mtp.states, prompt, size)
    ensures forall j :: 0 <= j < |backbone.states| ==> backbone.states[j] == prompt[..|prompt| - 1]
    ensures forall j :: 0 <= j < |mtp.states| ==> mtp.states[j] == ChunkTails(prompt[..|prompt| - 1], size)
  {
    hide Fed, Prefilled, ChunkTails;
    var i := 0;
    NothingFed(backbone.states, mtp.states, prompt, size);
    while i < |prompt|
      invariant 0 <= i && |backbone.states| == |old(backbone.states)| && |mtp.states| == |old(mtp.states)|
      invariant Fed(backbone.states, mtp.states, prompt, size, i)
    {
      var chunk := if i + size <= |prompt| then prompt[i..i + size] else prompt[i..];
      if |chunk| <= 1 {
        break;
      }
      var yy := if i + size >= |prompt| then chunk[..|chunk| - 1] else chunk;
      if |yy| == 0 {
        break;
      }
      assert yy == Feedable(prompt, size, i);
      FedNext(backbone.states, mtp.states, prompt, size, i);
      var pred := backbone.Forward(next, yy);
      if |chunk| > 1 {
        mtp.Consume(yy[1..]);
      }
      i := i + size;
    }
    FedEnough(backbone.states, mtp.states, prompt, size, i);
  }

  /** Accepted and total verifications of one draft position. */
  datatype Counter = Counter(accepted: nat, total: nat)
  type Counters = map<nat, Counter>

  function Lookup(counters: Counters, p: nat): Counter {
    if p in counters then counters[p] else Counter(0, 0)
  }

  /** Position `p` is looked at when the `p - 1` drafts before it were accepted, and has a counter once it has been
      looked at. */
  ghost predicate CounterAt(counters: Counters, runs: seq<nat>, depth: nat, p: nat) {
    && (p in counters <==> 1 <= p <= depth && AtLeast(runs, p - 1) > 0)
    && (1 <= p <= depth ==> Lookup(counters, p) == Counter(AtLeast(runs, p), AtLeast(runs, p - 1)))
  }

  /** The counters after rounds with the given accepted counts. */
  ghost predicate CountersOf(counters: Counters, runs: seq<nat>, depth: nat) {
    forall p: nat :: CounterAt(counters, runs, depth, p)
  }

  /** `updated` counts one more round in which the positions up to `looked` were looked at and those up to `accepted`
      accepted. */
  ghost predicate LookedAt(counters: Counters, updated: Counters, accepted: nat, looked: nat, p: nat) {
    && (p in updated <==> p in counters || 1 <= p <= looked)
    && Lookup(updated, p).accepted == Lookup(counters, p).accepted + (if 1 <= p <= accepted then 1 else 0)
    && Lookup(updated, p).total == Lookup(counters, p).total + (if 1 <= p <= looked then 1 else 0)
  }

  ghost predicate OneMoreRound(counters: Counters, updated: Counters, accepted: nat, looked: nat) {
    forall p: nat :: LookedAt(counters, updated, accepted, looked, p)
  }

  lemma LookAtNext(counters: Counters, before: Counters, after: Counters, i: nat, accepted: nat)
    requires OneMoreRound(counters, before, i, i)
    requires i <= accepted <= i + 1
    requires after == before[i + 1 := Counter(Lookup(before, i + 1).accepted + accepted - i,
                                              Lookup(before, i + 1).total + 1)]
    ensures OneMoreRound(counters, after, accepted, i + 1)
  {
    var looked := i + 1;
    forall p: nat ensures LookedAt(counters, after, accepted, looked, p) {
      assert LookedAt(counters, before, i, i, p);
    }
  }

  lemma CountersAfterRound(counters: Counters, updated: Counters, runs: seq<nat>, accepted: nat, depth: nat, looked: nat)
    requires CountersOf(counters, runs, depth)
    requires OneMoreRound(counters, updated, accepted, looked)
    requires accepted <= depth && looked == Min(accepted + 1, depth)
    ensures CountersOf(updated, runs + [accepted], depth)
  {
    forall p: nat
      ensures CounterAt(updated, runs + [accepted], depth, p)
    {
      assert CounterAt(counters, runs, depth, p);
      assert LookedAt(counters, updated, accepted, looked, p);
      AtLeastSnoc(runs, accepted, p);
      AtLeastSnoc(runs, accepted, p - 1);
      AtLeastDifference(runs, p - 1);
    }
  }

  lemma NoRoundYet(depth: nat)
    ensures CountersOf(map[], [], depth)
  {
  }

  /** The verification loop: counts the leading drafts that the backbone agrees with. */
  method CheckDrafts(pred: seq<Token>, drafts: seq<Token>, counters: Counters, ghost runs: seq<nat>)
    returns (accepted: nat, updated: Counters)
    requires |pred| == |drafts| + 1
    requires CountersOf(counters, runs, |drafts|)
    ensures accepted <= |drafts|
    ensures forall i :: 0 <= i < accepted ==> drafts[i] == pred[i]
    ensures accepted < |drafts| ==> drafts[accepted] != pred[accepted]
    ensures CountersOf(updated, runs + [accepted], |drafts|)
  {
    accepted, updated := 0, counters;
    ghost var looked: nat := 0;
    var i := 0;
    while i < |drafts|
      invariant 0 <= i <= |drafts| && accepted == looked == i
      invariant forall j :: 0 <= j < i ==> drafts[j] == pred[j]
      invariant OneMoreRound(counters, updated, accepted, looked)
    {
      ghost var before := updated;
      var pos := i + 1;
      looked := pos;
      if pos !in updated {
        updated := updated[pos := Counter(0, 0)];
      }
      if pred[i] == drafts[i] {
        accepted := accepted + 1;
        updated := updated[pos := Counter(updated[pos].accepted + 1, updated[pos].total + 1)];
        LookAtNext(counters, before, updated, i, accepted);
      } else {
        updated := updated[pos := Counter(updated[pos].accepted, updated[pos].total + 1)];
        LookAtNext(counters, before, updated, i, accepted);
        break;
      }
      i := i + 1;
    }
    CountersAfterRound(counters, updated, runs, accepted, |drafts|, looked);
  }

  function Proposed(head: DraftHead, round: nat, depth: nat): (drafts: seq<Token>)
    ensures |drafts| == depth
  {
    seq(depth, d requires 0 <= d < depth => head(round, d))
  }

  /** What the draft head has been shown after `d` steps: the main token and the drafts but the last. */
  function Shown(head: DraftHead, round: nat, main: Token, d: nat): (shown: seq<Token>)
    ensures |shown| == d
  {
    if d == 0 then [] else if d == 1 then [main] else Shown(head, round, main, d - 1) + [head(round, d - 2)]
  }

  /** The head's tokens of a round, one per depth, and what it is shown for them. */
  lemma {:induction false} ShownAre(head: DraftHead, round: nat, main: Token, depth: nat)
    ensures forall d :: 0 <= d < depth ==> Proposed(head, round, depth)[d] == head(round, d)
    ensures Shown(head, round, main, depth) == ([main] + Proposed(head, round, depth))[..depth]
    decreases depth
  {
    if depth == 0 {
    } else {
      ShownAre(head, round, main, depth - 1);
      var drafts, before := Proposed(head, round, depth), Proposed(head, round, depth - 1);
      assert drafts[..depth - 1] == before;
      assert ([main] + drafts)[..depth - 1] == ([main] + before)[..depth - 1];
      assert depth >= 2 ==> ([main] + drafts)[..depth] == ([main] + drafts)[..depth - 1] + [head(round, depth - 2)];
    }
  }

  /** What one round computes from the layers' states: a main token, the longest draft prefix that the backbone
      agrees with, and the backbone's own next token after it. */
  ghost predicate RoundOutcome(next: LayeredModel, states: States, y: Token, drafts: seq<Token>,
                               main: Token, accepted: nat, y': Token)
  {
    && accepted <= |drafts|
    && main == next(ExtendAll(states, [y]))
    && (forall i :: 0 <= i < accepted ==> drafts[i] == next(ExtendAll(states, [y, main] + drafts[..i])))
    && y' == next(ExtendAll(states, [y, main] + drafts[..accepted]))
    && (accepted < |drafts| ==> drafts[accepted] != y')
  }

  /** Every layer was fed `tokens`; those that could then be trimmed kept the first `keep` of them, the others all. */
  ghost predicate GrownBy(canTrim: Trimmability, before: States, after: States, tokens: seq<Token>, keep: nat)
    requires keep <= |tokens|
  {
    && |before| == |after|
    && forall i :: 0 <= i < |before| ==>
         after[i] == before[i] + (if canTrim(i, before[i] + tokens) then tokens[..keep] else tokens)
  }

  /** The drafting loop. */
  method DraftTokens(head: DraftHead, round: nat, depth: nat, mtp: CacheList, main: Token)
    returns (drafts: seq<Token>)
    modifies mtp`states
    ensures drafts == Proposed(head, round, depth)
    ensures mtp.states == ExtendAll(old(mtp.states), Shown(head, round, main, depth))
  {
    drafts := [];
    var prev := main;
    ExtendTwice(mtp.states, [], []);
    for d := 0 to depth
      invariant |drafts| == d && forall i :: 0 <= i < d ==> drafts[i] == head(round, i)
      invariant prev == if d == 0 then main else head(round, d - 1)
      invariant mtp.states == ExtendAll(old(mtp.states), Shown(head, round, main, d))
    {
      mtp.Consume([prev]);
      ExtendTwice(old(mtp.states), Shown(head, round, main, d), [prev]);
      prev := head(round, d);
      drafts := drafts + [prev];
    }
  }

  /** Reading the verification input after `y` is reading all of it at once. */
  lemma VerifyPredictions(next: LayeredModel, states: States, y: Token, main: Token, drafts: seq<Token>,
                          pred: seq<Token>)
    requires |pred| == |drafts| + 1
    requires forall i :: 0 <= i < |pred| ==>
               pred[i] == next(ExtendAll(ExtendAll(states, [y]), ([main] + drafts)[..i + 1]))
    ensures forall i :: 0 <= i <= |drafts| ==> pred[i] == next(ExtendAll(states, [y, main] + drafts[..i]))
    ensures ExtendAll(ExtendAll(states, [y]), [main] + drafts) == ExtendAll(states, [y, main] + drafts)
  {
    forall i | 0 <= i <= |drafts|
      ensures pred[i] == next(ExtendAll(states, [y, main] + drafts[..i]))
    {
      ExtendTwice(states, [y], ([main] + drafts)[..i + 1]);
      assert [y] + ([main] + drafts)[..i + 1] == [y, main] + drafts[..i];
    }
    ExtendTwice(states, [y], [main] + drafts);
    assert [y] + ([main] + drafts) == [y, main] + drafts;
  }

  /** Rolling back by what was fed beyond `keep`. */
  lemma RolledBack(canTrim: Trimmability, before: States, after: States, fed: seq<Token>, keep: nat, n: nat)
    requires |before| == |after| && |fed| == keep + n
    requires forall i :: 0 <= i < |after| ==>
               after[i] == if canTrim(i, ExtendAll(before, fed)[i]) then DropLast(ExtendAll(before, fed)[i], n)
                           else ExtendAll(before, fed)[i]
    ensures GrownBy(canTrim, before, after, fed, keep)
  {
    forall i | 0 <= i < |before| && canTrim(i, before[i] + fed)
      ensures after[i] == before[i] + fed[..keep]
    {
      assert DropLast(before[i] + fed, n) == before[i] + fed[..keep];
    }
  }

  lemma NotRolledBack(canTrim: Trimmability, before: States, fed: seq<Token>)
    ensures GrownBy(canTrim, before, ExtendAll(before, fed), fed, |fed|)
  {
    assert fed[..|fed|] == fed;
  }

  /** One round: a backbone step, a draft cascade, a verification pass and the roll-back of rejected drafts. */
  method Round(next: LayeredModel, head: DraftHead, round: nat, depth: nat, backbone: CacheList, mtp: CacheList,
               y: Token, counters: Counters, ghost runs: seq<nat>)
    returns (y': Token, accepted: nat, updated: Counters, ghost main: Token)
    requires backbone != mtp
    requires CountersOf(counters, runs, depth)
    modifies backbone`states, mtp`states
    ensures accepted <= depth
    ensures RoundOutcome(next, old(backbone.states), y, Proposed(head, round, depth), main, accepted, y')
    ensures CountersOf(updated, runs + [accepted], depth)
    ensures GrownBy(backbone.canTrim, old(backbone.states), backbone.states,
                    [y, main] + Proposed(head, round, depth), accepted + 2)
    ensures GrownBy(mtp.canTrim, old(mtp.states), mtp.states, Shown(head, round, main, depth), accepted)
  {
    hide CountersOf, GrownBy, Shown, Proposed;
    ghost var states, shown := backbone.states, mtp.states;
    var pred := backbone.Forward(next, [y]);
    assert [y][..1] == [y];
    var mainTok := pred[0];
    main := mainTok;
    var drafts := DraftTokens(head, round, depth, mtp, mainTok);
    pred := backbone.Forward(next, [mainTok] + drafts);
    VerifyPredictions(next, states, y, main, drafts, pred);
    accepted, updated := CheckDrafts(pred, drafts, counters, runs);
    y' := pred[accepted];
    ghost var fed := [y, main] + drafts;
    ghost var cascade := Shown(head, round, main, depth);
    var trim := depth - accepted;
    if trim > 0 {
      backbone.Trim(trim);
      mtp.Trim(trim);
      RolledBack(backbone.canTrim, states, backbone.states, fed, accepted + 2, trim);
      RolledBack(mtp.canTrim, shown, mtp.states, cascade, accepted, trim);
    } else {
      NotRolledBack(backbone.canTrim, states, fed);
      NotRolledBack(mtp.canTrim, shown, cascade);
    }
  }

  lemma UniformAt(next: LayeredModel, layers: nat, c: seq<Token>, tokens: seq<Token>)
    ensures Uniform(next, layers)(c + tokens) == next(ExtendAll(seq(layers, i => c), tokens))
  {
    assert ExtendAll(seq(layers, i => c), tokens) == seq(layers, i => c + tokens);
  }

  /** A round on layers that all stand at `c` continues `c + [y]` by the main token, the accepted drafts and one
      token more. */
  lemma RoundContinues(next: LayeredModel, layers: nat, c: seq<Token>, y: Token, drafts: seq<Token>, main: Token,
                       accepted: nat, y': Token)
    requires RoundOutcome(next, seq(layers, i => c), y, drafts, main, accepted, y')
    ensures c + [y, main] + drafts[..accepted] + [y']
         == Continue(Uniform(next, layers), c + [y], accepted + 2)
  {
    var tokens := [main] + drafts[..accepted] + [y'];
    UniformAt(next, layers, c, [y]);
    forall i | 0 <= i < |tokens|
      ensures tokens[i] == Uniform(next, layers)(c + [y] + tokens[..i])
    {
      if i == 0 {
        assert c + [y] + tokens[..0] == c + [y];
      } else {
        assert tokens[..i] == [main] + drafts[..i - 1];
        assert c + [y] + tokens[..i] == c + ([y, main] + drafts[..i - 1]);
        UniformAt(next, layers, c, [y, main] + drafts[..i - 1]);
      }
    }
    GreedyRun(Uniform(next, layers), c + [y], tokens);
    assert c + [y] + tokens == c + [y, main] + drafts[..accepted] + [y'];
  }

  /** For every layer the number of rejected draft tokens that it still contains. */
  type Stale = seq<nat>

  /** Where every layer stands: its share of the accepted tokens, and its stale ones on top. */
  ghost predicate Lengths(states: States, start: int, accepted: nat, stale: Stale) {
    |stale| == |states| && forall i :: 0 <= i < |states| ==> |states[i]| == start + accepted + stale[i]
  }

  /** The stale tokens after one more round. */
  function StaleAfter(canTrim: Trimmability, states: States, stale: Stale, fed: seq<Token>, keep: nat): (r: Stale)
    requires |stale| == |states| && keep <= |fed|
    ensures |r| == |stale|
  {
    seq(|stale|, i requires 0 <= i < |stale| =>
          stale[i] + if canTrim(i, states[i] + fed) then 0 else |fed| - keep)
  }

  ghost predicate AlwaysTrims(canTrim: Trimmability, i: nat) {
    forall state :: canTrim(i, state)
  }

  ghost predicate NeverTrims(canTrim: Trimmability, i: nat) {
    forall state :: !canTrim(i, state)
  }

  /** Rejected tokens are never forgotten by a layer that can never be trimmed, and always by one that always can. */
  ghost predicate StaleWithin(canTrim: Trimmability, stale: Stale, rejected: int) {
    forall i :: 0 <= i < |stale| ==>
      && stale[i] <= rejected
      && (AlwaysTrims(canTrim, i) ==> stale[i] == 0)
      && (NeverTrims(canTrim, i) ==> stale[i] == rejected)
  }

  ghost predicate NoneStale(stale: Stale) {
    forall i :: 0 <= i < |stale| ==> stale[i] == 0
  }

  /** The layers and the pending token `y` spell out the greedy continuation of the prompt by `n` tokens. */
  ghost predicate GreedyState(next: LayeredModel, states: States, y: Token, prompt: seq<Token>, n: nat) {
    forall i :: 0 <= i < |states| ==> states[i] + [y] == Continue(Uniform(next, |states|), prompt, n)
  }

  /** A round after which no layer has stale tokens. */
  lemma GreedyStateStep(next: LayeredModel, canTrim: Trimmability, states: States, states': States, y: Token,
                        prompt: seq<Token>, n: nat, drafts: seq<Token>, main: Token, accepted: nat, y': Token,
                        stale: Stale)
    requires |stale| == |states| && accepted <= |drafts|
    requires NoneStale(StaleAfter(canTrim, states, stale, [y, main] + drafts, accepted + 2))
    requires GreedyState(next, states, y, prompt, n)
    requires RoundOutcome(next, states, y, drafts, main, accepted, y')
    requires GrownBy(canTrim, states, states', [y, main] + drafts, accepted + 2)
    ensures GreedyState(next, states', y', prompt, n + accepted + 2)
  {
    hide Continue, RoundOutcome;
    if |states| > 0 {
      var c, fed := states[0], [y, main] + drafts;
      SameLayers(next, states, y, prompt, n);
      RoundContinues(next, |states|, c, y, drafts, main, accepted, y');
      ContinueTwice(Uniform(next, |states|), prompt, n, accepted + 2);
      var kept := fed[..accepted + 2];
      assert c + kept + [y'] == c + [y, main] + drafts[..accepted] + [y'];
      forall i | 0 <= i < |states'|
        ensures states'[i] + [y'] == Continue(Uniform(next, |states|), prompt, n + accepted + 2)
      {
        assert StaleAfter(canTrim, states, stale, fed, accepted + 2)[i] == 0;
        assert fed[..|fed|] == fed;
        assert states'[i] == c + kept;
      }
    }
  }

  lemma NoneStaleBefore(canTrim: Trimmability, states: States, stale: Stale, fed: seq<Token>, keep: nat)
    requires |stale| == |states| && keep <= |fed|
    requires NoneStale(StaleAfter(canTrim, states, stale, fed, keep))
    ensures NoneStale(stale)
  {
    forall i | 0 <= i < |stale| ensures stale[i] == 0 {
      assert StaleAfter(canTrim, states, stale, fed, keep)[i] == 0;
    }
  }

  /** Stale tokens show in the length, so with any of them the layers are off the greedy continuation. */
  lemma StaleIsNotGreedy(next: LayeredModel, states: States, y: Token, prompt: seq<Token>, n: nat, start: int,
                         accepted: nat, stale: Stale)
    requires Lengths(states, start, accepted, stale) && start + accepted + 1 == |prompt| + n
    requires GreedyState(next, states, y, prompt, n)
    ensures NoneStale(stale)
  {
    forall i | 0 <= i < |stale| ensures stale[i] == 0 {
      assert |states[i] + [y]| == |Continue(Uniform(next, |states|), prompt, n)|;
    }
  }

  lemma SameLayers(next: LayeredModel, states: States, y: Token, prompt: seq<Token>, n: nat)
    requires |states| > 0 && GreedyState(next, states, y, prompt, n)
    ensures states == seq(|states|, i => states[0])
    ensures states[0] + [y] == Continue(Uniform(next, |states|), prompt, n)
  {
    hide Continue;
    forall i | 0 <= i < |states| ensures states[i] == states[0] {
      assert states[i] == (states[i] + [y])[..|states[i]|];
      assert states[0] == (states[0] + [y])[..|states[0]|];
    }
  }

  lemma LengthsStep(canTrim: Trimmability, before: States, after: States, start: int,
                    accepted: nat, stale: Stale, fed: seq<Token>, keep: nat, extra: nat, n: nat)
    requires keep <= |fed| && keep == n + extra
    requires Lengths(before, start, accepted, stale)
    requires GrownBy(canTrim, before, after, fed, keep)
    ensures Lengths(after, start + extra, accepted + n, StaleAfter(canTrim, before, stale, fed, keep))
  {
  }

  lemma StaleWithinStep(canTrim: Trimmability, states: States, stale: Stale, rejected: int, fed: seq<Token>, keep: nat)
    requires |stale| == |states| && keep <= |fed| && StaleWithin(canTrim, stale, rejected)
    ensures StaleWithin(canTrim, StaleAfter(canTrim, states, stale, fed, keep), rejected + |fed| - keep)
  {
  }

  /** The state between two rounds. */
  ghost predicate Between(next: LayeredModel, canTrim: Trimmability, mtpCanTrim: Trimmability, states: States,
                          shown: States, prompt: seq<Token>, depth: nat, round: nat, y: Token, runs: seq<nat>,
                          accepted: nat, drafted: nat, stale: Stale, mtpStale: Stale)
    requires prompt != []
  {
    && |runs| == round && (forall i :: 0 <= i < |runs| ==> runs[i] <= depth)
    && accepted == Sum(runs) && drafted == depth * round
    && (NoneStale(stale) ==> GreedyState(next, states, y, prompt, accepted + 2 * round))
    && Lengths(states, |prompt| - 1 + 2 * round, accepted, stale)
    && Lengths(shown, |prompt| - 1 - Chunks(|prompt|, PREFILL_SIZE), accepted, mtpStale)
    && StaleWithin(canTrim, stale, drafted - accepted) && StaleWithin(mtpCanTrim, mtpStale, drafted - accepted)
  }

  lemma BetweenStep(next: LayeredModel, canTrim: Trimmability, mtpCanTrim: Trimmability, states: States, shown: States,
                    states': States, shown': States, prompt: seq<Token>, depth: nat, round: nat,
                    y: Token, runs: seq<nat>, accepted: nat, drafted: nat, stale: Stale, mtpStale: Stale,
                    drafts: seq<Token>, cascade: seq<Token>, main: Token, n: nat, y': Token)
    requires prompt != [] && |drafts| == |cascade| == depth && n <= depth
    requires Between(next, canTrim, mtpCanTrim, states, shown, prompt, depth, round, y, runs, accepted, drafted,
                     stale, mtpStale)
    requires RoundOutcome(next, states, y, drafts, main, n, y')
    requires GrownBy(canTrim, states, states', [y, main] + drafts, n + 2)
    requires GrownBy(mtpCanTrim, shown, shown', cascade, n)
    ensures |stale| == |states| && |mtpStale| == |shown|
    ensures Between(next, canTrim, mtpCanTrim, states', shown', prompt, depth, round + 1, y', runs + [n],
                    accepted + n, drafted + depth, StaleAfter(canTrim, states, stale, [y, main] + drafts, n + 2),
                    StaleAfter(mtpCanTrim, shown, mtpStale, cascade, n))
  {
    hide GreedyState, RoundOutcome, GrownBy, Chunks, Sum, StaleAfter, StaleWithin, NoneStale;
    SumSnoc(runs, n);
    var fed := [y, main] + drafts;
    var stale', mtpStale' := StaleAfter(canTrim, states, stale, fed, n + 2), StaleAfter(mtpCanTrim, shown, mtpStale, cascade, n);
    if NoneStale(stale') {
      NoneStaleBefore(canTrim, states, stale, fed, n + 2);
      GreedyStateStep(next, canTrim, states, states', y, prompt, accepted + 2 * round, drafts, main, n, y', stale);
      assert accepted + 2 * round + n + 2 == accepted + n + 2 * (round + 1);
    }
    var start := |prompt| - 1 + 2 * round;
    LengthsStep(canTrim, states, states', start, accepted, stale, fed, n + 2, 2, n);
    assert start + 2 == |prompt| - 1 + 2 * (round + 1);
    var mtpStart := |prompt| - 1 - Chunks(|prompt|, PREFILL_SIZE);
    LengthsStep(mtpCanTrim, shown, shown', mtpStart, accepted, mtpStale, cascade, n, 0, n);
    assert mtpStart + 0 == mtpStart;
    var rejected := drafted - accepted;
    StaleWithinStep(canTrim, states, stale, rejected, fed, n + 2);
    StaleWithinStep(mtpCanTrim, shown, mtpStale, rejected, cascade, n);
    assert rejected + |fed| - (n + 2) == rejected + |cascade| - n == drafted + depth - (accepted + n);
  }

  function Fresh(layers: nat): Stale {
    seq(layers, i => 0)
  }

  lemma PrefillStart(next: LayeredModel, canTrim: Trimmability, mtpCanTrim: Trimmability, states: States,
                     shown: States, prompt: seq<Token>, depth: nat)
    requires prompt != [] && Prefilled(states, shown, prompt, PREFILL_SIZE)
    ensures Between(next, canTrim, mtpCanTrim, states, shown, prompt, depth, 0, prompt[|prompt| - 1], [], 0, 0,
                    Fresh(|states|), Fresh(|shown|))
  {
    ChunkTailsLength(prompt[..|prompt| - 1], PREFILL_SIZE);
    hide ChunkTails, Chunks;
    assert prompt[..|prompt| - 1] + [prompt[|prompt| - 1]] == prompt;
  }

  lemma BetweenMeaning(next: LayeredModel, canTrim: Trimmability, mtpCanTrim: Trimmability, states: States,
                       shown: States, prompt: seq<Token>, depth: nat, round: nat, y: Token, runs: seq<nat>,
                       accepted: nat, drafted: nat, stale: Stale, mtpStale: Stale)
    requires prompt != []
    requires Between(next, canTrim, mtpCanTrim, states, shown, prompt, depth, round, y, runs, accepted, drafted,
                     stale, mtpStale)
    ensures |runs| == round && (forall i :: 0 <= i < |runs| ==> runs[i] <= depth)
    ensures accepted == Sum(runs) && drafted == depth * round
    ensures GreedyState(next, states, y, prompt, accepted + 2 * round) <==> NoneStale(stale)
    ensures Lengths(states, |prompt| - 1 + 2 * round, accepted, stale)
    ensures Lengths(shown, |prompt| - 1 - Chunks(|prompt|, PREFILL_SIZE), accepted, mtpStale)
    ensures StaleWithin(canTrim, stale, drafted - accepted) && StaleWithin(mtpCanTrim, mtpStale, drafted - accepted)
  {
    hide GreedyState, Lengths, NoneStale, StaleWithin;
    if GreedyState(next, states, y, prompt, accepted + 2 * round) {
      StaleIsNotGreedy(next, states, y, prompt, accepted + 2 * round, |prompt| - 1 + 2 * round, accepted, stale);
    }
  }

  /** What happened in every round: the layers' states and the pending token before it, its main token and drafts. */
  datatype Trace = Trace(froms: seq<States>, shown: seq<States>, ys: seq<Token>, mains: seq<Token>,
                         drafts: seq<seq<Token>>)
  {
    predicate Covers(rounds: nat) {
      |froms| == |shown| == |ys| == rounds + 1 && |mains| == |drafts| == rounds
    }
  }

  /** Round `r` of the trace is one that the head and the backbone can have had. */
  ghost predicate RecordedRound(t: Trace, next: LayeredModel, head: DraftHead, canTrim: Trimmability,
                                mtpCanTrim: Trimmability, depth: nat, rounds: nat, r: nat, n: nat)
    requires t.Covers(rounds) && r < rounds
  {
    && n <= |t.drafts[r]| == depth && (forall d :: 0 <= d < depth ==> t.drafts[r][d] == head(r, d))
    && RoundOutcome(next, t.froms[r], t.ys[r], t.drafts[r], t.mains[r], n, t.ys[r + 1])
    && GrownBy(canTrim, t.froms[r], t.froms[r + 1], [t.ys[r], t.mains[r]] + t.drafts[r], n + 2)
    && GrownBy(mtpCanTrim, t.shown[r], t.shown[r + 1], ([t.mains[r]] + t.drafts[r])[..depth], n)
  }

  ghost predicate Recorded(t: Trace, next: LayeredModel, head: DraftHead, canTrim: Trimmability,
                           mtpCanTrim: Trimmability, depth: nat, rounds: nat, runs: seq<nat>)
  {
    && t.Covers(rounds) && |runs| == rounds
    && forall r :: 0 <= r < rounds ==> RecordedRound(t, next, head, canTrim, mtpCanTrim, depth, rounds, r, runs[r])
  }

  function Extended(t: Trace, states: States, shown: States, y: Token, main: Token, drafts: seq<Token>): Trace {
    Trace(t.froms + [states], t.shown + [shown], t.ys + [y], t.mains + [main], t.drafts + [drafts])
  }

  lemma RecordedStep(t: Trace, next: LayeredModel, head: DraftHead, canTrim: Trimmability, mtpCanTrim: Trimmability,
                     depth: nat, rounds: nat, runs: seq<nat>, states: States, shown: States, y: Token, main: Token, n: nat)
    requires Recorded(t, next, head, canTrim, mtpCanTrim, depth, rounds, runs) && n <= depth
    requires t.Covers(rounds)
    requires RoundOutcome(next, t.froms[rounds], t.ys[rounds], Proposed(head, rounds, depth), main, n, y)
    requires GrownBy(canTrim, t.froms[rounds], states, [t.ys[rounds], main] + Proposed(head, rounds, depth), n + 2)
    requires GrownBy(mtpCanTrim, t.shown[rounds], shown, Shown(head, rounds, main, depth), n)
    ensures Recorded(Extended(t, states, shown, y, main, Proposed(head, rounds, depth)), next, head, canTrim, mtpCanTrim,
                     depth, rounds + 1, runs + [n])
  {
    hide RoundOutcome, GrownBy, Proposed, Shown;
    ShownAre(head, rounds, main, depth);
    var longer := Extended(t, states, shown, y, main, Proposed(head, rounds, depth));
    forall r | 0 <= r < rounds + 1
      ensures RecordedRound(longer, next, head, canTrim, mtpCanTrim, depth, rounds + 1, r, (runs + [n])[r])
    {
      if r < rounds {
        assert RecordedRound(t, next, head, canTrim, mtpCanTrim, depth, rounds, r, runs[r]);
      }
    }
  }

  function Started(states: States, shown: States, y: Token): Trace {
    Trace([states], [shown], [y], [], [])
  }

  lemma NothingRecorded(next: LayeredModel, head: DraftHead, canTrim: Trimmability, mtpCanTrim: Trimmability,
                        depth: nat, states: States, shown: States, y: Token)
    ensures Recorded(Started(states, shown, y), next, head, canTrim, mtpCanTrim, depth, 0, [])
  {
  }

  lemma TraceEnds(t: Trace, rounds: nat, states: States, shown: States, y: Token, main: Token, drafts: seq<Token>)
    requires t.Covers(rounds)
    ensures var longer := Extended(t, states, shown, y, main, drafts);
      && longer.Covers(rounds + 1)
      && |longer.froms| == |longer.shown| == |longer.ys| == rounds + 2
      && longer.froms[rounds + 1] == states && longer.shown[rounds + 1] == shown && longer.ys[rounds + 1] == y
      && longer.froms[0] == t.froms[0] && longer.shown[0] == t.shown[0] && longer.ys[0] == t.ys[0]
  {
  }

  lemma TraceStarts(states: States, shown: States, y: Token)
    ensures var t := Started(states, shown, y);
      t.Covers(0) && |t.froms| == |t.shown| == |t.ys| == 1 && t.froms[0] == states && t.shown[0] == shown && t.ys[0] == y
  {
  }

  lemma RecordedMeaning(t: Trace, next: LayeredModel, head: DraftHead, canTrim: Trimmability, mtpCanTrim: Trimmability,
                        depth: nat, rounds: nat, runs: seq<nat>)
    requires Recorded(t, next, head, canTrim, mtpCanTrim, depth, rounds, runs)
    ensures |t.froms| == |t.shown| == |t.ys| == rounds + 1 && |t.mains| == |t.drafts| == |runs| == rounds
    ensures forall r :: 0 <= r < rounds ==>
              |t.drafts[r]| == depth && forall d :: 0 <= d < depth ==> t.drafts[r][d] == head(r, d)
    ensures forall r :: 0 <= r < rounds ==>
              && |t.drafts[r]| == depth && runs[r] <= depth
              && RoundOutcome(next, t.froms[r], t.ys[r], t.drafts[r], t.mains[r], runs[r], t.ys[r + 1])
              && GrownBy(canTrim, t.froms[r], t.froms[r + 1], [t.ys[r], t.mains[r]] + t.drafts[r], runs[r] + 2)
              && GrownBy(mtpCanTrim, t.shown[r], t.shown[r + 1], ([t.mains[r]] + t.drafts[r])[..depth], runs[r])
  {
    hide RoundOutcome, GrownBy;
    forall r | 0 <= r < rounds
      ensures RecordedRound(t, next, head, canTrim, mtpCanTrim, depth, rounds, r, runs[r])
      ensures |t.drafts[r]| == depth && forall d :: 0 <= d < depth ==> t.drafts[r][d] == head(r, d)
    {
      assert RecordedRound(t, next, head, canTrim, mtpCanTrim, depth, rounds, r, runs[r]);
    }
  }

  /** The whole measurement.  `y` is the token that the next round would start from, `runs` the accepted count of
      every round, and `stale` and `mtpStale` say how many rejected tokens each layer still contains.  The layers spell
      out the greedy continuation of the prompt if and only if none does. */
  method MeasureAcceptAtK(next: LayeredModel, head: DraftHead, backbone: CacheList, mtp: CacheList,
                          prompt: seq<Token>, depth: nat, maxRounds: nat)
    returns (acceptedTotal: nat, draftedTotal: nat, perPosition: Counters, ghost y: Token, ghost runs: seq<nat>,
             ghost stale: Stale, ghost mtpStale: Stale, ghost trace: Trace)
    requires prompt != [] && backbone != mtp
    requires forall i :: 0 <= i < |backbone.states| ==> backbone.states[i] == []
    requires forall i :: 0 <= i < |mtp.states| ==> mtp.states[i] == []
    modifies backbone`states, mtp`states
    ensures |trace.froms| == |trace.shown| == |trace.ys| == maxRounds + 1
    ensures |trace.mains| == |trace.drafts| == |runs| == maxRounds
    ensures forall j :: 0 <= j < |trace.froms[0]| ==> trace.froms[0][j] == prompt[..|prompt| - 1]
    ensures forall j :: 0 <= j < |trace.shown[0]| ==> trace.shown[0][j] == ChunkTails(prompt[..|prompt| - 1], 2048)
    ensures trace.ys[0] == prompt[|prompt| - 1] && trace.ys[maxRounds] == y
    ensures trace.froms[maxRounds] == backbone.states && trace.shown[maxRounds] == mtp.states
    ensures forall r :: 0 <= r < maxRounds ==>
              |trace.drafts[r]| == depth && forall d :: 0 <= d < depth ==> trace.drafts[r][d] == head(r, d)
    ensures forall r :: 0 <= r < maxRounds ==>
              && |trace.drafts[r]| == depth && runs[r] <= depth
              && RoundOutcome(next, trace.froms[r], trace.ys[r], trace.drafts[r], trace.mains[r], runs[r], trace.ys[r + 1])
              && GrownBy(backbone.canTrim, trace.froms[r], trace.froms[r + 1],
                         [trace.ys[r], trace.mains[r]] + trace.drafts[r], runs[r] + 2)
              && GrownBy(mtp.canTrim, trace.shown[r], trace.shown[r + 1],
                         ([trace.mains[r]] + trace.drafts[r])[..depth], runs[r])
    ensures acceptedTotal == Sum(runs) && draftedTotal == depth * maxRounds
    ensures CountersOf(perPosition, runs, depth)
    ensures GreedyState(next, backbone.states, y, prompt, acceptedTotal + 2 * maxRounds) <==> NoneStale(stale)
    ensures Lengths(backbone.states, |prompt| - 1 + 2 * maxRounds, acceptedTotal, stale)
    ensures Lengths(mtp.states, |prompt| - 1 - Chunks(|prompt|, PREFILL_SIZE), acceptedTotal, mtpStale)
    ensures StaleWithin(backbone.canTrim, stale, draftedTotal - acceptedTotal)
    ensures StaleWithin(mtp.canTrim, mtpStale, draftedTotal - acceptedTotal)
  {
    hide *;
    PrefillSize();
    Prefill(next, backbone, mtp, prompt, PREFILL_SIZE);
    var tok := prompt[|prompt| - 1];
    acceptedTotal, draftedTotal, perPosition := 0, 0, map[];
    runs, stale, mtpStale := [], Fresh(|backbone.states|), Fresh(|mtp.states|);
    NoRoundYet(depth);
    PrefillStart(next, backbone.canTrim, mtp.canTrim, backbone.states, mtp.states, prompt, depth);
    trace := Started(backbone.states, mtp.states, tok);
    NothingRecorded(next, head, backbone.canTrim, mtp.canTrim, depth, backbone.states, mtp.states, tok);
    TraceStarts(backbone.states, mtp.states, tok);
    ghost var start, shownStart := backbone.states, mtp.states;
    for round := 0 to maxRounds
      invariant Between(next, backbone.canTrim, mtp.canTrim, backbone.states, mtp.states, prompt, depth, round,
                        tok, runs, acceptedTotal, draftedTotal, stale, mtpStale)
      invariant CountersOf(perPosition, runs, depth)
      invariant Recorded(trace, next, head, backbone.canTrim, mtp.canTrim, depth, round, runs)
      invariant trace.Covers(round) && |trace.froms| == |trace.shown| == |trace.ys| == round + 1
      invariant trace.froms[0] == start && trace.shown[0] == shownStart && trace.ys[0] == prompt[|prompt| - 1]
      invariant trace.froms[round] == backbone.states && trace.shown[round] == mtp.states && trace.ys[round] == tok
    {
      ghost var states, shown := backbone.states, mtp.states;
      var tok', accepted, updated;
      ghost var main;
      tok', accepted, updated, main := Round(next, head, round, depth, backbone, mtp, tok, perPosition, runs);
      ghost var drafts, cascade := Proposed(head, round, depth), Shown(head, round, main, depth);
      BetweenStep(next, backbone.canTrim, mtp.canTrim, states, shown, backbone.states, mtp.states, prompt, depth,
                  round, tok, runs, acceptedTotal, draftedTotal, stale, mtpStale, drafts, cascade, main, accepted, tok');
      RecordedStep(trace, next, head, backbone.canTrim, mtp.canTrim, depth, round, runs, backbone.states, mtp.states,
                   tok', main, accepted);
      TraceEnds(trace, round, backbone.states, mtp.states, tok', main, drafts);
      trace := Extended(trace, backbone.states, mtp.states, tok', main, drafts);
      runs := runs + [accepted];
      acceptedTotal := acceptedTotal + accepted;
      draftedTotal := draftedTotal + depth;
      perPosition := updated;
      stale := StaleAfter(backbone.canTrim, states, stale, [tok, main] + drafts, accepted + 2);
      mtpStale := StaleAfter(mtp.canTrim, shown, mtpStale, cascade, accepted);
      tok := tok';
    }
    BetweenMeaning(next, backbone.canTrim, mtp.canTrim, backbone.states, mtp.states, prompt, depth, maxRounds,
                   tok, runs, acceptedTotal, draftedTotal, stale, mtpStale);
    RecordedMeaning(trace, next, head, backbone.canTrim, mtp.canTrim, depth, maxRounds, runs);
    y := tok;
  }

  lemma PrefillSize()
    ensures PREFILL_SIZE == 2048
  {
  }

  /** With a layer that can never be trimmed, no layer is stale if and only if no draft was rejected, whatever the
      depth. */
  lemma RecurrentLayerStale(canTrim: Trimmability, stale: Stale, rejected: nat, i: nat)
    requires StaleWithin(canTrim, stale, rejected) && i < |stale| && NeverTrims(canTrim, i)
    ensures NoneStale(stale) <==> rejected == 0
  {
  }

  /** The acceptance counts of two rounds from a given state. */
  ghost predicate TwoRounds(next: LayeredModel, canTrim: Trimmability, start: States, y: Token,
                            first: seq<Token>, second: seq<Token>, accepted1: nat, accepted2: nat)
  {
    exists main1, y1, states, main2, y2 ::
      && RoundOutcome(next, start, y, first, main1, accepted1, y1)
      && GrownBy(canTrim, start, states, [y, main1] + first, accepted1 + 2)
      && RoundOutcome(next, states, y1, second, main2, accepted2, y2)
  }

  /** Acceptance at depth one is not what it is with a layer that can be trimmed: after one rejected draft, a recurrent
      layer makes the backbone reject a draft that it would have accepted. */
  lemma DepthOneRatesDiffer() returns (next: LayeredModel, first: seq<Token>, second: seq<Token>)
    ensures |first| == |second| == 1
    ensures TwoRounds(next, (i, state) => true, [[]], 0, first, second, 0, 1)
    ensures TwoRounds(next, (i, state) => false, [[]], 0, first, second, 0, 0)
  {
    next := states => if states == [] then 0 else |states[0]|;
    first, second := [9], [4];
    assert RoundOutcome(next, [[]], 0, first, 1, 0, 2);
    var fed: seq<Token> := [0, 1, 9];
    assert [0, 1] + first == fed && fed[..2] == [0, 1];
    assert GrownBy((i, state) => true, [[]], [[0, 1]], [0, 1] + first, 2);
    assert GrownBy((i, state) => false, [[]], [fed], [0, 1] + first, 2);
    assert RoundOutcome(next, [[0, 1]], 2, second, 3, 1, 5);
    assert RoundOutcome(next, [fed], 2, second, 4, 0, 5);
  }

  /** The accepted counts of positions `1..depth` together. */
  function AcceptedOver(counters: Counters, depth: nat): nat {
    if depth == 0 then 0 else AcceptedOver(counters, depth - 1) + Lookup(counters, depth).accepted
  }

  /** The counters telescope: every round looks at position one, a position is looked at once per acceptance of the
      one before it, and the acceptances add up to the accepted drafts. */
  lemma CountersTelescope(counters: Counters, runs: seq<nat>, depth: nat)
    requires CountersOf(counters, runs, depth)
    requires forall i :: 0 <= i < |runs| ==> runs[i] <= depth
    ensures depth >= 1 ==> Lookup(counters, 1).total == |runs|
    ensures forall p: nat :: 1 <= p < depth ==> Lookup(counters, p + 1).total == Lookup(counters, p).accepted
    ensures AcceptedOver(counters, depth) == Sum(runs)
  {
    assert CounterAt(counters, runs, depth, 1);
    AtLeastZero(runs);
    forall p: nat | 1 <= p < depth
      ensures Lookup(counters, p + 1).total == Lookup(counters, p).accepted
    {
      assert CounterAt(counters, runs, depth, p) && CounterAt(counters, runs, depth, p + 1);
    }
    AcceptedByPosition(counters, runs, depth, depth);
    DoubleCounting(runs, depth);
    UncappedSum(runs, depth);
  }

  lemma {:induction false} AcceptedByPosition(counters: Counters, runs: seq<nat>, depth: nat, p: nat)
    requires CountersOf(counters, runs, depth) && p <= depth
    ensures AcceptedOver(counters, p) == ByPosition(runs, p)
  {
    if p == 0 {
    } else {
      AcceptedByPosition(counters, runs, depth, p - 1);
      assert CounterAt(counters, runs, depth, p);
    }
  }
}
