/** Assembling streamed tool calls from deltas (the streaming client of evals/run_eval.py). */
module ToolCalls {
  import opened Wrappers

  /** The `id` entry of a delta: absent, or present and perhaps null. */
  datatype IdField = Absent | Given(id: Option<string>)

  /** One tool-call delta; an absent index is zero, an absent name or argument text is `None`. */
  datatype Delta = Delta(index: int, id: IdField, name: Option<string>, arguments: Option<string>)

  datatype Call = Call(id: Option<string>, name: string, arguments: string)

  /** The id for a call that never gets one. */
  type DefaultId = int -> string

  predicate Truthy(s: Option<string>) {
    s.Some? && s.value != ""
  }

  predicate HasId(d: Delta) {
    d.id.Given? && Truthy(d.id.id)
  }

  /** The deltas of one index, in stream order. */
  function Own(deltas: seq<Delta>, index: int): seq<Delta> {
    if deltas == [] then []
    else
      var last := deltas[|deltas| - 1];
      Own(deltas[..|deltas| - 1], index) + (if last.index == index then [last] else [])
  }

  /** The last usable id; without one, what the first delta gives, or the default if it gives nothing. */
  function FinalId(own: seq<Delta>, default: string): Option<string>
    requires own != []
  {
    var last := own[|own| - 1];
    if HasId(last) then last.id.id
    else if |own| > 1 then FinalId(own[..|own| - 1], default)
    else if last.id.Given? then last.id.id
    else Some(default)
  }

  /** The last name that is not empty. */
  function FinalName(own: seq<Delta>): string {
    if own == [] then ""
    else if Truthy(own[|own| - 1].name) then own[|own| - 1].name.value
    else FinalName(own[..|own| - 1])
  }

  /** All argument text, in order. */
  function AllArguments(own: seq<Delta>): string {
    if own == [] then "" else AllArguments(own[..|own| - 1]) + own[|own| - 1].arguments.GetOr("")
  }

  /** The call that the deltas of one index describe. */
  function Described(own: seq<Delta>, default: string): Call
    requires own != []
  {
    Call(FinalId(own, default), FinalName(own), AllArguments(own))
  }

  /** The assembled name is the last one that is not empty, if there is one. */
  lemma {:induction false} NameIs(own: seq<Delta>, default: string, i: nat)
    requires i < |own|
    requires forall j :: i < j < |own| ==> own[j].name.GetOr("") == ""
    ensures own[i].name.GetOr("") != "" ==> Described(own, default).name == own[i].name.value
    ensures i == 0 && own[i].name.GetOr("") == "" ==> Described(own, default).name == ""
    decreases |own|
  {
    var n := |own| - 1;
    if i == n {
      assert n == 0 ==> own[..n] == [] && FinalName(own[..n]) == "";
    } else {
      NameIs(own[..n], default, i);
    }
  }

  /** The assembled id is the last one that is usable; without any, it is what the first delta gives, or the default if
      that gives nothing. */
  lemma {:induction false} IdIs(own: seq<Delta>, default: string, i: nat)
    requires i < |own|
    requires forall j :: i < j < |own| ==> own[j].id.Absent? || own[j].id.id.GetOr("") == ""
    ensures own[i].id.Given? && own[i].id.id.GetOr("") != "" ==> Described(own, default).id == own[i].id.id
    ensures i == 0 ==> Described(own, default).id == if own[0].id.Given? then own[0].id.id else Some(default)
    decreases |own|
  {
    var n := |own| - 1;
    if i == n {
    } else {
      IdIs(own[..n], default, i);
    }
  }

  /** The assembled argument text is all of them, one after the other. */
  lemma {:induction false} ArgumentsAre(a: seq<Delta>, b: seq<Delta>, default: string)
    requires a != []
    ensures b != [] ==>
      Described(a + b, default).arguments == Described(a, default).arguments + Described(b, default).arguments
    ensures |a| == 1 ==> Described(a, default).arguments == a[0].arguments.GetOr("")
  {
    AllArgumentsConcat(a, b);
    assert |a| == 1 ==> a[..0] == [] && "" + a[0].arguments.GetOr("") == a[0].arguments.GetOr("");
  }

  lemma {:induction false} AllArgumentsConcat(a: seq<Delta>, b: seq<Delta>)
    ensures AllArguments(a + b) == AllArguments(a) + AllArguments(b)
    decreases |b|
  {
    if b == [] {
      assert a + b == a;
    } else {
      var n := |b| - 1;
      AllArgumentsConcat(a, b[..n]);
      assert (a + b)[..|a + b| - 1] == a + b[..n];
    }
  }

  ghost predicate Increasing(s: seq<int>) {
    forall i, j :: 0 <= i < j < |s| ==> s[i] < s[j]
  }

  ghost predicate SameElements(s: seq<int>, t: set<int>) {
    forall i :: i in s <==> i in t
  }

  function IndicesOf(deltas: seq<Delta>): set<int> {
    set i | 0 <= i < |deltas| :: deltas[i].index
  }

  /** The result of a stream: one call per distinct index, in index order, each described by its own deltas. */
  ghost predicate Assembles(deltas: seq<Delta>, default: DefaultId, indices: seq<int>, calls: seq<Call>) {
    && Increasing(indices)
    && SameElements(indices, IndicesOf(deltas))
    && |calls| == |indices|
    && (forall j :: 0 <= j < |indices| ==>
          Own(deltas, indices[j]) != [] && calls[j] == Described(Own(deltas, indices[j]), default(indices[j])))
  }

  /** Applies one delta to the call under construction. */
  function Applied(call: Call, d: Delta): Call {
    Call(if HasId(d) then d.id.id else call.id,
         if Truthy(d.name) then d.name.value else call.name,
         if Truthy(d.arguments) then call.arguments + d.arguments.value else call.arguments)
  }

  function Opened(d: Delta, default: string): Call {
    Call(if d.id.Given? then d.id.id else Some(default), "", "")
  }

  lemma DescribedSnoc(own: seq<Delta>, d: Delta, default: string)
    ensures Described(own + [d], default)
         == Applied(if own == [] then Opened(d, default) else Described(own, default), d)
  {
    assert (own + [d])[..|own|] == own;
    assert AllArguments(own) + "" == AllArguments(own);
    assert AllArguments(own + [d]) == AllArguments(own) + d.arguments.GetOr("");
    assert FinalName(own + [d]) == if Truthy(d.name) then d.name.value else FinalName(own);
  }

  /** The calls under construction after some deltas. */
  ghost predicate Building(byIndex: map<int, Call>, deltas: seq<Delta>, default: DefaultId) {
    forall i :: (i in byIndex <==> Own(deltas, i) != [])
      && (i in byIndex ==> byIndex[i] == Described(Own(deltas, i), default(i)))
  }

  lemma BuildingSnoc(byIndex: map<int, Call>, deltas: seq<Delta>, default: DefaultId, d: Delta)
    requires Building(byIndex, deltas, default)
    ensures var call := if d.index in byIndex then byIndex[d.index] else Opened(d, default(d.index));
      Building(byIndex[d.index := Applied(call, d)], deltas + [d], default)
  {
    hide Described, Applied, Opened;
    var i := d.index;
    var call := if i in byIndex then byIndex[i] else Opened(d, default(i));
    var updated := byIndex[i := Applied(call, d)];
    assert (deltas + [d])[..|deltas|] == deltas;
    DescribedSnoc(Own(deltas, i), d, default(i));
    forall k
      ensures k in updated <==> Own(deltas + [d], k) != []
      ensures k in updated ==> updated[k] == Described(Own(deltas + [d], k), default(k))
    {
      if k != i {
        assert Own(deltas + [d], k) == Own(deltas, k);
      }
    }
  }

  lemma NothingBuilt(default: DefaultId)
    ensures Building(map[], [], default)
  {
  }

  /** The merge loop over all deltas of the stream. */
  method MergeDeltas(deltas: seq<Delta>, default: DefaultId) returns (byIndex: map<int, Call>)
    ensures Building(byIndex, deltas, default)
  {
    hide *;
    byIndex := map[];
    NothingBuilt(default);
    for n := 0 to |deltas|
      invariant Building(byIndex, deltas[..n], default)
    {
      var d := deltas[n];
      var idx := d.index;
      BuildingSnoc(byIndex, deltas[..n], default, d);
      assert deltas[..n + 1] == deltas[..n] + [d];
      ghost var before := byIndex;
      if idx !in byIndex {
        byIndex := byIndex[idx := Opened(d, default(idx))];
      }
      byIndex := byIndex[idx := Applied(byIndex[idx], d)];
      assert byIndex == before[idx := byIndex[idx]];
    }
    assert deltas[..|deltas|] == deltas;
  }

  /** The merge loop, and the calls in the order of their indices. */
  method Assemble(deltas: seq<Delta>, default: DefaultId) returns (calls: seq<Call>, indices: seq<int>)
    ensures Assembles(deltas, default, indices, calls)
  {
    hide Own, Described;
    var byIndex := MergeDeltas(deltas, default);
    forall i ensures i in byIndex.Keys <==> i in IndicesOf(deltas) {
      OwnIndices(deltas, i);
    }
    indices := SortedIndices(byIndex.Keys);
    calls := [];
    for j := 0 to |indices|
      invariant |calls| == j && forall k :: 0 <= k < j ==> indices[k] in byIndex && calls[k] == byIndex[indices[k]]
    {
      assert indices[j] in indices;
      calls := calls + [byIndex[indices[j]]];
    }
  }

  method SortedIndices(s: set<int>) returns (sorted: seq<int>)
    ensures Increasing(sorted) && SameElements(sorted, s)
  {
    sorted := [];
    var todo := s;
    while todo != {}
      invariant Increasing(sorted) && todo <= s
      invariant forall i :: i in sorted <==> i in s - todo
      invariant forall k, j :: 0 <= k < |sorted| && j in todo ==> sorted[k] < j
      decreases todo
    {
      ghost var witnessed := LeastOf(todo);
      var least :| least in todo && forall j :: j in todo ==> least <= j;
      todo := todo - {least};
      sorted := sorted + [least];
    }
  }

  lemma {:induction false} LeastOf(s: set<int>) returns (least: int)
    requires s != {}
    ensures least in s && forall j :: j in s ==> least <= j
  {
    if forall x :: x !in s {
      assert false;
    }
    var x :| x in s;
    if s == {x} {
      least := x;
    } else {
      var y := LeastOf(s - {x});
      least := if x < y then x else y;
      forall j | j in s ensures least <= j {
        if j != x { assert j in s - {x}; }
      }
    }
  }

  /** An increasing sequence ends in the greatest element; the others come before it. */
  lemma LastIsGreatest(s: seq<int>, elements: set<int>)
    requires s != [] && Increasing(s) && SameElements(s, elements)
    ensures var init, last := s[..|s| - 1], s[|s| - 1];
      && last in elements && (forall i :: i in elements ==> i <= last)
      && Increasing(init) && SameElements(init, elements - {last})
  {
    var init, last := s[..|s| - 1], s[|s| - 1];
    assert s == init + [last];
    assert last !in init;
  }

  lemma EmptySequence(elements: set<int>)
    requires SameElements([], elements)
    ensures forall i :: i !in elements
  {
  }

  /** An increasing sequence is determined by its elements. */
  lemma {:induction false} IncreasingUnique(a: seq<int>, b: seq<int>, elements: set<int>)
    requires Increasing(a) && Increasing(b) && SameElements(a, elements) && SameElements(b, elements)
    ensures a == b
    decreases |a|
  {
    hide *;
    if a == [] || b == [] {
      if a != [] { LastIsGreatest(a, elements); }
      if b != [] { LastIsGreatest(b, elements); }
      EmptySequence(elements);
    } else {
      var m, n := |a| - 1, |b| - 1;
      LastIsGreatest(a, elements);
      LastIsGreatest(b, elements);
      IncreasingUnique(a[..m], b[..n], elements - {a[m]});
      assert a == a[..m] + [a[m]] && b == b[..n] + [b[n]];
    }
  }

  lemma {:induction false} OwnIndices(deltas: seq<Delta>, index: int)
    ensures Own(deltas, index) != [] <==> index in IndicesOf(deltas)
  {
    if deltas == [] {
    } else {
      var init, last := deltas[..|deltas| - 1], deltas[|deltas| - 1];
      OwnIndices(init, index);
      assert deltas == init + [last];
      assert IndicesOf(deltas) == IndicesOf(init) + {last.index};
    }
  }

  /** Two streams whose deltas describe the same call for every index. */
  ghost predicate SameDescriptions(a: seq<Delta>, b: seq<Delta>, default: DefaultId) {
    forall i :: (Own(a, i) == [] <==> Own(b, i) == [])
      && (Own(a, i) != [] && Own(b, i) != [] ==> Described(Own(a, i), default(i)) == Described(Own(b, i), default(i)))
  }

  /** The result depends on what each index's own deltas describe, and on nothing else. */
  lemma OnlyOwnDeltasMatter(a: seq<Delta>, b: seq<Delta>, default: DefaultId,
                            ia: seq<int>, ca: seq<Call>, ib: seq<int>, cb: seq<Call>)
    requires Assembles(a, default, ia, ca) && Assembles(b, default, ib, cb)
    requires SameDescriptions(a, b, default)
    ensures ia == ib && ca == cb
  {
    forall i ensures i in IndicesOf(a) <==> i in IndicesOf(b) {
      OwnIndices(a, i);
      OwnIndices(b, i);
    }
    IncreasingUnique(ia, ib, IndicesOf(a));
  }

  lemma {:induction false} OwnConcat(a: seq<Delta>, b: seq<Delta>, index: int)
    ensures Own(a + b, index) == Own(a, index) + Own(b, index)
  {
    if b == [] {
      assert a + b == a;
    } else {
      OwnConcat(a, b[..|b| - 1], index);
      assert (a + b)[..|a + b| - 1] == a + b[..|b| - 1];
    }
  }

  /** A delta whose argument text is cut in two; the second piece carries nothing else. */
  predicate Halves(whole: Delta, first: Delta, second: Delta) {
    && first.index == second.index == whole.index
    && first.id == whole.id && first.name == whole.name
    && second.id.Absent? && second.name.None?
    && first.arguments.GetOr("") + second.arguments.GetOr("") == whole.arguments.GetOr("")
  }

  /** Cutting the argument text of a delta does not change what its index describes. */
  lemma {:induction false} RechunkedOwn(before: seq<Delta>, whole: Delta, first: Delta, second: Delta, after: seq<Delta>,
                                        default: string)
    requires Halves(whole, first, second)
    ensures Described(before + [whole] + after, default) == Described(before + [first, second] + after, default)
  {
    if after == [] {
      assert before + [whole] + after == before + [whole];
      assert before + [first, second] + after == before + [first] + [second];
      DescribedSnoc(before, whole, default);
      DescribedSnoc(before, first, default);
      DescribedSnoc(before + [first], second, default);
      var call := if before == [] then Opened(whole, default) else Described(before, default);
      assert Opened(first, default) == Opened(whole, default);
      assert Applied(call, whole).arguments == call.arguments + whole.arguments.GetOr("");
      assert Applied(Applied(call, first), second).arguments
          == call.arguments + first.arguments.GetOr("") + second.arguments.GetOr("");
      assert call.arguments + first.arguments.GetOr("") + second.arguments.GetOr("")
          == call.arguments + (first.arguments.GetOr("") + second.arguments.GetOr(""));
    } else {
      var init, d := after[..|after| - 1], after[|after| - 1];
      RechunkedOwn(before, whole, first, second, init, default);
      assert before + [whole] + after == before + [whole] + init + [d];
      assert before + [first, second] + after == before + [first, second] + init + [d];
      DescribedSnoc(before + [whole] + init, d, default);
      DescribedSnoc(before + [first, second] + init, d, default);
    }
  }

  /** One delta of a stream is cut in two. */
  ghost predicate CutAt(a: seq<Delta>, b: seq<Delta>, before: seq<Delta>, whole: Delta, first: Delta, second: Delta,
                        after: seq<Delta>) {
    Halves(whole, first, second) && a == before + [whole] + after && b == before + [first, second] + after
  }

  /** Two neighbouring deltas of different indices trade places. */
  ghost predicate SwappedAt(a: seq<Delta>, b: seq<Delta>, before: seq<Delta>, d: Delta, e: Delta, after: seq<Delta>) {
    d.index != e.index && a == before + [d, e] + after && b == before + [e, d] + after
  }

  /** One way of delivering the same calls differently: a cut, its reverse, or a swap. */
  ghost predicate Redelivered(a: seq<Delta>, b: seq<Delta>) {
    || (exists before, whole, first, second, after :: CutAt(a, b, before, whole, first, second, after))
    || (exists before, whole, first, second, after :: CutAt(b, a, before, whole, first, second, after))
    || (exists before, d, e, after :: SwappedAt(a, b, before, d, e, after))
  }

  lemma OwnBetween(before: seq<Delta>, mid: seq<Delta>, after: seq<Delta>, i: int)
    ensures Own(before + mid + after, i) == Own(before, i) + Own(mid, i) + Own(after, i)
  {
    hide *;
    OwnConcat(before + mid, after, i);
    OwnConcat(before, mid, i);
  }

  lemma CutKeeps(a: seq<Delta>, b: seq<Delta>, before: seq<Delta>, whole: Delta, first: Delta, second: Delta,
                 after: seq<Delta>, default: DefaultId)
    requires CutAt(a, b, before, whole, first, second, after)
    ensures SameDescriptions(a, b, default)
  {
    hide Own, Described;
    forall i
      ensures Own(a, i) == [] <==> Own(b, i) == []
      ensures Own(a, i) != [] && Own(b, i) != [] ==> Described(Own(a, i), default(i)) == Described(Own(b, i), default(i))
    {
      OwnBetween(before, [whole], after, i);
      OwnBetween(before, [first, second], after, i);
      OwnPair(first, second, i);
      OwnSingle(whole, i);
      if whole.index == i {
        assert [first] + [second] == [first, second];
        RechunkedOwn(Own(before, i), whole, first, second, Own(after, i), default(i));
      }
    }
  }

  lemma SwapKeeps(a: seq<Delta>, b: seq<Delta>, before: seq<Delta>, d: Delta, e: Delta, after: seq<Delta>,
                  default: DefaultId)
    requires SwappedAt(a, b, before, d, e, after)
    ensures SameDescriptions(a, b, default)
  {
    hide Own, Described;
    forall i ensures Own(a, i) == Own(b, i) {
      OwnBetween(before, [d, e], after, i);
      OwnBetween(before, [e, d], after, i);
      OwnPair(d, e, i);
      OwnPair(e, d, i);
    }
  }

  lemma RedeliveryKeeps(a: seq<Delta>, b: seq<Delta>, default: DefaultId)
    requires Redelivered(a, b)
    ensures SameDescriptions(a, b, default)
  {
    hide Own, Described, CutAt, SwappedAt;
    if before, whole, first, second, after :| CutAt(a, b, before, whole, first, second, after) {
      CutKeeps(a, b, before, whole, first, second, after, default);
    } else if before, whole, first, second, after :| CutAt(b, a, before, whole, first, second, after) {
      CutKeeps(b, a, before, whole, first, second, after, default);
    } else {
      var before, d, e, after :| SwappedAt(a, b, before, d, e, after);
      SwapKeeps(a, b, before, d, e, after, default);
    }
  }

  /** A series of streams, each delivering the calls of the one before it differently. */
  ghost predicate Deliveries(streams: seq<seq<Delta>>) {
    forall k :: 0 <= k < |streams| - 1 ==> Redelivered(streams[k], streams[k + 1])
  }

  lemma {:induction false} DeliveriesKeep(streams: seq<seq<Delta>>, default: DefaultId)
    requires streams != [] && Deliveries(streams)
    ensures SameDescriptions(streams[0], streams[|streams| - 1], default)
    decreases |streams|
  {
    hide Own, Described, Redelivered;
    if |streams| > 1 {
      var init := streams[..|streams| - 1];
      forall k | 0 <= k < |init| - 1 ensures Redelivered(init[k], init[k + 1]) {
        assert Redelivered(streams[k], streams[k + 1]);
      }
      DeliveriesKeep(init, default);
      assert Redelivered(streams[|init| - 1], streams[|init| - 1 + 1]);
      RedeliveryKeeps(init[|init| - 1], streams[|streams| - 1], default);
    }
  }

  /** However the indices are interleaved and the argument texts cut up, the assembled calls are the same. */
  lemma DeliveryIsInvisible(streams: seq<seq<Delta>>, default: DefaultId,
                            ia: seq<int>, ca: seq<Call>, ib: seq<int>, cb: seq<Call>)
    requires streams != [] && Deliveries(streams)
    requires Assembles(streams[0], default, ia, ca) && Assembles(streams[|streams| - 1], default, ib, cb)
    ensures ia == ib && ca == cb
  {
    hide *;
    DeliveriesKeep(streams, default);
    OnlyOwnDeltasMatter(streams[0], streams[|streams| - 1], default, ia, ca, ib, cb);
  }

  lemma OwnPair(d: Delta, e: Delta, index: int)
    ensures Own([d, e], index) == (if d.index == index then [d] else []) + (if e.index == index then [e] else [])
  {
    assert [d, e] == [d] + [e];
    OwnConcat([d], [e], index);
    OwnSingle(d, index);
    OwnSingle(e, index);
  }

  lemma OwnSingle(d: Delta, index: int)
    ensures Own([d], index) == if d.index == index then [d] else []
  {
  }
}
