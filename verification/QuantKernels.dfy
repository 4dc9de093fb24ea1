/** The Metal kernels: one thread per output cell, reading flat row-major buffers
    (bench/bench_verify_qmv.py, bench/bench_fused_mlp.py).  Threads only write their own cell, so running them one
    after another in any order covers every schedule. */
module QuantKernels {
  import opened Wrappers
  import opened QuantMatrix

  /** A weight matrix as flat buffers: `words` per row, `groups` scales and biases per row. */
  datatype QMatrix = QMatrix(rows: nat, wordsPerRow: nat, groups: nat, group: nat, words: seq<Word>,
                             scales: seq<real>, biases: Option<seq<real>>)
  {
    ghost predicate Valid() {
      && group > 0 && group % 4 == 0 && groups * group == 8 * wordsPerRow
      && |words| == rows * wordsPerRow
      && |scales| == rows * groups && (biases.Some? ==> |biases.value| == rows * groups)
    }

    function Cols(): nat {
      8 * wordsPerRow
    }
  }

  /** Row `n` of a table with `width` columns lies inside the flat buffer. */
  lemma RowBounds(rows: nat, width: nat, n: nat)
    requires n < rows
    ensures 0 <= n * width && n * width + width <= rows * width
  {
    assert rows * width == n * width + (rows - n) * width;
    Multiple(rows - n, width);
  }

  function Slice<T>(flat: seq<T>, rows: nat, width: nat, n: nat): (row: seq<T>)
    requires |flat| == rows * width && n < rows
    ensures |row| == width
  {
    RowBounds(rows, width, n);
    flat[n * width..n * width + width]
  }

  lemma SliceAt<T>(flat: seq<T>, rows: nat, width: nat, n: nat, j: nat)
    requires |flat| == rows * width && n < rows && j < width
    ensures 0 <= n * width + j < |flat| && flat[n * width + j] == Slice(flat, rows, width, n)[j]
  {
    RowBounds(rows, width, n);
  }

  /** The matrix row behind the flat buffers; a missing bias buffer stands for zeros. */
  function RowOf(w: QMatrix, n: nat): (row: QRow)
    requires w.Valid() && n < w.rows
    ensures row.Valid() && row.Cols() == w.Cols() && |row.scales| == w.groups && row.group == w.group
    ensures row.words == Slice(w.words, w.rows, w.wordsPerRow, n)
  {
    hide Slice;
    QRow(w.group, Slice(w.words, w.rows, w.wordsPerRow, n), Slice(w.scales, w.rows, w.groups, n),
         if w.biases.Some? then Slice(w.biases.value, w.rows, w.groups, n) else seq(w.groups, i => 0.0))
  }

  /** Where the row's words, scales and biases stand in the flat buffers. */
  lemma RowStands(w: QMatrix, n: nat, j: nat, g: nat)
    requires w.Valid() && n < w.rows && j < w.wordsPerRow && g < w.groups
    ensures 0 <= n * w.wordsPerRow + j < |w.words| && 0 <= n * w.groups + g < |w.scales|
    ensures RowOf(w, n).words[j] == w.words[n * w.wordsPerRow + j]
    ensures RowOf(w, n).scales[g] == w.scales[n * w.groups + g]
    ensures RowOf(w, n).biases[g] == if w.biases.Some? then w.biases.value[n * w.groups + g] else 0.0
  {
    hide Slice;
    SliceAt(w.words, w.rows, w.wordsPerRow, n, j);
    SliceAt(w.scales, w.rows, w.groups, n, g);
    if w.biases.Some? {
      SliceAt(w.biases.value, w.rows, w.groups, n, g);
    }
  }

  /** The kernel's scale of group `g`. */
  function ReadScale(w: QMatrix, n: nat, nGroups: nat, g: nat): (s: real)
    requires w.Valid() && n < w.rows && nGroups == w.groups && g < nGroups
    ensures s == RowOf(w, n).scales[g]
  {
    SliceAt(w.scales, w.rows, w.groups, n, g);
    w.scales[n * nGroups + g]
  }

  function ReadBias(w: QMatrix, n: nat, nGroups: nat, g: nat): (b: real)
    requires w.Valid() && n < w.rows && nGroups == w.groups && g < nGroups
    ensures b == RowOf(w, n).biases[g]
  {
    if w.biases.Some? then
      SliceAt(w.biases.value, w.rows, w.groups, n, g);
      w.biases.value[n * nGroups + g]
    else 0.0
  }

  /** The kernel's 16-bit read: a byte pointer to the row, then an index in halves. */
  function ReadHalf(w: QMatrix, n: nat, kSize: nat, e: nat): (half: nat)
    requires w.Valid() && n < w.rows && kSize == w.Cols() && 4 * e + 4 <= kSize
    ensures (2 * e + 1) / 4 < |RowOf(w, n).words|
    ensures half == HalfAt(RowOf(w, n).words, 2 * e)
  {
    HalfAddress(w, n, e);
    HalfAt(w.words, n * (kSize / 2) + 2 * e)
  }

  lemma HalfAddress(w: QMatrix, n: nat, e: nat)
    requires w.Valid() && n < w.rows && 4 * e + 4 <= w.Cols()
    ensures (2 * e + 1) / 4 < |RowOf(w, n).words|
    ensures var a := n * (w.Cols() / 2) + 2 * e;
      && 0 <= a && a / 4 < |w.words| && (a + 1) / 4 < |w.words|
      && HalfAt(w.words, a) == HalfAt(RowOf(w, n).words, 2 * e)
  {
    hide RowOf, ByteAt;
    var row := RowOf(w, n);
    var start := n * w.wordsPerRow;
    RowBounds(w.rows, w.wordsPerRow, n);
    var a := n * (w.Cols() / 2) + 2 * e;
    assert w.Cols() / 2 == 4 * w.wordsPerRow;
    assert n * (4 * w.wordsPerRow) == 4 * start;
    assert a == 4 * start + 2 * e;
    ByteShift(w.words, row.words, start, a, 2 * e);
    ByteShift(w.words, row.words, start, a + 1, 2 * e + 1);
  }

  lemma ByteShift(flat: seq<Word>, row: seq<Word>, start: nat, a: nat, b: nat)
    requires start + |row| <= |flat| && row == flat[start..start + |row|]
    requires a == 4 * start + b && b / 4 < |row|
    ensures a / 4 < |flat| && ByteAt(flat, a) == ByteAt(row, b)
  {
  }

  /** The kernel's flat input read. */
  function ReadX(x: seq<real>, vectors: nat, kSize: nat, m: nat, k: nat): (v: real)
    requires |x| == vectors * kSize && m < vectors && k < kSize
    ensures v == Slice(x, vectors, kSize, m)[k]
  {
    SliceAt(x, vectors, kSize, m, k);
    x[m * kSize + k]
  }

  /** The number of vectors that the kernels are written for. */
  const M: nat := 3

  /** The inner loop of one group: four columns a step, nibbles summed against the inputs, inputs summed alone. */
  method AccumulateGroup(x: seq<real>, m: nat, w: QMatrix, n: nat, kSize: nat, g: nat, ghost start: nat)
    returns (groupAccum: real, xSum: real)
    requires w.Valid() && kSize == w.Cols() && |x| == M * kSize && m < M && n < w.rows && g < w.groups
    requires start + w.group <= kSize && g * (w.group / 4) * 4 == start
    ensures var xs := Slice(x, M, kSize, m);
      && groupAccum == NibbleDot(xs, RowOf(w, n), start, start + w.group)
      && xSum == SumOver(xs, start, start + w.group)
  {
    hide RowOf, Slice, HalfAt, Unpacked, NibbleDot, SumOver, ReadX, ReadHalf;
    ghost var xs, row := Slice(x, M, kSize, m), RowOf(w, n);
    var itersPerGroup := w.group / 4;
    var base := g * itersPerGroup;
    groupAccum, xSum := 0.0, 0.0;
    NoColumns(xs, row, start);
    assert 4 * base == start && 4 * itersPerGroup == w.group;
    for i := 0 to itersPerGroup
      invariant groupAccum == NibbleDot(xs, row, start, start + 4 * i)
      invariant xSum == SumOver(xs, start, start + 4 * i)
    {
      FourColumns(xs, row, start, base + i);
      var packed := ReadHalf(w, n, kSize, base + i);
      var k := (base + i) * 4;
      var x0 := ReadX(x, M, kSize, m, k);
      var x1 := ReadX(x, M, kSize, m, k + 1);
      var x2 := ReadX(x, M, kSize, m, k + 2);
      var x3 := ReadX(x, M, kSize, m, k + 3);
      groupAccum := groupAccum + Product(x0, Unpacked(packed, 0));
      groupAccum := groupAccum + Product(x1, Unpacked(packed, 1));
      groupAccum := groupAccum + Product(x2, Unpacked(packed, 2));
      groupAccum := groupAccum + Product(x3, Unpacked(packed, 3));
      xSum := xSum + (x0 + x1 + x2 + x3);
    }
  }

  lemma NoColumns(x: seq<real>, row: QRow, start: nat)
    requires |x| == row.Cols() && start <= |x|
    ensures NibbleDot(x, row, start, start) == 0.0 && SumOver(x, start, start) == 0.0
  {
  }

  /** Group `g` of a row starts at a multiple of four columns and lies inside the row. */
  lemma GroupBounds(groups: nat, group: nat, g: nat, cols: nat)
    requires group % 4 == 0 && groups * group == cols && g < groups
    ensures 0 <= g * group && g * group + group == (g + 1) * group <= cols && g * (group / 4) * 4 == g * group
  {
  }

  lemma GroupCount(w: QMatrix)
    requires w.Valid()
    ensures w.Cols() / w.group == w.groups
  {
    assert Quotient(w.Cols(), w.group) == w.groups by {
      QuotientUnique(w.Cols(), w.group, w.groups);
    }
  }

  /** The main loop of a thread: the product of input vector `m` with weight row `n`, group by group. */
  method MatVec(x: seq<real>, m: nat, w: QMatrix, n: nat, kSize: nat) returns (accum: real)
    requires w.Valid() && kSize == w.Cols() && |x| == M * kSize && m < M && n < w.rows
    ensures accum == Linear(Slice(x, M, kSize, m), RowOf(w, n))
  {
    hide RowOf, Slice, NibbleDot, SumOver, Factored, DotUpTo, ReadScale, ReadBias;
    ghost var xs, row := Slice(x, M, kSize, m), RowOf(w, n);
    GroupCount(w);
    var nGroups := kSize / w.group;
    accum := 0.0;
    DotNone(xs, row);
    for g := 0 to nGroups
      invariant 0 <= g * w.group <= kSize && accum == DotUpTo(xs, row, g * w.group)
    {
      GroupBounds(w.groups, w.group, g, kSize);
      var scale := ReadScale(w, n, nGroups, g);
      var bias := ReadBias(w, n, nGroups, g);
      var groupAccum, xSum := AccumulateGroup(x, m, w, n, kSize, g, g * w.group);
      GroupFactored(xs, row, g, g * w.group, g * w.group + w.group);
      accum := accum + Factored(scale, groupAccum, bias, xSum);
    }
  }

  lemma DotNone(x: seq<real>, row: QRow)
    requires row.Valid() && |x| == row.Cols()
    ensures DotUpTo(x, row, 0) == 0.0
  {
  }

  // ---- threads and their schedule

  /** The output cell of a thread. */
  function Cell(tid: nat, nSize: nat): nat {
    tid % 3 * nSize + tid / 3
  }

  /** The threads of a grid of `3 * nSize` and the output cells correspond one to one. */
  lemma CellsOneToOne(nSize: nat)
    ensures forall tid :: 0 <= tid < M * nSize ==> 0 <= Cell(tid, nSize) < M * nSize
    ensures forall s, t :: 0 <= s < M * nSize && 0 <= t < M * nSize && Cell(s, nSize) == Cell(t, nSize) ==> s == t
    ensures forall m, n :: 0 <= m < M && 0 <= n < nSize ==>
              0 <= ThreadOf(m, n) < M * nSize && Cell(ThreadOf(m, n), nSize) == m * nSize + n
  {
    hide *;
    forall tid | 0 <= tid < M * nSize ensures 0 <= Cell(tid, nSize) < M * nSize {
      CellOf(tid, nSize);
    }
    forall s, t | 0 <= s < M * nSize && 0 <= t < M * nSize && Cell(s, nSize) == Cell(t, nSize)
      ensures s == t
    {
      SameCell(s, t, nSize);
    }
    forall m, n | 0 <= m < M && 0 <= n < nSize
      ensures 0 <= ThreadOf(m, n) < M * nSize && Cell(ThreadOf(m, n), nSize) == m * nSize + n
    {
      CellOfThread(m, n, nSize);
    }
  }

  lemma SameCell(s: nat, t: nat, nSize: nat)
    requires s < M * nSize && t < M * nSize && Cell(s, nSize) == Cell(t, nSize)
    ensures s == t
  {
    hide Cell;
    CellOf(s, nSize);
    CellOf(t, nSize);
    CellApart(s % 3, s / 3, t % 3, t / 3, nSize);
  }

  lemma CellOfThread(m: nat, n: nat, nSize: nat)
    requires m < M && n < nSize
    ensures ThreadOf(m, n) < M * nSize && Cell(ThreadOf(m, n), nSize) == m * nSize + n
  {
    hide Cell;
    CellOf(ThreadOf(m, n), nSize);
  }

  lemma CellOf(tid: nat, nSize: nat)
    requires tid < M * nSize
    ensures 0 <= Cell(tid, nSize) == tid % 3 * nSize + tid / 3 < M * nSize
  {
  }

  function ThreadOf(m: nat, n: nat): nat {
    3 * n + m
  }

  lemma CellInRange(m: nat, n: nat, nSize: nat)
    requires m < M && n < nSize
    ensures 0 <= m * nSize + n < M * nSize
  {
  }

  lemma CellApart(m: nat, n: nat, m': nat, n': nat, nSize: nat)
    requires m < M && m' < M && n < nSize && n' < nSize && m * nSize + n == m' * nSize + n'
    ensures m == m' && n == n'
  {
  }

  /** What the matrix-vector kernel is to leave in cell (m, n). */
  function MatVecCell(x: seq<real>, w: QMatrix, m: nat, n: nat): real
    requires w.Valid() && |x| == M * w.Cols() && m < M && n < w.rows
  {
    Linear(Slice(x, M, w.Cols(), m), RowOf(w, n))
  }

  /** One thread of the matrix-vector kernel, and of the down projection. */
  method MatVecThread(tid: nat, x: seq<real>, w: QMatrix, y: array<real>)
    requires w.Valid() && |x| == M * w.Cols() && y.Length == M * w.rows
    modifies y
    ensures tid / 3 >= w.rows ==> y[..] == old(y[..])
    ensures tid / 3 < w.rows ==>
              0 <= Cell(tid, w.rows) < y.Length
              && y[..] == old(y[..])[Cell(tid, w.rows) := MatVecCell(x, w, tid % 3, tid / 3)]
  {
    var kSize, nSize := w.Cols(), w.rows;
    var n := tid / 3;
    var m := tid % 3;
    if n >= nSize {
      return;
    }
    CellInRange(m, n, nSize);
    var accum := MatVec(x, m, w, n, kSize);
    y[m * nSize + n] := accum;
  }

  /** The cells of threads that have run hold their values; every other cell is as it was. */
  ghost predicate Ran(before: seq<real>, after: seq<real>, done: set<nat>, nSize: nat, value: (nat, nat) -> real) {
    && |after| == |before| == M * nSize
    && forall tid: nat :: tid < M * nSize ==>
         0 <= Cell(tid, nSize) < M * nSize
         && after[Cell(tid, nSize)] == if tid in done then value(tid % 3, tid / 3) else before[Cell(tid, nSize)]
  }

  lemma RanOne(before: seq<real>, now: seq<real>, after: seq<real>, done: set<nat>, nSize: nat,
               value: (nat, nat) -> real, tid: nat)
    requires Ran(before, now, done, nSize, value)
    requires if tid < M * nSize
             then 0 <= Cell(tid, nSize) < |now| && after == now[Cell(tid, nSize) := value(tid % 3, tid / 3)]
             else after == now
    ensures Ran(before, after, done + {tid}, nSize, value)
  {
    CellsOneToOne(nSize);
  }

  /** The reference result of a whole grid, as a function of the cell. */
  ghost function MatVecValues(x: seq<real>, w: QMatrix): (nat, nat) -> real
    requires w.Valid() && |x| == M * w.Cols()
  {
    (m: nat, n: nat) => if m < M && n < w.rows then MatVecCell(x, w, m, n) else 0.0
  }

  /** A grid launch: the threads run in any order, some perhaps more than once. */
  method LaunchMatVec(order: seq<nat>, x: seq<real>, w: QMatrix, y: array<real>)
    requires w.Valid() && |x| == M * w.Cols() && y.Length == M * w.rows
    modifies y
    ensures Ran(old(y[..]), y[..], (set t | t in order), w.rows, MatVecValues(x, w))
  {
    ghost var before := y[..];
    ghost var value := MatVecValues(x, w);
    CellsOneToOne(w.rows);
    ghost var done: set<nat> := {};
    assert Ran(before, y[..], done, w.rows, value);
    for i := 0 to |order|
      invariant Ran(before, y[..], done, w.rows, value)
      invariant done == set t | t in order[..i]
    {
      hide Ran, Cell, MatVecCell;
      ghost var now := y[..];
      MatVecThread(order[i], x, w, y);
      RanOne(before, now, y[..], done, w.rows, value, order[i]);
      done := done + {order[i]};
      assert order[..i + 1] == order[..i] + [order[i]];
    }
    assert order[..|order|] == order;
  }

  /** When every thread of the grid has run, every cell holds the reference value. */
  lemma GridComputesAll(before: seq<real>, after: seq<real>, done: set<nat>, nSize: nat, value: (nat, nat) -> real,
                        m: nat, n: nat)
    requires Ran(before, after, done, nSize, value)
    requires forall tid: nat :: tid < M * nSize ==> tid in done
    requires m < M && n < nSize
    ensures 0 <= m * nSize + n < |after| && after[m * nSize + n] == value(m, n)
  {
    CellInRange(m, n, nSize);
    CellsOneToOne(nSize);
    assert ThreadOf(m, n) % 3 == m && ThreadOf(m, n) / 3 == n;
  }

  // ---- the fused pipeline

  /** `SiLU(g) = g * sigmoid(g)`, over any positive exponential. */
  function Silu(exp: real -> real, g: real): real
    requires exp(-g) > 0.0
  {
    g * (1.0 / (1.0 + exp(-g)))
  }

  function Activate(exp: real -> real, gateVal: real, upVal: real): real
    requires exp(-gateVal) > 0.0
  {
    Silu(exp, gateVal) * upVal
  }

  /** The kernel's way of writing the activation. */
  lemma ActivateMeaning(exp: real -> real, gateVal: real, upVal: real)
    requires exp(-gateVal) > 0.0
    ensures Activate(exp, gateVal, upVal) == gateVal * (1.0 / (1.0 + exp(-gateVal))) * upVal
  {
  }

  ghost predicate Positive(exp: real -> real) {
    forall v :: exp(v) > 0.0
  }

  /** What the fused kernel is to leave in cell (m, n): the activated gate times the up projection. */
  ghost function ActivatedCell(exp: real -> real, x: seq<real>, gate: QMatrix, up: QMatrix, m: nat, n: nat): real
    requires Positive(exp)
    requires gate.Valid() && up.Valid() && gate.Cols() == up.Cols() && gate.rows == up.rows
    requires |x| == M * gate.Cols() && m < M && n < gate.rows
  {
    Activate(exp, MatVecCell(x, gate, m, n), MatVecCell(x, up, m, n))
  }

  /** One thread of the fused kernel: gate and up projections side by side over the same input. */
  method FusedThread(tid: nat, exp: real -> real, x: seq<real>, gate: QMatrix, up: QMatrix, out: array<real>)
    requires Positive(exp)
    requires gate.Valid() && up.Valid() && gate.Cols() == up.Cols() && gate.rows == up.rows && gate.group == up.group
    requires |x| == M * gate.Cols() && out.Length == M * gate.rows
    modifies out
    ensures tid / 3 >= gate.rows ==> out[..] == old(out[..])
    ensures tid / 3 < gate.rows ==>
              0 <= Cell(tid, gate.rows) < out.Length
              && out[..] == old(out[..])[Cell(tid, gate.rows) := ActivatedCell(exp, x, gate, up, tid % 3, tid / 3)]
  {
    hide MatVecCell, Activate;
    var kSize, nSize := gate.Cols(), gate.rows;
    var n := tid / 3;
    var m := tid % 3;
    if n >= nSize {
      return;
    }
    CellInRange(m, n, nSize);
    var gateVal, upVal := FusedMatVec(x, m, gate, up, n, kSize);
    var sigmoid := 1.0 / (1.0 + exp(-gateVal));
    var activated := gateVal * sigmoid * upVal;
    ActivateMeaning(exp, gateVal, upVal);
    assert activated == ActivatedCell(exp, x, gate, up, m, n);
    out[m * nSize + n] := activated;
  }

  /** The fused main loop. */
  method FusedMatVec(x: seq<real>, m: nat, gate: QMatrix, up: QMatrix, n: nat, kSize: nat)
    returns (gateVal: real, upVal: real)
    requires gate.Valid() && up.Valid() && gate.Cols() == up.Cols() == kSize && gate.group == up.group
    requires |x| == M * kSize && m < M && n < gate.rows && n < up.rows
    ensures gateVal == MatVecCell(x, gate, m, n) && upVal == MatVecCell(x, up, m, n)
  {
    hide RowOf, Slice, NibbleDot, SumOver, Factored, DotUpTo, ReadScale, ReadBias;
    ghost var xs, gateRow, upRow := Slice(x, M, kSize, m), RowOf(gate, n), RowOf(up, n);
    GroupCount(gate);
    GroupCount(up);
    var nGroups := kSize / gate.group;
    gateVal, upVal := 0.0, 0.0;
    DotNone(xs, gateRow);
    DotNone(xs, upRow);
    for g := 0 to nGroups
      invariant 0 <= g * gate.group <= kSize
      invariant gateVal == DotUpTo(xs, gateRow, g * gate.group) && upVal == DotUpTo(xs, upRow, g * gate.group)
    {
      GroupBounds(gate.groups, gate.group, g, kSize);
      var gateScale, gateBias := ReadScale(gate, n, nGroups, g), ReadBias(gate, n, nGroups, g);
      var upScale, upBias := ReadScale(up, n, nGroups, g), ReadBias(up, n, nGroups, g);
      var gateGroup, upGroup, xSum := AccumulateBoth(x, m, gate, up, n, kSize, g, g * gate.group);
      GroupFactored(xs, gateRow, g, g * gate.group, g * gate.group + gate.group);
      GroupFactored(xs, upRow, g, g * gate.group, g * gate.group + gate.group);
      gateVal := gateVal + Factored(gateScale, gateGroup, gateBias, xSum);
      upVal := upVal + Factored(upScale, upGroup, upBias, xSum);
    }
  }

  /** The fused inner loop: the inputs are read and summed once for both matrices. */
  method AccumulateBoth(x: seq<real>, m: nat, gate: QMatrix, up: QMatrix, n: nat, kSize: nat, g: nat,
                        ghost start: nat)
    returns (gateGroup: real, upGroup: real, xSum: real)
    requires gate.Valid() && up.Valid() && gate.Cols() == up.Cols() == kSize && gate.group == up.group
    requires |x| == M * kSize && m < M && n < gate.rows && n < up.rows && g < gate.groups
    requires start + gate.group <= kSize && g * (gate.group / 4) * 4 == start
    ensures var xs := Slice(x, M, kSize, m);
      && gateGroup == NibbleDot(xs, RowOf(gate, n), start, start + gate.group)
      && upGroup == NibbleDot(xs, RowOf(up, n), start, start + gate.group)
      && xSum == SumOver(xs, start, start + gate.group)
  {
    hide RowOf, Slice, HalfAt, Unpacked, NibbleDot, SumOver, ReadX, ReadHalf;
    ghost var xs, gateRow, upRow := Slice(x, M, kSize, m), RowOf(gate, n), RowOf(up, n);
    var itersPerGroup := gate.group / 4;
    var base := g * itersPerGroup;
    gateGroup, upGroup, xSum := 0.0, 0.0, 0.0;
    NoColumns(xs, gateRow, start);
    NoColumns(xs, upRow, start);
    assert 4 * base == start && 4 * itersPerGroup == gate.group;
    for i := 0 to itersPerGroup
      invariant gateGroup == NibbleDot(xs, gateRow, start, start + 4 * i)
      invariant upGroup == NibbleDot(xs, upRow, start, start + 4 * i)
      invariant xSum == SumOver(xs, start, start + 4 * i)
    {
      FourColumns(xs, gateRow, start, base + i);
      FourColumns(xs, upRow, start, base + i);
      var k := (base + i) * 4;
      var x0 := ReadX(x, M, kSize, m, k);
      var x1 := ReadX(x, M, kSize, m, k + 1);
      var x2 := ReadX(x, M, kSize, m, k + 2);
      var x3 := ReadX(x, M, kSize, m, k + 3);
      xSum := xSum + (x0 + x1 + x2 + x3);
      var gPacked := ReadHalf(gate, n, kSize, base + i);
      gateGroup := gateGroup + Product(x0, Unpacked(gPacked, 0));
      gateGroup := gateGroup + Product(x1, Unpacked(gPacked, 1));
      gateGroup := gateGroup + Product(x2, Unpacked(gPacked, 2));
      gateGroup := gateGroup + Product(x3, Unpacked(gPacked, 3));
      var uPacked := ReadHalf(up, n, kSize, base + i);
      upGroup := upGroup + Product(x0, Unpacked(uPacked, 0));
      upGroup := upGroup + Product(x1, Unpacked(uPacked, 1));
      upGroup := upGroup + Product(x2, Unpacked(uPacked, 2));
      upGroup := upGroup + Product(x3, Unpacked(uPacked, 3));
    }
  }

  ghost function ActivatedValues(exp: real -> real, x: seq<real>, gate: QMatrix, up: QMatrix): (nat, nat) -> real
    requires Positive(exp)
    requires gate.Valid() && up.Valid() && gate.Cols() == up.Cols() && gate.rows == up.rows && |x| == M * gate.Cols()
  {
    (m: nat, n: nat) => if m < M && n < gate.rows then ActivatedCell(exp, x, gate, up, m, n) else 0.0
  }

  method LaunchFused(order: seq<nat>, exp: real -> real, x: seq<real>, gate: QMatrix, up: QMatrix, out: array<real>)
    requires Positive(exp)
    requires gate.Valid() && up.Valid() && gate.Cols() == up.Cols() && gate.rows == up.rows && gate.group == up.group
    requires |x| == M * gate.Cols() && out.Length == M * gate.rows
    modifies out
    ensures Ran(old(out[..]), out[..], (set t | t in order), gate.rows, ActivatedValues(exp, x, gate, up))
  {
    ghost var before := out[..];
    ghost var value := ActivatedValues(exp, x, gate, up);
    CellsOneToOne(gate.rows);
    ghost var done: set<nat> := {};
    assert Ran(before, out[..], done, gate.rows, value);
    for i := 0 to |order|
      invariant Ran(before, out[..], done, gate.rows, value)
      invariant done == set t | t in order[..i]
    {
      hide Ran, Cell, ActivatedCell;
      ghost var now := out[..];
      FusedThread(order[i], exp, x, gate, up, out);
      RanOne(before, now, out[..], done, gate.rows, value, order[i]);
      done := done + {order[i]};
      assert order[..i + 1] == order[..i] + [order[i]];
    }
    assert order[..|order|] == order;
  }

  ghost predicate Covers(order: seq<nat>, threads: nat) {
    forall tid: nat :: tid < threads ==> tid in order
  }

  /** The stock layer's hidden vector for input vector `m`. */
  ghost function Hidden(exp: real -> real, x: seq<real>, gate: QMatrix, up: QMatrix, m: nat): (h: seq<real>)
    requires Positive(exp)
    requires gate.Valid() && up.Valid() && gate.Cols() == up.Cols() && gate.rows == up.rows
    requires |x| == M * gate.Cols() && m < M
    ensures |h| == gate.rows
  {
    seq(gate.rows, n requires 0 <= n < gate.rows => ActivatedCell(exp, x, gate, up, m, n))
  }

  /** The stock layer: `down(silu(gate(x)) * up(x))`. */
  ghost function StockMlp(exp: real -> real, x: seq<real>, gate: QMatrix, up: QMatrix, down: QMatrix, m: nat, k: nat): real
    requires Positive(exp)
    requires gate.Valid() && up.Valid() && gate.Cols() == up.Cols() && gate.rows == up.rows
    requires down.Valid() && down.Cols() == gate.rows
    requires |x| == M * gate.Cols() && m < M && k < down.rows
  {
    Linear(Hidden(exp, x, gate, up, m), RowOf(down, k))
  }

  /** The stock layer spelled out: each hidden value is the gate projection times its sigmoid times the up projection,
      and the down projection is applied to them. */
  lemma StockMlpIs(exp: real -> real, x: seq<real>, gate: QMatrix, up: QMatrix, down: QMatrix, m: nat, k: nat,
                   h: seq<real>)
    requires Positive(exp)
    requires gate.Valid() && up.Valid() && gate.Cols() == up.Cols() && gate.rows == up.rows
    requires down.Valid() && down.Cols() == gate.rows
    requires |x| == M * gate.Cols() && m < M && k < down.rows && |h| == gate.rows
    requires forall n :: 0 <= n < |h| ==>
               var xs := Slice(x, M, gate.Cols(), m);
               var g := Linear(xs, RowOf(gate, n));
               h[n] == g * (1.0 / (1.0 + exp(-g))) * Linear(xs, RowOf(up, n))
    ensures StockMlp(exp, x, gate, up, down, m, k) == Linear(h, RowOf(down, k))
  {
    hide Slice, RowOf, Linear, Hidden;
    forall n | 0 <= n < gate.rows ensures h[n] == Hidden(exp, x, gate, up, m)[n] {
      HiddenAt(exp, x, gate, up, m, n);
    }
    assert h == Hidden(exp, x, gate, up, m);
  }

  lemma HiddenAt(exp: real -> real, x: seq<real>, gate: QMatrix, up: QMatrix, m: nat, n: nat)
    requires Positive(exp)
    requires gate.Valid() && up.Valid() && gate.Cols() == up.Cols() && gate.rows == up.rows
    requires |x| == M * gate.Cols() && m < M && n < gate.rows
    ensures var xs := Slice(x, M, gate.Cols(), m);
      var g := Linear(xs, RowOf(gate, n));
      Hidden(exp, x, gate, up, m)[n] == g * (1.0 / (1.0 + exp(-g))) * Linear(xs, RowOf(up, n))
  {
    hide Slice, RowOf, Linear, Activate;
    ActivateMeaning(exp, MatVecCell(x, gate, m, n), MatVecCell(x, up, m, n));
  }

  /** The fused pipeline computes the stock layer, whatever the order of the threads in each of its two launches. */
  method FusedMlp(order1: seq<nat>, order2: seq<nat>, exp: real -> real, x: seq<real>, gate: QMatrix, up: QMatrix,
                  down: QMatrix)
    returns (out: array<real>)
    requires Positive(exp)
    requires gate.Valid() && up.Valid() && gate.Cols() == up.Cols() && gate.rows == up.rows && gate.group == up.group
    requires down.Valid() && down.Cols() == gate.rows && |x| == M * gate.Cols()
    requires Covers(order1, M * gate.rows) && Covers(order2, M * down.rows)
    ensures fresh(out) && out.Length == M * down.rows
    ensures forall m, k :: 0 <= m < M && 0 <= k < down.rows ==>
              0 <= m * down.rows + k < out.Length
              && out[m * down.rows + k] == StockMlp(exp, x, gate, up, down, m, k)
  {
    hide StockMlp, Ran, ActivatedValues, MatVecValues, Covers, Positive;
    var intermediate := new real[M * gate.rows];
    ghost var before1 := intermediate[..];
    LaunchFused(order1, exp, x, gate, up, intermediate);
    var hidden := intermediate[..];
    out := new real[M * down.rows];
    ghost var before2 := out[..];
    LaunchMatVec(order2, hidden, down, out);
    forall m, k | 0 <= m < M && 0 <= k < down.rows
      ensures 0 <= m * down.rows + k < out.Length
      ensures out[m * down.rows + k] == StockMlp(exp, x, gate, up, down, m, k)
    {
      PipelineCell(before1, hidden, before2, out[..], order1, order2, exp, x, gate, up, down, m, k);
    }
  }

  lemma PipelineCell(before1: seq<real>, hidden: seq<real>, before2: seq<real>, out: seq<real>,
                     order1: seq<nat>, order2: seq<nat>, exp: real -> real, x: seq<real>,
                     gate: QMatrix, up: QMatrix, down: QMatrix, m: nat, k: nat)
    requires Positive(exp)
    requires gate.Valid() && up.Valid() && gate.Cols() == up.Cols() && gate.rows == up.rows
    requires down.Valid() && down.Cols() == gate.rows && |x| == M * gate.Cols() && m < M && k < down.rows
    requires Covers(order1, M * gate.rows) && Covers(order2, M * down.rows) && |hidden| == M * gate.rows
    requires Ran(before1, hidden, (set t | t in order1), gate.rows, ActivatedValues(exp, x, gate, up))
    requires Ran(before2, out, (set t | t in order2), down.rows, MatVecValues(hidden, down))
    ensures 0 <= m * down.rows + k < |out|
    ensures out[m * down.rows + k] == StockMlp(exp, x, gate, up, down, m, k)
  {
    hide Ran, ActivatedValues, RowOf, Slice, Linear;
    HiddenVector(before1, hidden, order1, exp, x, gate, up, m);
    GridComputesAll(before2, out, (set t | t in order2), down.rows, MatVecValues(hidden, down), m, k);
  }

  /** The first launch leaves the stock layer's hidden vectors. */
  lemma HiddenVector(before: seq<real>, hidden: seq<real>, order: seq<nat>, exp: real -> real, x: seq<real>,
                     gate: QMatrix, up: QMatrix, m: nat)
    requires Positive(exp)
    requires gate.Valid() && up.Valid() && gate.Cols() == up.Cols() && gate.rows == up.rows
    requires |x| == M * gate.Cols() && m < M
    requires Covers(order, M * gate.rows) && |hidden| == M * gate.rows
    requires Ran(before, hidden, (set t | t in order), gate.rows, ActivatedValues(exp, x, gate, up))
    ensures Slice(hidden, M, gate.rows, m) == Hidden(exp, x, gate, up, m)
  {
    hide Ran, Slice, ActivatedCell;
    var done := set t | t in order;
    forall n | 0 <= n < gate.rows
      ensures Slice(hidden, M, gate.rows, m)[n] == Hidden(exp, x, gate, up, m)[n]
    {
      SliceAt(hidden, M, gate.rows, m, n);
      GridComputesAll(before, hidden, done, gate.rows, ActivatedValues(exp, x, gate, up), m, n);
    }
  }
}
