/** Group-wise INT4 matrices: 32-bit words of eight little-endian nibbles, and a scale and bias per group.
    What a kernel that reads 16-bit halves and factors each group computes is compared with dequantising first
    (bench/bench_verify_qmv.py, bench/bench_fused_mlp.py).  Floating-point values are real numbers here. */
module QuantMatrix {
  /** An unsigned 32-bit word. */
  type Word = w: nat | w < 0x1_0000_0000

  /** One output row; `group` columns share one scale and one bias. */
  datatype QRow = QRow(group: nat, words: seq<Word>, scales: seq<real>, biases: seq<real>)
  {
    ghost predicate Valid() {
      && group > 0 && group % 4 == 0
      && |scales| == |biases| && |scales| * group == 8 * |words|
    }

    function Cols(): nat {
      8 * |words|
    }
  }

  lemma Multiple(n: int, d: nat)
    ensures n >= 1 ==> n * d >= d
    ensures n <= 0 ==> n * d <= 0
    ensures n <= -1 ==> n * d + d <= 0
  {
  }

  /** `k / d`, with the facts that determine it. */
  function Quotient(k: nat, d: nat): (g: nat)
    requires d > 0
    ensures g * d <= k < g * d + d
  {
    k / d
  }

  lemma QuotientUnique(k: nat, d: nat, g: nat)
    requires d > 0 && g * d <= k < g * d + d
    ensures Quotient(k, d) == g
  {
    hide Quotient;
    var q := Quotient(k, d);
    Multiple(q - g, d);
    assert (q - g) * d == q * d - g * d;
  }

  lemma GroupInRange(row: QRow, k: nat)
    requires row.Valid() && k < row.Cols()
    ensures Quotient(k, row.group) < |row.scales|
  {
  }

  /** The stored value in column `k`: nibble `k % 8` of its word, shifted down and masked. */
  function Nibble(row: QRow, k: nat): (q: nat)
    requires k < row.Cols()
    ensures q < 16
  {
    ShiftedRight(row.words[k / 8], k % 8) % 16
  }

  /** `word >> 4 * j` */
  function ShiftedRight(word: nat, j: nat): nat
    requires j < 8
  {
    match j
    case 0 => word
    case 1 => word / 0x10
    case 2 => word / 0x100
    case 3 => word / 0x1000
    case 4 => word / 0x1_0000
    case 5 => word / 0x10_0000
    case 6 => word / 0x100_0000
    case _ => word / 0x1000_0000
  }

  /** The bytes of the words in little-endian order. */
  function ByteAt(words: seq<Word>, a: nat): (b: nat)
    requires a / 4 < |words|
    ensures b < 0x100
  {
    ShiftedRight(words[a / 4], 2 * (a % 4)) % 0x100
  }

  /** The 16-bit half at byte address `a`. */
  function HalfAt(words: seq<Word>, a: nat): nat
    requires a / 4 < |words| && (a + 1) / 4 < |words|
  {
    ByteAt(words, a) + 0x100 * ByteAt(words, a + 1)
  }

  /** The four masked shifts of a half. */
  function Unpacked(half: nat, j: nat): nat
    requires j < 4
  {
    ShiftedRight(half, j) % 0x10
  }

  /** A byte is two nibbles. */
  lemma ByteIsTwoNibbles(word: nat, b: nat)
    requires b < 4
    ensures ShiftedRight(word, 2 * b) % 0x100
         == ShiftedRight(word, 2 * b) % 16 + 16 * (ShiftedRight(word, 2 * b + 1) % 16)
  {
    var v := ShiftedRight(word, 2 * b);
    assert v / 16 == ShiftedRight(word, 2 * b + 1);
    assert v % 0x100 == v % 16 + 16 * (v / 16 % 16);
  }

  /** The byte view of a buffer of words is little-endian. */
  lemma LittleEndian(words: seq<Word>, i: nat)
    requires i < |words|
    ensures words[i] == ByteAt(words, 4 * i) + 0x100 * ByteAt(words, 4 * i + 1)
                        + 0x1_0000 * ByteAt(words, 4 * i + 2) + 0x100_0000 * ByteAt(words, 4 * i + 3)
  {
    hide ShiftedRight;
    var word := words[i];
    assert 4 * i / 4 == (4 * i + 1) / 4 == (4 * i + 2) / 4 == (4 * i + 3) / 4 == i;
    assert 4 * i % 4 == 0 && (4 * i + 1) % 4 == 1 && (4 * i + 2) % 4 == 2 && (4 * i + 3) % 4 == 3;
    WordIsBytes(word);
  }

  lemma WordIsBytes(word: Word)
    ensures word == ShiftedRight(word, 0) % 0x100 + 0x100 * (ShiftedRight(word, 2) % 0x100)
                    + 0x1_0000 * (ShiftedRight(word, 4) % 0x100) + 0x100_0000 * (ShiftedRight(word, 6) % 0x100)
  {
    assert word / 0x1_0000 == word / 0x100 / 0x100 && word / 0x100_0000 == word / 0x1_0000 / 0x100;
  }

  /** A word consists of its eight stored values, the first column in the lowest digit. */
  lemma WordIsNibbles(row: QRow, i: nat)
    requires i < |row.words|
    ensures row.words[i]
         == Nibble(row, 8 * i) + 0x10 * Nibble(row, 8 * i + 1)
            + 0x100 * Nibble(row, 8 * i + 2) + 0x1000 * Nibble(row, 8 * i + 3)
            + 0x1_0000 * Nibble(row, 8 * i + 4) + 0x10_0000 * Nibble(row, 8 * i + 5)
            + 0x100_0000 * Nibble(row, 8 * i + 6) + 0x1000_0000 * Nibble(row, 8 * i + 7)
  {
    hide ShiftedRight;
    var word := row.words[i];
    forall j: nat | j < 8 ensures Nibble(row, 8 * i + j) == ShiftedRight(word, j) % 16 {
      assert (8 * i + j) / 8 == i && (8 * i + j) % 8 == j;
    }
    assert Nibble(row, 8 * i + 0) == ShiftedRight(word, 0) % 16;
    hide Nibble;
    WordIsBytes(word);
    ByteIsTwoNibbles(word, 0);
    ByteIsTwoNibbles(word, 1);
    ByteIsTwoNibbles(word, 2);
    ByteIsTwoNibbles(word, 3);
  }

  /** Four nibbles put together are taken apart again. */
  lemma UnpackFour(a: nat, b: nat, c: nat, d: nat)
    requires a < 16 && b < 16 && c < 16 && d < 16
    ensures var half := a + 16 * b + 0x100 * (c + 16 * d);
      Unpacked(half, 0) == a && Unpacked(half, 1) == b && Unpacked(half, 2) == c && Unpacked(half, 3) == d
  {
    var half := a + 16 * b + 0x100 * (c + 16 * d);
    assert half / 0x10 == b + 0x10 * (c + 16 * d);
    assert half / 0x100 == c + 16 * d;
    assert half / 0x1000 == d;
  }

  /** The two bytes of a half are four nibbles of its word. */
  lemma HalfIsFourNibbles(words: seq<Word>, e: nat)
    requires e / 2 < |words|
    ensures (2 * e + 1) / 4 < |words|
    ensures var word, h := words[e / 2], e % 2 * 4;
      HalfAt(words, 2 * e) == ShiftedRight(word, h) % 16 + 16 * (ShiftedRight(word, h + 1) % 16)
                              + 0x100 * (ShiftedRight(word, h + 2) % 16 + 16 * (ShiftedRight(word, h + 3) % 16))
  {
    hide ShiftedRight;
    var word := words[e / 2];
    var h := 2 * (e % 2);
    assert 2 * e / 4 == (2 * e + 1) / 4 == e / 2;
    assert 2 * e % 4 == h && (2 * e + 1) % 4 == h + 1;
    ByteIsTwoNibbles(word, h);
    ByteIsTwoNibbles(word, h + 1);
  }

  /** Reading halves and masking shifts gives the stored nibbles. */
  lemma HalfNibbles(row: QRow, e: nat, j: nat)
    requires 4 * e + 4 <= row.Cols() && j < 4
    ensures (2 * e + 1) / 4 < |row.words|
    ensures Unpacked(HalfAt(row.words, 2 * e), j) == Nibble(row, 4 * e + j)
  {
    hide ShiftedRight, HalfAt, Unpacked;
    HalfIsFourNibbles(row.words, e);
    var word, h := row.words[e / 2], e % 2 * 4;
    UnpackFour(ShiftedRight(word, h) % 16, ShiftedRight(word, h + 1) % 16,
               ShiftedRight(word, h + 2) % 16, ShiftedRight(word, h + 3) % 16);
    assert (4 * e + j) / 8 == e / 2 && (4 * e + j) % 8 == h + j;
  }

  /** The dequantised weight. */
  function Weight(row: QRow, k: nat): real
    requires row.Valid() && k < row.Cols()
  {
    hide Quotient, Nibble;
    GroupInRange(row, k);
    row.scales[Quotient(k, row.group)] * (Nibble(row, k) as real) + row.biases[Quotient(k, row.group)]
  }

  /** The product of the first `upto` columns with the row, weights dequantised one by one. */
  function DotUpTo(x: seq<real>, row: QRow, upto: nat): real
    requires row.Valid() && |x| == row.Cols() && upto <= |x|
  {
    if upto == 0 then 0.0 else DotUpTo(x, row, upto - 1) + x[upto - 1] * Weight(row, upto - 1)
  }

  /** The reference: one output of the dequantise-then-multiply layer. */
  function Linear(x: seq<real>, row: QRow): real
    requires row.Valid() && |x| == row.Cols()
  {
    DotUpTo(x, row, |x|)
  }

  /** The input that is one in column `k` and zero elsewhere. */
  function UnitInput(cols: nat, k: nat): (x: seq<real>)
    ensures |x| == cols
  {
    seq(cols, i => if i == k then 1.0 else 0.0)
  }

  lemma {:induction false} UnitDot(row: QRow, k: nat, upto: nat)
    requires row.Valid() && k < row.Cols() && upto <= row.Cols()
    ensures DotUpTo(UnitInput(row.Cols(), k), row, upto) == if k < upto then Weight(row, k) else 0.0
    decreases upto
  {
    hide Weight;
    if upto == 0 {
    } else {
      UnitDot(row, k, upto - 1);
    }
  }

  /** The reference applied to a unit input is scale times stored value plus bias, in the group of the column. */
  lemma LinearOfUnit(row: QRow, k: nat, g: nat)
    requires row.Valid() && k < row.Cols() && g < |row.scales|
    requires g * row.group <= k < g * row.group + row.group
    ensures Linear(UnitInput(row.Cols(), k), row) == row.scales[g] * Nibble(row, k) as real + row.biases[g]
  {
    hide DotUpTo, Quotient, Nibble;
    UnitDot(row, k, row.Cols());
    QuotientUnique(k, row.group, g);
  }

  function Combined(a: real, x: seq<real>, b: real, y: seq<real>): (z: seq<real>)
    requires |x| == |y|
    ensures |z| == |x| && forall i :: 0 <= i < |x| ==> z[i] == a * x[i] + b * y[i]
  {
    seq(|x|, i requires 0 <= i < |x| => a * x[i] + b * y[i])
  }

  lemma CombineTerms(a: real, s: real, x: real, b: real, t: real, y: real, w: real)
    ensures a * (s + x * w) + b * (t + y * w) == a * s + b * t + (a * x + b * y) * w
  {
    assert a * (s + x * w) == a * s + a * (x * w) && b * (t + y * w) == b * t + b * (y * w);
    assert (a * x + b * y) * w == a * x * w + b * y * w;
    assert a * (x * w) == a * x * w && b * (y * w) == b * y * w;
  }

  lemma {:induction false} DotIsLinear(a: real, x: seq<real>, b: real, y: seq<real>, row: QRow, upto: nat)
    requires row.Valid() && |x| == |y| == row.Cols() && upto <= |x|
    ensures DotUpTo(Combined(a, x, b, y), row, upto) == a * DotUpTo(x, row, upto) + b * DotUpTo(y, row, upto)
    decreases upto
  {
    hide Weight, Combined;
    if upto == 0 {
    } else {
      var k := upto - 1;
      DotIsLinear(a, x, b, y, row, k);
      CombineTerms(a, DotUpTo(x, row, k), x[k], b, DotUpTo(y, row, k), y[k], Weight(row, k));
    }
  }

  /** The reference is linear, so its values on the unit inputs determine it. */
  lemma LinearIsLinear(a: real, x: seq<real>, b: real, y: seq<real>, row: QRow)
    requires row.Valid() && |x| == |y| == row.Cols()
    ensures Linear(Combined(a, x, b, y), row) == a * Linear(x, row) + b * Linear(y, row)
  {
    hide DotUpTo, Combined;
    DotIsLinear(a, x, b, y, row, |x|);
  }

  /** The sum of inputs over columns `from..upto`. */
  function SumOver(x: seq<real>, from: nat, upto: nat): real
    requires from <= upto <= |x|
  {
    if from == upto then 0.0 else SumOver(x, from, upto - 1) + x[upto - 1]
  }

  function Product(x: real, q: nat): real {
    x * (q as real)
  }

  /** The sum of inputs times stored nibbles over columns `from..upto`. */
  function NibbleDot(x: seq<real>, row: QRow, from: nat, upto: nat): real
    requires |x| == row.Cols() && from <= upto <= |x|
  {
    if from == upto then 0.0 else NibbleDot(x, row, from, upto - 1) + Product(x[upto - 1], Nibble(row, upto - 1))
  }

  /** The factored value of a group, or of a part of it. */
  function Factored(scale: real, dot: real, bias: real, sum: real): real {
    scale * dot + bias * sum
  }

  /** An input times its dequantised weight. */
  function Term(x: real, scale: real, q: nat, bias: real): real {
    x * (scale * (q as real) + bias)
  }

  lemma NothingFactored(scale: real, bias: real)
    ensures Factored(scale, 0.0, bias, 0.0) == 0.0
  {
  }

  lemma Distribute(scale: real, dot: real, x: real, nibble: nat, bias: real, sum: real)
    ensures Factored(scale, dot + Product(x, nibble), bias, sum + x)
         == Factored(scale, dot, bias, sum) + Term(x, scale, nibble, bias)
  {
  }

  lemma DotStep(x: seq<real>, row: QRow, g: nat, k: nat)
    requires row.Valid() && |x| == row.Cols() && g < |row.scales| && k < |x|
    requires g * row.group <= k < g * row.group + row.group
    ensures DotUpTo(x, row, k + 1)
         == DotUpTo(x, row, k) + Term(x[k], row.scales[g], Nibble(row, k), row.biases[g])
  {
    hide Quotient, Nibble;
    QuotientUnique(k, row.group, g);
  }

  lemma PartStep(x: seq<real>, row: QRow, from: nat, k: nat)
    requires |x| == row.Cols() && from <= k < |x|
    ensures NibbleDot(x, row, from, k + 1) == NibbleDot(x, row, from, k) + Product(x[k], Nibble(row, k))
    ensures SumOver(x, from, k + 1) == SumOver(x, from, k) + x[k]
  {
  }

  /** Factoring scale and bias out of a part of one group does not change the product. */
  lemma {:induction false} GroupFactored(x: seq<real>, row: QRow, g: nat, start: nat, upto: nat)
    requires row.Valid() && |x| == row.Cols() && g < |row.scales|
    requires start == g * row.group && start <= upto <= |x| && upto <= start + row.group
    ensures DotUpTo(x, row, upto)
         == DotUpTo(x, row, start)
            + Factored(row.scales[g], NibbleDot(x, row, start, upto), row.biases[g], SumOver(x, start, upto))
    decreases upto
  {
    if upto == start {
      NothingFactored(row.scales[g], row.biases[g]);
    } else {
      var scale, bias := row.scales[g], row.biases[g];
      hide *;
      var k := upto - 1;
      GroupFactored(x, row, g, start, k);
      DotStep(x, row, g, k);
      PartStep(x, row, start, k);
      Distribute(scale, NibbleDot(x, row, start, k), x[k], Nibble(row, k), bias, SumOver(x, start, k));
    }
  }

  /** One step of the kernel's inner loop: four columns from one half. */
  lemma FourColumns(x: seq<real>, row: QRow, from: nat, e: nat)
    requires row.Valid() && |x| == row.Cols() && from <= 4 * e && 4 * e + 4 <= |x|
    ensures (2 * e + 1) / 4 < |row.words|
    ensures var half := HalfAt(row.words, 2 * e); var k := 4 * e;
      NibbleDot(x, row, from, k + 4)
      == NibbleDot(x, row, from, k) + Product(x[k], Unpacked(half, 0)) + Product(x[k + 1], Unpacked(half, 1))
         + Product(x[k + 2], Unpacked(half, 2)) + Product(x[k + 3], Unpacked(half, 3))
    ensures SumOver(x, from, 4 * e + 4)
         == SumOver(x, from, 4 * e) + (x[4 * e] + x[4 * e + 1] + x[4 * e + 2] + x[4 * e + 3])
  {
    hide Nibble, HalfAt, Unpacked, NibbleDot, SumOver;
    HalfNibbles(row, e, 0);
    HalfNibbles(row, e, 1);
    HalfNibbles(row, e, 2);
    HalfNibbles(row, e, 3);
    var k := 4 * e;
    PartStep(x, row, from, k);
    PartStep(x, row, from, k + 1);
    PartStep(x, row, from, k + 2);
    PartStep(x, row, from, k + 3);
  }
}
