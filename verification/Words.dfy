/** Word arithmetic of the big-integer code: extracting a word at a bit offset, and the multiplications that
    set the top bit of their operands so that they take the same time for all values. */
module Words {

  const TWO16: nat := 0x1_0000
  const TWO31: nat := 0x8000_0000
  const TWO32: nat := 0x1_0000_0000
  const TWO62: nat := 0x4000_0000_0000_0000
  const TWO64: nat := 0x1_0000_0000_0000_0000

  function Pow2(k: nat): (p: nat)
    ensures p > 0
  {
    if k == 0 then 1 else 2 * Pow2(k - 1)
  }

  /** Bitwise or. */
  function BitOr(x: nat, y: nat): nat
    decreases x + y
  {
    if x == 0 then y
    else if y == 0 then x
    else (if x % 2 == 1 || y % 2 == 1 then 1 else 0) + 2 * BitOr(x / 2, y / 2)
  }

  // ------------------------------------------------------------------ division

  /** A multiple of p other than 0 is at least p away from it. */
  lemma MultipleGap(p: int, d: int)
    requires p > 0
    ensures (d >= 1 ==> p * d >= p) && (d <= -1 ==> p * d <= -p)
  {
    if d <= -1 {
      assert p * -d >= p;
    }
  }

  lemma DivUnique(x: int, p: nat, q: int, r: nat)
    requires x == p * q + r && r < p
    ensures x / p == q && x % p == r
  {
    var d := x / p - q;
    assert p * d == r - x % p;
    MultipleGap(p, d);
  }

  lemma QuotientIsNat(x: nat, p: nat)
    requires p > 0
    ensures x / p >= 0
  {
    MultipleGap(p, x / p);
  }

  lemma DivAdd(a: int, p: nat, b: int)
    requires p > 0
    ensures (a + p * b) / p == a / p + b && (a + p * b) % p == a % p
  {
    assert a == p * (a / p) + a % p;
    assert a + p * b == p * (a / p + b) + a % p;
    DivUnique(a + p * b, p, a / p + b, a % p);
  }

  lemma DivTwice(x: nat, p: nat, q: nat)
    requires p > 0 && q > 0
    ensures p * q > 0 && x / (p * q) == x / p / q
  {
    var y, r, s := x / p, x % p, x / p % q;
    assert x == p * y + r && y == q * (y / q) + s;
    assert p * y == p * (q * (y / q)) + p * s;
    assert p * (q * (y / q)) == (p * q) * (y / q);
    assert p * s + r < p * q by { assert p * s <= p * (q - 1); }
    DivUnique(x, p * q, y / q, p * s + r);
  }

  lemma {:induction false} Pow2Add(a: nat, b: nat)
    ensures Pow2(a + b) == Pow2(a) * Pow2(b)
    decreases a
  {
    if a > 0 {
      Pow2Add(a - 1, b);
      assert Pow2(a) * Pow2(b) == 2 * (Pow2(a - 1) * Pow2(b));
    }
  }

  lemma Pow2Values()
    ensures Pow2(16) == TWO16 && Pow2(31) == TWO31 && Pow2(32) == TWO32
  {
    assert Pow2(8) == 256;
    Pow2Add(8, 8);
    Pow2Add(16, 8);
    Pow2Add(24, 8);
    assert Pow2(32) == 2 * Pow2(31);
  }

  /** Numbers without a common bit: or is addition. */
  lemma {:induction false} OrIsSum(x: nat, k: nat, m: nat)
    requires x < Pow2(k)
    ensures BitOr(x, Pow2(k) * m) == x + Pow2(k) * m
    decreases k
  {
    var y := Pow2(k) * m;
    if k > 0 && x > 0 && y > 0 {
      var h := Pow2(k - 1) * m;
      assert y == 2 * h;
      assert y / 2 == h && y % 2 == 0;
      OrIsSum(x / 2, k - 1, m);
    }
  }

  // ------------------------------------------------------------------ one word of an integer

  /** Little-endian words; the header word in front of them is not part of the value. */
  predicate IsWords(a: seq<nat>) {
    forall i :: 0 <= i < |a| ==> a[i] < TWO32
  }

  function Value(w: seq<nat>): nat {
    if w == [] then 0 else w[0] + TWO32 * Value(w[1..])
  }

  /** Shifts of a 32-bit word. */
  function ShiftRight(x: nat, j: nat): nat {
    QuotientIsNat(x, Pow2(j));
    x / Pow2(j)
  }

  function ShiftLeft(x: nat, j: nat): nat {
    x * Pow2(j) % TWO32
  }

  /** The word at a bit offset. The array starts with a header word. */
  function Word(a: seq<nat>, off: nat): nat
    requires |a| > 0 && off / 32 + 1 < |a| && (off % 32 != 0 ==> off / 32 + 2 < |a|)
  {
    var u, j := off / 32 + 1, off % 32;
    if j == 0 then a[u] else BitOr(ShiftRight(a[u], j), ShiftLeft(a[u + 1], 32 - j))
  }

  lemma {:induction false} DropWords(w: seq<nat>, u: nat)
    requires u <= |w| && IsWords(w)
    ensures Value(w) / Pow2(32 * u) == Value(w[u..])
    decreases u
  {
    if u == 0 {
      assert w[0..] == w;
    } else {
      var rest := w[1..];
      DropWords(rest, u - 1);
      assert rest[u - 1..] == w[u..];
      Pow2Add(32, 32 * (u - 1));
      Pow2Values();
      DivTwice(Value(w), TWO32, Pow2(32 * (u - 1)));
      DivAdd(w[0], TWO32, Value(rest));
      assert w[0] / TWO32 == 0;
    }
  }

  /** A word across two array elements: the high part of one and the low part of the next. */
  lemma Straddle(w0: nat, w1: nat, rest: nat, p: nat, q: nat)
    requires p > 0 && p * q == TWO32 && w0 < TWO32
    ensures (w0 + TWO32 * (w1 + TWO32 * rest)) / p % TWO32 == w0 / p + w1 * q % TWO32
    ensures w0 / p < q
  {
    var hi := w1 + TWO32 * rest;
    MulAssoc(p, q, hi);
    DivAdd(w0, p, q * hi);
    HighPart(w0, p, q);
    LowPart(w0 / p, w1, rest, p, q);
  }

  lemma MulAssoc(p: nat, q: nat, x: nat)
    ensures p * q * x == p * (q * x)
  {
  }

  lemma MulMono(p: nat, d: nat, q: nat)
    ensures d >= q ==> p * d >= p * q
  {
  }

  lemma HighPart(w0: nat, p: nat, q: nat)
    requires p > 0 && p * q == TWO32 && w0 < TWO32
    ensures w0 / p < q
  {
    MulMono(p, w0 / p, q);
  }

  lemma LowPart(x: nat, w1: nat, rest: nat, p: nat, q: nat)
    requires p > 0 && p * q == TWO32 && x < q
    ensures (x + q * (w1 + TWO32 * rest)) % TWO32 == x + w1 * q % TWO32
  {
    var y := w1 * q % TWO32;
    var k := w1 * q / TWO32;
    assert w1 * q == TWO32 * k + y;
    FitsBelow(w1, p, q, x);
    assert q * (w1 + TWO32 * rest) == w1 * q + TWO32 * (q * rest);
    assert x + q * (w1 + TWO32 * rest) == TWO32 * (k + q * rest) + (x + y);
    DivUnique(x + q * (w1 + TWO32 * rest), TWO32, k + q * rest, x + y);
  }

  /** The residue of a multiple of q modulo a multiple of q leaves room for anything below q. */
  lemma FitsBelow(w1: nat, p: nat, q: nat, x: nat)
    requires p > 0 && p * q == TWO32 && x < q
    ensures x + w1 * q % TWO32 < TWO32
  {
    var s := w1 % p;
    assert w1 == p * (w1 / p) + s;
    assert w1 * q == TWO32 * (w1 / p) + s * q;
    assert s * q <= (p - 1) * q;
    DivUnique(w1 * q, TWO32, w1 / p, s * q);
  }

  lemma ValueSplit(w: seq<nat>)
    requires |w| >= 2
    ensures Value(w) == w[0] + TWO32 * (w[1] + TWO32 * Value(w[2..]))
  {
    assert w[1..][1..] == w[2..];
    assert Value(w[1..]) == w[1] + TWO32 * Value(w[2..]);
  }

  lemma OrOfHalves(x: nat, y: nat, k: nat, p: nat, q: nat)
    requires q == Pow2(k) && p > 0 && p * q == TWO32 && x < TWO32
    ensures BitOr(x / p, y * q % TWO32) == x / p + y * q % TWO32
  {
    HighPart(x, p, q);
    MultipleOf(y, p, q);
    OrIsSum(x / p, k, y % p);
  }

  lemma Pow2Pair(j: nat)
    requires j <= 32
    ensures Pow2(j) * Pow2(32 - j) == TWO32
  {
    Pow2Add(j, 32 - j);
    Pow2Values();
  }

  lemma MultipleOf(y: nat, p: nat, q: nat)
    requires p > 0 && p * q == TWO32
    ensures y * q % TWO32 == q * (y % p)
  {
    var s := y % p;
    assert y == p * (y / p) + s;
    assert y * q == TWO32 * (y / p) + s * q;
    MulMono(q, p - 1, s);
    assert s * q == q * s;
    DivUnique(y * q, TWO32, y / p, q * s);
  }

  /** The word at a bit offset is the value shifted right by the offset, modulo 2^32. */
  lemma WordIsShiftedValue(a: seq<nat>, off: nat)
    requires |a| > 0 && IsWords(a) && off / 32 + 1 < |a| && (off % 32 != 0 ==> off / 32 + 2 < |a|)
    ensures Word(a, off) == Value(a[1..]) / Pow2(off) % TWO32
  {
    var w, u, j := a[1..], off / 32, off % 32;
    var t := w[u..];
    assert t[0] == a[u + 1];
    ShiftedValue(w, u, j, off);
    if j == 0 {
      Aligned(t);
    } else {
      assert t[1] == a[u + 2];
      Unaligned(t, j, Pow2(j), Pow2(32 - j));
    }
  }

  lemma ShiftedValue(w: seq<nat>, u: nat, j: nat, off: nat)
    requires IsWords(w) && u <= |w| && off == 32 * u + j
    ensures Value(w) / Pow2(off) == Value(w[u..]) / Pow2(j)
  {
    Pow2Add(32 * u, j);
    DivTwice(Value(w), Pow2(32 * u), Pow2(j));
    DropWords(w, u);
  }

  lemma Aligned(t: seq<nat>)
    requires IsWords(t) && t != []
    ensures Value(t) / Pow2(0) % TWO32 == t[0]
  {
    DivAdd(t[0], TWO32, Value(t[1..]));
  }

  lemma Unaligned(t: seq<nat>, j: nat, p: nat, q: nat)
    requires IsWords(t) && |t| >= 2 && 0 < j < 32 && p == Pow2(j) && q == Pow2(32 - j)
    ensures Value(t) / p % TWO32 == BitOr(ShiftRight(t[0], j), ShiftLeft(t[1], 32 - j))
  {
    ValueSplit(t);
    Pow2Pair(j);
    Straddle(t[0], t[1], Value(t[2..]), p, q);
    OrOfHalves(t[0], t[1], 32 - j, p, q);
  }

  // ------------------------------------------------------------------ masked multiplications

  /** The top bit of a 32-bit word set. */
  function TopSet(x: nat): nat {
    BitOr(x, TWO31)
  }

  lemma TopSetIsSum(x: nat)
    requires x < TWO31
    ensures TopSet(x) == x + TWO31
  {
    Pow2Values();
    OrIsSum(x, 31, 1);
  }

  /** Unsigned 64-bit subtraction. */
  function Sub64(x: nat, y: nat): nat {
    (x - y) % TWO64
  }

  /** The 62-bit product, in 64-bit arithmetic. */
  function Mul31(x: nat, y: nat): nat {
    Sub64(Sub64(Sub64(TopSet(x) * TopSet(y) % TWO64, x * TWO31 % TWO64), y * TWO31 % TWO64), TWO62)
  }

  lemma Product(x: nat, y: nat, m: nat)
    ensures (x + m) * (y + m) == x * y + x * m + y * m + m * m
  {
  }

  lemma Below(x: nat, y: nat, m: nat)
    requires x < m && y < m
    ensures x * y < m * m && x * m < m * m && y * m < m * m
  {
    MulMono(x, m, y);
    MulMono(m, m, x + 1);
    MulMono(m, m, y + 1);
  }

  lemma TopProduct(x: nat, y: nat)
    requires x < TWO31 && y < TWO31
    ensures TopSet(x) * TopSet(y) == (x + TWO31) * (y + TWO31)
  {
    TopSetIsSum(x);
    TopSetIsSum(y);
  }

  lemma SubExact(x: nat, y: nat)
    requires y <= x < TWO64
    ensures Sub64(x, y) == x - y && x % TWO64 == x && y % TWO64 == y
  {
    DivUnique(x, TWO64, 0, x);
    DivUnique(y, TWO64, 0, y);
    DivUnique(x - y, TWO64, 0, x - y);
  }

  lemma Subtractions(p: nat, a: nat, b: nat, c: nat, r: nat)
    requires p == r + a + b + c < TWO64
    ensures Sub64(Sub64(Sub64(p % TWO64, a % TWO64), b % TWO64), c) == r
  {
    SubExact(p, a);
    SubExact(p - a, b);
    SubExact(p - a - b, c);
  }

  lemma Masked(x: nat, y: nat) returns (p: nat, r: nat)
    requires x < TWO31 && y < TWO31
    ensures p == (x + TWO31) * (y + TWO31) && r == x * y
    ensures p == r + x * TWO31 + y * TWO31 + TWO62 < TWO64 && r < TWO62
  {
    assert TWO31 * TWO31 == TWO62 && 4 * TWO62 == TWO64;
    p, r := MaskedBy(x, y, TWO31, TWO62);
  }

  lemma MaskedBy(x: nat, y: nat, m: nat, square: nat) returns (p: nat, r: nat)
    requires x < m && y < m && square == m * m
    ensures p == (x + m) * (y + m) && r == x * y
    ensures p == r + x * m + y * m + square < 4 * square && r < square
  {
    Product(x, y, m);
    Below(x, y, m);
    p, r := (x + m) * (y + m), x * y;
  }

  lemma Operands(x: nat, y: nat) returns (p: nat, r: nat)
    requires x < TWO31 && y < TWO31
    ensures p == TopSet(x) * TopSet(y) && r == x * y
    ensures p == r + x * TWO31 + y * TWO31 + TWO62 < TWO64 && r < TWO62
  {
    TopProduct(x, y);
    p, r := Masked(x, y);
  }

  lemma MaskedDifference(x: nat, y: nat, p: nat, r: nat)
    requires p == TopSet(x) * TopSet(y) && p == r + x * TWO31 + y * TWO31 + TWO62 < TWO64
    ensures Mul31(x, y) == r
  {
    Subtractions(p, x * TWO31, y * TWO31, TWO62, r);
  }

  /** The masked product of 31-bit words is the product, and no intermediate result overflows 64 bits. */
  lemma Mul31IsProduct(x: nat, y: nat)
    requires x < TWO31 && y < TWO31
    ensures Mul31(x, y) == x * y < TWO62 && TopSet(x) * TopSet(y) < TWO64
  {
    var p, r := Operands(x, y);
    MaskedDifference(x, y, p, r);
  }

  /** The low 31 bits of the product, in 32-bit arithmetic, from 16-bit halves with their top bits set. */
  function Mul31Lo(x: nat, y: nat): nat {
    var xl, xh, yl, yh := TopSet(x % TWO16), TopSet(x / TWO16), TopSet(y % TWO16), TopSet(y / TWO16);
    (xl * yl % TWO32 + (xl * yh % TWO32 + xh * yl % TWO32) % TWO32 * TWO16 % TWO32) % TWO32 % TWO31
  }

  lemma ModAdd(a: nat, b: nat, m: nat)
    requires m > 0
    ensures (a % m + b % m) % m == (a + b) % m
  {
    assert a + b == a % m + b % m + m * (a / m + b / m);
    DivAdd(a % m + b % m, m, a / m + b / m);
  }

  lemma ModMul(a: nat, k: nat, m: nat)
    requires m > 0
    ensures a % m * k % m == a * k % m
  {
    var q, r := a / m, a % m;
    assert a == r + m * q;
    Distribute(r, m, q, k);
    DivAdd(r * k, m, q * k);
  }

  lemma Distribute(r: nat, m: nat, z: nat, k: nat)
    ensures (r + m * z) * k == r * k + m * (z * k)
  {
  }

  /** Reducing at every step is reducing once. */
  lemma ReduceOnce(a: nat, b: nat, c: nat, k: nat, m: nat)
    requires m > 0
    ensures (a % m + (b % m + c % m) % m * k % m) % m == (a + (b + c) * k) % m
  {
    ModAdd(b, c, m);
    ModMul(b + c, k, m);
    ModAdd(a, (b + c) * k, m);
  }

  lemma LowBits(s: nat)
    ensures s % TWO32 % TWO31 == s % TWO31
  {
    DivAdd(s % TWO32, TWO31, 2 * (s / TWO32));
  }

  /** Setting the top bits and leaving out the product of the upper halves changes only multiples of 2^31. */
  lemma HalvesProduct(a: nat, b: nat, c: nat, d: nat)
    ensures ((a + TWO31) * (c + TWO31) + ((a + TWO31) * (d + TWO31) + (b + TWO31) * (c + TWO31)) * TWO16) % TWO31
      == (a + b * TWO16) * (c + d * TWO16) % TWO31
  {
    Product2(a, c);
    Product2(a, d);
    Product2(b, c);
    Expand(a, b, c, d);
    var z := a + c + TWO31 + (a + d + TWO31 + (b + c + TWO31)) * TWO16 - 2 * (b * d);
    DivAdd((a + b * TWO16) * (c + d * TWO16), TWO31, z);
  }

  lemma Product2(x: nat, y: nat)
    ensures (x + TWO31) * (y + TWO31) == x * y + TWO31 * (x + y + TWO31)
  {
    Product(x, y, TWO31);
  }

  lemma Expand(a: nat, b: nat, c: nat, d: nat)
    ensures (a + b * TWO16) * (c + d * TWO16) == a * c + (a * d + b * c) * TWO16 + b * d * TWO32
  {
    calc {
      (a + b * TWO16) * (c + d * TWO16);
      a * (c + d * TWO16) + b * TWO16 * (c + d * TWO16);
      a * c + a * d * TWO16 + b * TWO16 * (c + d * TWO16);
      a * c + a * d * TWO16 + (b * c * TWO16 + b * d * TWO32);
    }
  }

  lemma Mul31LoIsLowProduct(x: nat, y: nat)
    requires x < TWO31 && y < TWO31
    ensures Mul31Lo(x, y) == x * y % TWO31
  {
    var a, b, c, d := x % TWO16, x / TWO16, y % TWO16, y / TWO16;
    TopSetIsSum(a);
    TopSetIsSum(b);
    TopSetIsSum(c);
    TopSetIsSum(d);
    var xl, xh, yl, yh := a + TWO31, b + TWO31, c + TWO31, d + TWO31;
    ReduceOnce(xl * yl, xl * yh, xh * yl, TWO16, TWO32);
    LowBits(xl * yl + (xl * yh + xh * yl) * TWO16);
    HalvesProduct(a, b, c, d);
    assert x == a + b * TWO16 && y == c + d * TWO16;
  }

  /** The product of two words whose lengths sum to at most 31 bits. */
  function Mul15(x: nat, y: nat): nat {
    TopSet(x) * TopSet(y) % TWO32 % TWO31
  }

  lemma MaskedLow(p: nat, r: nat, x: nat, y: nat)
    requires p == r + x * TWO31 + y * TWO31 + TWO62
    ensures p % TWO31 == r % TWO31
  {
    DivAdd(r, TWO31, x + y + TWO31);
  }

  lemma Mul15IsProduct(x: nat, y: nat)
    requires x < TWO31 && y < TWO31
    ensures Mul15(x, y) == x * y % TWO31 && (x * y < TWO31 ==> Mul15(x, y) == x * y)
  {
    var p, r := Operands(x, y);
    MaskedLow(p, r, x, y);
    LowBits(p);
    assert r < TWO31 ==> r % TWO31 == r;
  }
}
