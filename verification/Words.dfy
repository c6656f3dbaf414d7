/**
 * 256-bit words of the virtual machine: the square-and-multiply power, the arithmetic
 * right shift and the sign extension, each done with masks and shifts on an unsigned
 * word, against what they mean on two's-complement numbers.
 */
module Words {
  // ------------------------------------------------------------ division with rest

  /** Floor division and its rest, by their defining property. */
  function Div(x: int, m: nat): (q: int)
    requires m > 0
    ensures m * q <= x < m * q + m
  {
    x / m
  }

  function Mod(x: int, m: nat): (r: nat)
    requires m > 0
    ensures r < m && x == m * Div(x, m) + r
  {
    x - m * Div(x, m)
  }

  lemma {:induction false} MulLess(m: nat, a: int, b: int)
    requires m > 0 && a < b
    ensures m * a + m <= m * b
    decreases b - a
  {
    assert m * b == m * (b - 1) + m;
    if a < b - 1 {
      MulLess(m, a, b - 1);
    }
  }

  lemma MulMinus(a: int, b: int, c: int)
    ensures a * (b - c) == a * b - a * c && (b - c) * a == b * a - c * a && a * b == b * a
  {
  }

  lemma DivUnique(x: int, m: nat, q: int)
    requires m > 0 && m * q <= x < m * q + m
    ensures Div(x, m) == q && Mod(x, m) == x - m * q
  {
    var d := Div(x, m);
    hide Div;
    if d < q {
      MulLess(m, d, q);
    } else if q < d {
      MulLess(m, q, d);
    }
  }

  lemma ModAdd(x: int, m: nat, k: int)
    requires m > 0
    ensures Mod(x + m * k, m) == Mod(x, m)
  {
    hide Div, Mod;
    var q := Div(x, m);
    assert m * (q + k) == m * q + m * k;
    assert x == m * q + Mod(x, m);
    DivUnique(x + m * k, m, q + k);
  }

  lemma ModMul(a: int, b: int, m: nat)
    requires m > 0
    ensures Mod(Mod(a, m) * b, m) == Mod(a * b, m)
  {
    hide Div, Mod;
    var q, r := Div(a, m), Mod(a, m);
    assert a == m * q + r;
    assert a * b == r * b + m * (q * b) by {
      assert (m * q + r) * b == m * q * b + r * b;
      assert m * q * b == m * (q * b);
    }
    ModAdd(r * b, m, q * b);
  }

  function Pow2(n: nat): (p: nat)
    ensures p > 0
  {
    if n == 0 then 1 else 2 * Pow2(n - 1)
  }

  lemma {:induction false} Pow2Add(a: nat, b: nat)
    ensures Pow2(a + b) == Pow2(a) * Pow2(b)
  {
    if a > 0 {
      Pow2Add(a - 1, b);
      assert Pow2(a + b) == 2 * Pow2(a - 1 + b);
    }
  }

  const BITS: nat := 256

  /** The number of words. */
  function Modulus(): (m: nat)
    ensures m > 0
  {
    Pow2(BITS)
  }

  predicate Word(x: int) {
    0 <= x < Modulus()
  }

  // ------------------------------------------------------------------------ power

  function Pow(b: nat, e: nat): nat {
    if e == 0 then 1 else b * Pow(b, e - 1)
  }

  lemma {:induction false} PowSquare(b: nat, e: nat)
    ensures Pow(b * b, e) == Pow(b, 2 * e)
  {
    if e > 0 {
      PowSquare(b, e - 1);
      var p := Pow(b, 2 * (e - 1));
      assert Pow(b, 2 * e) == b * Pow(b, 2 * e - 1) == b * (b * p);
      assert b * (b * p) == b * b * p;
    }
  }

  lemma {:induction false} PowMod(b: nat, e: nat, m: nat)
    requires m > 0
    ensures Mod(Pow(Mod(b, m), e), m) == Mod(Pow(b, e), m)
  {
    hide Mod, Div;
    if e > 0 {
      var p, q := Pow(Mod(b, m), e - 1), Pow(b, e - 1);
      PowMod(b, e - 1, m);
      ModMul(b, p, m);
      ModMul(p, b, m);
      ModMul(q, b, m);
      assert b * p == p * b && b * q == q * b;
    }
  }

  /** One round of square-and-multiply. */
  lemma PowStep(r: nat, b: nat, e: nat, m: nat)
    requires m > 0 && e > 0
    ensures var next := Mod(b * b, m);
            var acc := if e % 2 == 1 then Mod(r * b, m) else r;
            Mod(acc * Pow(next, e / 2), m) == Mod(r * Pow(b, e), m)
  {
    var h := e / 2;
    var next := Mod(b * b, m);
    var p, s := Pow(next, h), Pow(b, 2 * h);
    PowMod(b * b, h, m);
    PowSquare(b, h);
    assert e % 2 == 1 ==> Pow(b, e) == b * s;
    assert e % 2 == 0 ==> e == 2 * h;
    hide Mod, Div, Pow;
    if e % 2 == 1 {
      ModMul(r * b, p, m);
      SameFactor(p, s, r * b, m);
      assert r * b * s == r * (b * s);
    } else {
      SameFactor(p, s, r, m);
    }
  }

  lemma SameFactor(p: nat, s: nat, r: nat, m: nat)
    requires m > 0 && Mod(p, m) == Mod(s, m)
    ensures Mod(r * p, m) == Mod(r * s, m)
  {
    hide Mod, Div;
    ModMul(p, r, m);
    ModMul(s, r, m);
    assert r * p == p * r && r * s == s * r;
  }

  /** `exp256`: square-and-multiply with every product cut to 256 bits. */
  method Exp256(base: nat, exponent: nat) returns (result: nat)
    requires Word(base) && Word(exponent)
    ensures Word(result) && result == Mod(Pow(base, exponent), Modulus())
  {
    var m := Modulus();
    hide Pow, Mod, Div, Modulus;
    ModulusSize();
    result := 1;
    var b, e := base, exponent;
    while e != 0
      invariant result < m && Mod(result * Pow(b, e), m) == Mod(Pow(base, exponent), m)
      decreases e
    {
      PowStep(result, b, e, m);
      if e % 2 == 1 {
        result := Mod(result * b, m);
      }
      b := Mod(b * b, m);
      e := e / 2;
    }
    PowZero(b);
    DivUnique(result, m, 0);
  }

  lemma PowZero(b: nat)
    ensures Pow(b, 0) == 1
  {
  }

  lemma ModulusSize()
    ensures Modulus() > 1
  {
    assert Pow2(BITS) == 2 * Pow2(BITS - 1);
  }

  // -------------------------------------------------------------- machine operations

  function Shl(x: nat, n: nat): nat {
    Mod(x * Pow2(n), Modulus())
  }

  function Shr(x: nat, n: nat): (r: nat) {
    DivNat(x, Pow2(n));
    Div(x, Pow2(n))
  }

  lemma DivNat(x: nat, m: nat)
    requires m > 0
    ensures 0 <= Div(x, m) <= x
  {
    var q := Div(x, m);
    hide Div;
    if q < 0 {
      MulLess(m, q, 0);
    } else if q > x {
      MulLess(m, x, q);
      MulAtLeast(m, x);
    }
  }

  lemma {:induction false} MulAtLeast(m: nat, x: nat)
    requires m > 0
    ensures m * x >= x
  {
    if x > 0 {
      MulAtLeast(m, x - 1);
      assert m * x == m * (x - 1) + m;
    }
  }

  function Or(x: nat, y: nat): nat
    decreases x + y
  {
    if x == 0 && y == 0 then 0
    else (if x % 2 == 1 || y % 2 == 1 then 1 else 0) + 2 * Or(x / 2, y / 2)
  }

  function And(x: nat, y: nat): nat
    decreases x + y
  {
    if x == 0 || y == 0 then 0
    else (if x % 2 == 1 && y % 2 == 1 then 1 else 0) + 2 * And(x / 2, y / 2)
  }

  function Not(x: nat): nat
    requires Word(x)
  {
    Modulus() - 1 - x
  }

  predicate TestBit(x: nat, i: nat) {
    Shr(x, i) % 2 == 1
  }

  /** A word read as a two's-complement number. */
  function Signed(u: nat): int {
    if TestBit(u, BITS - 1) then u - Modulus() else u
  }

  /** The word of a two's-complement number. */
  function Unsigned(s: int): int {
    if s >= 0 then s else Modulus() + s
  }

  // ------------------------------------------------------------- masks as arithmetic

  lemma {:induction false} OrZero(x: nat)
    ensures Or(0, x) == x && Or(x, 0) == x
  {
    if x > 0 {
      OrZero(x / 2);
    }
  }

  lemma OrBit(bit: nat, u: nat, v: nat)
    requires bit < 2
    ensures Or(bit + 2 * u, 2 * v) == bit + 2 * Or(u, v)
  {
    var x, y := bit + 2 * u, 2 * v;
    assert x % 2 == bit && x / 2 == u && y % 2 == 0 && y / 2 == v;
  }

  lemma OrStep(lo: nat, u: nat, v: nat, r: nat)
    requires Or(lo / 2 + u, v) == lo / 2 + r
    ensures Or(lo + 2 * u, 2 * v) == lo + 2 * r
  {
    hide Or;
    OrBit(lo % 2, lo / 2 + u, v);
    assert lo % 2 + 2 * (lo / 2 + u) == lo + 2 * u;
  }

  /** Or leaves the low bits alone where the other operand has none. */
  lemma {:induction false} OrShifted(lo: nat, a: nat, b: nat, k: nat)
    requires lo < Pow2(k)
    ensures Or(lo + a * Pow2(k), b * Pow2(k)) == lo + Or(a, b) * Pow2(k)
    decreases k
  {
    hide Or;
    if k > 0 {
      var p, o := Pow2(k - 1), Or(a, b);
      assert Pow2(k) == 2 * p;
      OrShifted(lo / 2, a, b, k - 1);
      hide Pow2;
      Doubled(a, p, Pow2(k));
      Doubled(b, p, Pow2(k));
      Doubled(o, p, Pow2(k));
      OrStep(lo, a * p, b * p, o * p);
    }
  }

  lemma Doubled(a: nat, p: nat, q: nat)
    requires q == 2 * p
    ensures a * q == 2 * (a * p)
  {
  }

  lemma {:induction false} OrOnes(a: nat, w: nat)
    requires a < Pow2(w)
    ensures Or(a, Pow2(w) - 1) == Pow2(w) - 1
    decreases w
  {
    if w > 0 {
      OrOnes(a / 2, w - 1);
      assert (Pow2(w) - 1) / 2 == Pow2(w - 1) - 1 && (Pow2(w) - 1) % 2 == 1;
    }
  }

  lemma {:induction false} AndMask(x: nat, k: nat)
    ensures And(x, Pow2(k) - 1) == Mod(x, Pow2(k))
    decreases k
  {
    hide Div, Mod;
    if k == 0 {
      DivUnique(x, 1, x);
    } else {
      var p := Pow2(k - 1);
      AndMask(x / 2, k - 1);
      assert (Pow2(k) - 1) / 2 == p - 1 && (Pow2(k) - 1) % 2 == 1;
      var q := Div(x / 2, p);
      assert x / 2 == p * q + Mod(x / 2, p);
      assert 2 * (p * q) == Pow2(k) * q;
      DivUnique(x, Pow2(k), q);
      AndZero(x, k);
    }
  }

  lemma AndZero(x: nat, k: nat)
    requires k > 0
    ensures And(0, x) == 0 && Mod(0, Pow2(k)) == 0
  {
    hide Div, Mod;
    DivUnique(0, Pow2(k), 0);
  }

  /** A single bit, tested by mask. */
  lemma {:induction false} AndBit(x: nat, k: nat)
    ensures And(x, Pow2(k)) == if TestBit(x, k) then Pow2(k) else 0
    decreases k
  {
    if k == 0 {
      DivUnique(x, 1, x);
    } else {
      HalfShift(x, k);
      AndBit(x / 2, k - 1);
      assert Pow2(k) % 2 == 0 && Pow2(k) / 2 == Pow2(k - 1);
      hide Shr;
      if x == 0 {
        AndZero(Pow2(k - 1), k);
      }
    }
  }

  lemma HalfShift(x: nat, k: nat)
    requires k > 0
    ensures Shr(x, k) == Shr(x / 2, k - 1)
  {
    hide Div;
    var p := Pow2(k - 1);
    var q := Div(x / 2, p);
    assert Pow2(k) * q == 2 * (p * q);
    DivUnique(x, Pow2(k), q);
  }

  lemma TwoHalves()
    ensures Modulus() == 2 * Pow2(BITS - 1)
  {
  }

  lemma Pow2Double(n: nat)
    ensures Pow2(n + 1) == 2 * Pow2(n)
  {
  }

  /** The sign bit splits the words in two halves. */
  lemma SignBit(x: nat)
    requires Word(x)
    ensures TestBit(x, BITS - 1) <==> x >= Pow2(BITS - 1)
  {
    hide Pow2;
    TwoHalves();
    var h := Pow2(BITS - 1);
    hide Modulus, Div;
    if x >= h {
      DivUnique(x, h, 1);
    } else {
      DivUnique(x, h, 0);
    }
  }

  /** `u2s` and `s2u` are inverse to each other on words and on numbers from -2^255 to 2^255 - 1. */
  lemma SignedInverse(u: nat, s: int)
    requires Word(u) && 0 <= s + Pow2(BITS - 1) < Modulus()
    ensures Unsigned(Signed(u)) == u && 0 <= Signed(u) + Pow2(BITS - 1) < Modulus()
    ensures Word(Unsigned(s)) && Signed(Unsigned(s)) == s
  {
    hide Pow2;
    TwoHalves();
    var m, h := Modulus(), Pow2(BITS - 1);
    SignBit(u);
    var v := Unsigned(s);
    hide Pow2, Modulus, TestBit;
    assert v == if s >= 0 then s else m + s;
    SignBit(v);
  }

  // ------------------------------------------------------------ arithmetic shift right

  /** What SAR means: floor division of the two's-complement number by 2^n. */
  function ShiftedRight(n: nat, x: nat): int {
    Unsigned(Div(Signed(x), Pow2(n)))
  }

  /** What SAR does. */
  function Sar(n: nat, x: nat): nat {
    if n >= 256 then
      if And(x, Pow2(255)) != 0 then Modulus() - 1 else 0
    else if And(x, Pow2(255)) != 0 then
      Or(Shr(x, n), Shl(Modulus() - 1, 256 - n))
    else
      Shr(x, n)
  }

  lemma WordSplit(n: nat)
    requires n <= BITS
    ensures Modulus() == Pow2(n) * Pow2(BITS - n)
  {
    hide Pow2;
    Pow2Add(n, BITS - n);
  }

  /** All ones shifted left by w: the high bits, and nothing at all for w = 256. */
  lemma OnesShifted(w: nat)
    requires w <= BITS
    ensures Shl(Modulus() - 1, w) == Modulus() - Pow2(w) >= 0
  {
    hide Pow2;
    WordSplit(w);
    assert Shl(Modulus() - 1, w) == Mod((Modulus() - 1) * Pow2(w), Modulus());
    var m, p := Modulus(), Pow2(w);
    hide *;
    MulAtLeast(Pow2(BITS - w), p);
    MulMinus(p, m, 1);
    MulMinus(m, p, 1);
    MulMinus(Pow2(BITS - w), p, 0);
    DivUnique((m - 1) * p, m, p - 1);
  }

  lemma QuotientSmall(x: nat, n: nat)
    requires Word(x) && n <= BITS
    ensures Shr(x, n) < Pow2(BITS - n)
  {
    hide Pow2;
    WordSplit(n);
    var p, q := Pow2(n), Shr(x, n);
    assert p * q <= x;
    hide Pow2, Modulus, Div, Shr;
    var w := Pow2(BITS - n);
    if q > w {
      MulLess(p, w, q);
    }
  }

  lemma SarFloor(n: nat, x: nat)
    requires Word(x) && n < 256
    ensures Div(x - Modulus(), Pow2(n)) == Shr(x, n) - Pow2(BITS - n)
  {
    hide Pow2;
    var m, p, w, q := Modulus(), Pow2(n), Pow2(BITS - n), Shr(x, n);
    WordSplit(n);
    assert p * q <= x < p * q + p;
    hide *;
    MulMinus(p, q, w);
    DivUnique(x - m, p, q - w);
  }

  lemma SarNegative(n: nat, x: nat)
    requires Word(x) && TestBit(x, BITS - 1) && n < 256
    ensures Or(Shr(x, n), Shl(Modulus() - 1, BITS - n)) == ShiftedRight(n, x)
  {
    hide Pow2, Or, Shl, Shr, Div, Mod, TestBit;
    var w, q := Pow2(BITS - n), Shr(x, n);
    QuotientSmall(x, n);
    OnesShifted(BITS - n);
    SarFloor(n, x);
    OrHigh(q, BITS - n);
    SmallMod(q, w);
  }

  lemma SmallMod(x: nat, m: nat)
    requires x < m
    ensures Mod(x, m) == x
  {
    hide Div, Mod;
    DivUnique(x, m, 0);
  }

  lemma UnsignedIs(s: int)
    ensures Unsigned(s) == if s >= 0 then s else Modulus() + s
  {
  }

  lemma SarFar(n: nat, x: nat)
    requires Word(x) && n >= 256
    ensures ShiftedRight(n, x) == if TestBit(x, BITS - 1) then Modulus() - 1 else 0
  {
    hide Pow2;
    var m, p := Modulus(), Pow2(n);
    Pow2Add(BITS, n - BITS);
    SignBit(x);
    var s := Signed(x);
    assert s == if TestBit(x, BITS - 1) then x - m else x;
    assert ShiftedRight(n, x) == Unsigned(Div(s, p));
    UnsignedIs(-1);
    UnsignedIs(0);
    hide *;
    MulAtLeast(Pow2(n - BITS), m);
    MulMinus(m, Pow2(n - BITS), 0);
    MulMinus(p, 0, 1);
    if TestBit(x, BITS - 1) {
      DivUnique(s, p, -1);
    } else {
      DivUnique(s, p, 0);
    }
  }

  /** Shift-and-mask is floor division by 2^n, for every n: 0, 256 and beyond included. */
  lemma SarIsFloorDivision(n: nat, x: nat)
    requires Word(x)
    ensures Sar(n, x) == ShiftedRight(n, x) && Word(Sar(n, x))
  {
    hide Pow2;
    AndBit(x, 255);
    if n >= 256 {
      SarFar(n, x);
      ModulusSize();
    } else if TestBit(x, 255) {
      SarNegative(n, x);
      SarWord(n, x);
    } else {
      DivNat(x, Pow2(n));
    }
  }

  lemma SarWord(n: nat, x: nat)
    requires Word(x) && TestBit(x, BITS - 1) && n < 256
    ensures Word(ShiftedRight(n, x))
  {
    hide Pow2;
    var m, p := Modulus(), Pow2(n);
    hide Pow2, Modulus, TestBit;
    var q := Div(x - m, p);
    hide Div;
    if q >= 0 {
      if q > 0 { MulLess(p, 0, q); }
    } else {
      MulAtLeast(p, -(q + 1));
      assert p * (q + 1) == p * q + p;
      assert p * -(q + 1) == -(p * (q + 1));
    }
  }

  // ------------------------------------------------------------------ sign extension

  /** What SIGNEXTEND means: the low k + 1 bytes read as a two's-complement number. */
  function SignExtended(k: nat, x: nat): int {
    if k >= 31 then x else
      var w := 8 * k + 8;
      var low := Mod(x, Pow2(w));
      if low >= Pow2(w - 1) then Unsigned(low - Pow2(w)) else low
  }

  /** What SIGNEXTEND does. */
  function SignExtend(k: nat, x: nat): nat
    requires Word(x)
  {
    if k < 31 then
      var t := 8 * k + 7;
      MaskWord(t);
      var mask := Shl(1, t) - 1;
      if TestBit(x, t) then Or(x, Not(mask)) else And(x, mask)
    else
      x
  }

  lemma MaskWord(t: nat)
    requires t < BITS
    ensures Shl(1, t) == Pow2(t) && Word(Pow2(t) - 1)
  {
    hide Pow2;
    WordSplit(t);
    var m, p := Modulus(), Pow2(t);
    var h := Pow2(BITS - t - 1);
    Pow2Double(BITS - t - 1);
    assert Shl(1, t) == Mod(p, m);
    assert Word(p - 1) <==> p <= m;
    hide *;
    MulAtLeast(h, 2 * p);
    TwiceProduct(p, h);
    DivUnique(p, m, 0);
  }

  lemma TwiceProduct(p: nat, h: nat)
    ensures p * (2 * h) == h * (2 * p)
  {
  }

  lemma LowBits(x: nat, t: nat)
    ensures var lo, bit := Mod(x, Pow2(t)), Shr(x, t) % 2;
            Mod(x, Pow2(t + 1)) == lo + (if bit == 1 then Pow2(t) else 0)
  {
    var p, q := Pow2(t), Shr(x, t);
    assert Pow2(t + 1) == 2 * p;
    hide Pow2, Div, Mod;
    assert x == p * q + Mod(x, p);
    var h, bit := q / 2, q % 2;
    assert p * q == (2 * p) * h + (if bit == 1 then p else 0) by {
      assert q == 2 * h + bit;
      assert p * (2 * h + bit) == (2 * p) * h + p * bit;
    }
    DivUnique(x, 2 * p, h);
  }

  /** Setting all bits from t up. */
  lemma OrHigh(x: nat, t: nat)
    requires Word(x) && t <= BITS
    ensures Modulus() >= Pow2(t)
    ensures Or(x, Modulus() - Pow2(t)) == Modulus() - Pow2(t) + Mod(x, Pow2(t))
  {
    hide Pow2, Or;
    var m, p, w, q, lo := Modulus(), Pow2(t), Pow2(BITS - t), Shr(x, t), Mod(x, Pow2(t));
    WordSplit(t);
    QuotientSmall(x, t);
    assert x == p * q + lo;
    hide *;
    MulMinus(p, w, 1);
    MulMinus(p, q, 0);
    MulAtLeast(w, p);
    MulMinus(p, w, 0);
    OrShifted(lo, q, w - 1, t);
    OrOnes(q, BITS - t);
  }

  lemma ExtendedNegative(k: nat, x: nat)
    requires Word(x) && k < 31 && TestBit(x, 8 * k + 7)
    ensures SignExtended(k, x) == Modulus() - Pow2(8 * k + 7) + Mod(x, Pow2(8 * k + 7))
  {
    hide Pow2, Mod, Div, Modulus;
    LowBits(x, 8 * k + 7);
    Pow2Double(8 * k + 7);
  }

  lemma ExtendNegative(k: nat, x: nat)
    requires Word(x) && k < 31 && TestBit(x, 8 * k + 7)
    ensures Word(Pow2(8 * k + 7) - 1) && Or(x, Not(Pow2(8 * k + 7) - 1)) == SignExtended(k, x)
  {
    hide Pow2, Mod, Div, Or, SignExtended;
    MaskWord(8 * k + 7);
    OrHigh(x, 8 * k + 7);
    ExtendedNegative(k, x);
  }

  lemma ExtendPositive(k: nat, x: nat)
    requires Word(x) && k < 31 && !TestBit(x, 8 * k + 7)
    ensures And(x, Pow2(8 * k + 7) - 1) == SignExtended(k, x)
  {
    hide Pow2;
    var t := 8 * k + 7;
    LowBits(x, t);
    AndMask(x, t);
    hide Pow2, Div, Mod, Shr, And;
  }

  /** Masking extends the sign as two's complement does, for every byte index. */
  lemma SignExtendIsSigned(k: nat, x: nat)
    requires Word(x)
    ensures SignExtend(k, x) == SignExtended(k, x)
  {
    hide Pow2;
    if k < 31 {
      MaskWord(8 * k + 7);
      if TestBit(x, 8 * k + 7) {
        ExtendNegative(k, x);
      } else {
        ExtendPositive(k, x);
      }
    }
  }

  lemma SignExtendedWord(k: nat, x: nat)
    requires Word(x)
    ensures Word(SignExtended(k, x)) && (k >= 31 ==> SignExtended(k, x) == x)
  {
    hide Pow2, Mod, Div;
    if k < 31 {
      MaskWord(8 * k + 7);
      if TestBit(x, 8 * k + 7) {
        ExtendedNegative(k, x);
      } else {
        LowBits(x, 8 * k + 7);
      }
    }
  }

  // -------------------------------------------------------------------------- in numbers

  lemma ModulusInNumbers()
    ensures Modulus() == 0x1_0000_0000_0000_0000_0000_0000_0000_0000_0000_0000_0000_0000_0000_0000_0000_0000
    ensures Pow2(255) == 0x8000_0000_0000_0000_0000_0000_0000_0000_0000_0000_0000_0000_0000_0000_0000_0000
  {
    hide Pow2;
    SixtyFourBits();
    Pow2Add(64, 64);
    Pow2Add(128, 128);
    TwoHalves();
  }

  lemma SixtyFourBits()
    ensures Pow2(64) == 0x1_0000_0000_0000_0000
  {
    hide Pow2;
    EightBits();
    Pow2Add(8, 8);
    Pow2Add(16, 16);
    Pow2Add(32, 32);
  }

  lemma EightBits()
    ensures Pow2(8) == 0x100
  {
    assert Pow2(4) == 16;
  }

  /** The two's-complement reading: from 2^255 on, 2^256 less. */
  lemma SignedInNumbers(u: nat)
    requires Word(u)
    ensures Signed(u) == if u >= 0x8000_0000_0000_0000_0000_0000_0000_0000_0000_0000_0000_0000_0000_0000_0000_0000
                         then u - 0x1_0000_0000_0000_0000_0000_0000_0000_0000_0000_0000_0000_0000_0000_0000_0000_0000 else u
  {
    hide Pow2, TestBit;
    ModulusInNumbers();
    SignBit(u);
  }
}
