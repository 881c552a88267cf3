/** The machine arithmetic the C sources rely on: unsigned words are naturals
    below a power of two, and the bit operators are defined bit by bit so that
    every masking trick of the sources is a theorem rather than an assumption. */
module Bits {

  /** SIZE_MAX + 1 on the 64-bit targets. */
  const WORD: nat := 0x1_0000_0000_0000_0000
  const TWO32: nat := 0x1_0000_0000

  function Pow2(k: nat): (r: nat)
    ensures r > 0
  {
    if k == 0 then 1 else 2 * Pow2(k - 1)
  }

  predicate IsPow2(a: nat) {
    exists k: nat :: k <= 63 && a == Pow2(k)
  }

  function And(x: nat, y: nat): nat {
    if x == 0 || y == 0 then 0
    else 2 * And(x / 2, y / 2) + (if x % 2 == 1 && y % 2 == 1 then 1 else 0)
  }

  function Or(x: nat, y: nat): nat
    decreases x + y
  {
    if x == 0 then y else if y == 0 then x
    else 2 * Or(x / 2, y / 2) + (if x % 2 == 1 || y % 2 == 1 then 1 else 0)
  }

  function Xor(x: nat, y: nat): nat
    decreases x + y
  {
    if x == 0 then y else if y == 0 then x
    else 2 * Xor(x / 2, y / 2) + (if x % 2 != y % 2 then 1 else 0)
  }

  /** A 64-bit word holding x. */
  function Wrap(x: int): (r: nat)
    ensures r < WORD
  {
    x % WORD
  }

  lemma WrapSmall(x: int)
    requires 0 <= x < WORD
    ensures Wrap(x) == x
  {}

  /** Two's complement negation of a 64-bit word. */
  function Neg(x: nat): nat
    requires x < WORD
  {
    (WORD - x) % WORD
  }

  predicate Bit(x: nat, k: nat) {
    (x / Pow2(k)) % 2 == 1
  }

  lemma Pow2At64()
    ensures Pow2(64) == WORD
  {
    hide Pow2;
    assert Pow2(8) == 256 by { Pow2At8(); }
    assert Pow2(16) == 0x1_0000 by { Pow2Add(8, 8); }
    assert Pow2(32) == 0x1_0000_0000 by { Pow2Add(16, 16); }
    Pow2Add(32, 32);
  }

  lemma Pow2At8()
    ensures Pow2(8) == 256
  {
    assert Pow2(2) == 4;
    assert Pow2(4) == 16;
    assert Pow2(6) == 64;
  }

  lemma {:induction false} Pow2Add(a: nat, b: nat)
    ensures Pow2(a + b) == Pow2(a) * Pow2(b)
  {
    if a > 0 {
      Pow2Add(a - 1, b);
      assert 2 * (Pow2(a - 1) * Pow2(b)) == Pow2(a) * Pow2(b);
    }
  }

  lemma {:induction false} Pow2Mono(a: nat, b: nat)
    requires a <= b
    ensures Pow2(a) <= Pow2(b)
    decreases b
  {
    if a < b { Pow2Mono(a, b - 1); }
  }

  /** Splitting a quotient and remainder by 2*m through the lowest bit. */
  lemma HalveMod(x: nat, m: nat)
    requires m > 0
    ensures x % (2 * m) == 2 * ((x / 2) % m) + x % 2
    ensures x / (2 * m) == (x / 2) / m
  {
    var h := x / 2;
    var q, r := h / m, h % m;
    assert h == m * q + r;
    assert x == (2 * m) * q + (2 * r + x % 2) by {
      assert 2 * (m * q) == (2 * m) * q;
    }
    DivModUnique(x, 2 * m, q, 2 * r + x % 2);
  }

  lemma MulAtLeast(m: nat, d: int)
    requires d >= 1
    ensures m * d >= m
  {
    assert m * d == m * (d - 1) + m;
    assert m * (d - 1) >= 0;
  }

  lemma DivModUnique(x: int, m: nat, q: int, r: nat)
    requires m > 0 && r < m && x == m * q + r
    ensures x / m == q && x % m == r
  {
    var q', r' := x / m, x % m;
    assert x == m * q' + r';
    assert m * (q' - q) == m * q' - m * q;
    assert m * (q - q') == m * q - m * q';
    if q' > q { MulAtLeast(m, q' - q); }
    if q' < q { MulAtLeast(m, q - q'); }
  }

  lemma ModCongruent(x: int, y: int, k: int, m: nat)
    requires m > 0 && x == y + m * k
    ensures x % m == y % m
  {
    assert x == m * (y / m + k) + y % m;
    DivModUnique(x, m, y / m + k, y % m);
  }

  lemma AndHalves(x: nat, y: nat)
    ensures And(x, y) == 2 * And(x / 2, y / 2) + (if x % 2 == 1 && y % 2 == 1 then 1 else 0)
  {}

  /** `x & (2^k - 1)` is the remainder modulo 2^k. */
  lemma {:induction false} AndLowMask(x: nat, k: nat)
    ensures And(x, Pow2(k) - 1) == x % Pow2(k)
    decreases k
  {
    hide And, Pow2;
    if k == 0 {
      MaskOfNone(x);
    } else {
      var m := Pow2(k - 1);
      ShlStep(0, k);
      AndOdd(x, m);
      HalveMod(x, m);
      AndLowMask(x / 2, k - 1);
    }
  }

  lemma MaskOfNone(x: nat)
    ensures And(x, Pow2(0) - 1) == x % Pow2(0)
  {}

  lemma AndOdd(x: nat, m: nat)
    requires m > 0
    ensures And(x, 2 * m - 1) == 2 * And(x / 2, m - 1) + x % 2
  {
    hide And;
    AndHalves(x, 2 * m - 1);
    assert (2 * m - 1) / 2 == m - 1 && (2 * m - 1) % 2 == 1;
  }

  lemma AndEven(x: nat, y: nat)
    ensures And(x, 2 * y) == 2 * And(x / 2, y)
  {
    hide And;
    AndHalves(x, 2 * y);
    assert (2 * y) / 2 == y;
  }

  lemma PowOfZero()
    ensures Pow2(0) == 1
  {}

  /** `x & -2^k`, equally `x & ~(2^k - 1)`, in a word of w bits rounds down to a multiple of 2^k. */
  lemma {:induction false} AndHighMask(x: nat, k: nat, w: nat)
    requires k <= w && x < Pow2(w)
    ensures Pow2(k) <= Pow2(w)
    ensures And(x, Pow2(w) - Pow2(k)) == x - x % Pow2(k)
    decreases w
  {
    hide Pow2, And;
    Pow2Mono(k, w);
    if k == 0 {
      PowOfZero();
      AndLowMask(x, w);
      SmallMod(x, Pow2(w));
    } else {
      var m, n := Pow2(k - 1), Pow2(w - 1);
      ShlStep(0, k);
      ShlStep(0, w);
      Pow2Mono(k - 1, w - 1);
      AndEven(x, n - m);
      HalveMod(x, m);
      AndHighMask(x / 2, k - 1, w - 1);
    }
  }

  lemma SmallMod(x: nat, m: nat)
    requires x < m
    ensures x % m == x && x / m == 0
  {
    DivModUnique(x, m, 0, x);
  }

  /** `x & 2^k` is non-zero exactly when bit k of x is set. */
  lemma {:induction false} AndBit(x: nat, k: nat)
    ensures And(x, Pow2(k)) != 0 <==> Bit(x, k)
    decreases k
  {
    if x > 0 {
      if k == 0 {
        assert And(x / 2, 0) == 0;
      } else {
        HalveMod(x, Pow2(k - 1));
        AndBit(x / 2, k - 1);
      }
    }
  }

  /** Fields packed with `|` behave like a sum when they do not overlap. */
  lemma {:induction false} OrDisjoint(x: nat, y: nat, k: nat)
    requires x % Pow2(k) == 0 && y < Pow2(k)
    ensures Or(x, y) == x + y
    decreases k
  {
    if x > 0 && y > 0 {
      HalveMod(x, Pow2(k - 1));
      OrDisjoint(x / 2, y / 2, k - 1);
    }
  }

  /** `-a & x` for a power of two a: the source spells rounding masks both ways. */
  lemma RoundDown(x: nat, a: nat)
    requires IsPow2(a) && x < WORD
    ensures 0 < a < WORD && And(x, Neg(a)) == x - x % a
  {
    var k: nat :| k <= 63 && a == Pow2(k);
    assert Pow2(64) == 2 * Pow2(63);
    hide Pow2, And;
    Pow2At64();
    Pow2Mono(k, 63);
    SmallMod(WORD - a, WORD);
    AndHighMask(x, k, 64);
  }

  lemma LowMask(x: nat, a: nat)
    requires IsPow2(a)
    ensures a > 0 && And(x, a - 1) == x % a && And(a - 1, x) == x % a
  {
    var k: nat :| k <= 63 && a == Pow2(k);
    AndLowMask(x, k);
    AndComm(x, a - 1);
  }

  lemma {:induction false} AndComm(x: nat, y: nat)
    ensures And(x, y) == And(y, x)
    decreases x
  {
    if x > 0 && y > 0 { AndComm(x / 2, y / 2); }
  }

  /** A power of two that fits in a word divides the word size, so reducing
      modulo the word size first does not disturb residues modulo it. */
  lemma ModThroughWord(x: int, a: nat)
    requires IsPow2(a)
    ensures a > 0 && WORD % a == 0 && (x % WORD) % a == x % a
  {
    var k: nat :| k <= 63 && a == Pow2(k);
    Pow2At64();
    Pow2Add(k, 64 - k);
    var c := Pow2(64 - k);
    DivModUnique(WORD, a, c, 0);
    ModThroughMultiple(x, a, c);
  }

  lemma ModThroughMultiple(x: int, a: nat, c: nat)
    requires a > 0 && c > 0
    ensures a * c > 0 && (x % (a * c)) % a == x % a
  {
    var n := a * c;
    MulAtLeast(a, c);
    var q := x / n;
    assert x == n * q + x % n;
    assert n * q == a * (c * q);
    ModCongruent(x, x % n, c * q, a);
  }

  /** The smaller of two powers of two divides the larger. */
  lemma Pow2Divides(a: nat, b: nat)
    requires IsPow2(a) && IsPow2(b) && a <= b
    ensures a > 0 && b % a == 0
  {
    var j: nat :| j <= 63 && a == Pow2(j);
    var k: nat :| k <= 63 && b == Pow2(k);
    if k < j { Pow2Mono(k + 1, j); }
    Pow2Add(j, k - j);
    DivModUnique(b, a, Pow2(k - j), 0);
  }

  /** Round up to a multiple of a power of two, in 64-bit arithmetic:
      `(p + mask) & ~mask`, equally `(p + a - 1) & -a`. */
  function AlignUp(p: nat, align: nat): nat
    requires 0 < align < WORD
  {
    And((p + (align - 1)) % WORD, Neg(align))
  }

  lemma AlignUpRounds(p: nat, align: nat)
    requires IsPow2(align) && p < WORD
    ensures 0 < align < WORD
    ensures p + align <= WORD ==> p <= AlignUp(p, align) < p + align && AlignUp(p, align) % align == 0
    ensures p + align > WORD ==> AlignUp(p, align) == 0
    ensures p % align == 0 && p + align <= WORD ==> AlignUp(p, align) == p
  {
    hide And, IsPow2, Neg;
    var x := (p + (align - 1)) % WORD;
    RoundDown(x, align);
    RoundBounds(x, align, p);
  }

  lemma RoundBounds(x: nat, a: nat, p: nat)
    requires a > 0
    ensures x == p + (a - 1) ==> p <= x - x % a < p + a && (p % a == 0 ==> x - x % a == p)
    ensures (x - x % a) % a == 0
    ensures x < a ==> x - x % a == 0
  {
    ModBelow(x, a);
    if x < a { SmallMod(x, a); }
    if p % a == 0 { RoundsToItself(p, a); }
  }

  lemma RoundsToItself(p: nat, align: nat)
    requires align > 0 && p % align == 0
    ensures (p + (align - 1)) % align == align - 1
  {
    assert p == align * (p / align);
    DivModUnique(p + (align - 1), align, p / align, align - 1);
  }

  /** Rounding down gives a multiple. */
  lemma ModBelow(x: nat, a: nat)
    requires a > 0
    ensures (x - x % a) % a == 0 && x % a <= x
  {
    var q := x / a;
    assert x == a * q + x % a;
    assert a * q >= 0;
    DivModUnique(x - x % a, a, q, 0);
  }

  lemma {:induction false} AndAtMost(x: nat, y: nat)
    ensures And(x, y) <= x && And(x, y) <= y
    decreases x
  {
    if x > 0 && y > 0 { AndAtMost(x / 2, y / 2); }
  }

  lemma XorHalves(x: nat, y: nat)
    ensures Xor(x, y) == 2 * Xor(x / 2, y / 2) + (if x % 2 != y % 2 then 1 else 0)
  {}

  /** x << k, without a word size. */
  function Shl(x: nat, k: nat): nat {
    if k == 0 then x else 2 * Shl(x, k - 1)
  }

  lemma {:induction false} ShlIsProduct(x: nat, k: nat)
    ensures Shl(x, k) == x * Pow2(k)
  {
    if k > 0 {
      ShlIsProduct(x, k - 1);
      assert 2 * (x * Pow2(k - 1)) == x * (2 * Pow2(k - 1));
    }
  }

  lemma ShlStep(x: nat, k: nat)
    requires k > 0
    ensures Shl(x, k) == 2 * Shl(x, k - 1) && Pow2(k) == 2 * Pow2(k - 1)
  {}

  lemma HalveSum(x: nat, b: nat)
    ensures (2 * x + b) / 2 == x + b / 2 && (2 * x + b) % 2 == b % 2
  {}

  /** Bit operators act separately on the bits above and below position k. */
  lemma AndJoin(x: nat, b: nat, y: nat, d: nat, z: nat, p: nat)
    requires And(x + b / 2, y + d / 2) == z + And(b / 2, d / 2) && And(b / 2, d / 2) < p
    ensures And(2 * x + b, 2 * y + d) == 2 * z + And(b, d) && And(b, d) < 2 * p
  {
    hide And;
    HalveSum(x, b);
    HalveSum(y, d);
    AndHalves(2 * x + b, 2 * y + d);
    AndHalves(b, d);
  }

  lemma AndBase(a: nat, b: nat, c: nat, d: nat)
    requires b < Pow2(0) && d < Pow2(0)
    ensures And(Shl(a, 0) + b, Shl(c, 0) + d) == Shl(And(a, c), 0) + And(b, d) && And(b, d) < Pow2(0)
  {}

  lemma {:induction false} AndSplit(a: nat, b: nat, c: nat, d: nat, k: nat)
    requires b < Pow2(k) && d < Pow2(k)
    ensures And(Shl(a, k) + b, Shl(c, k) + d) == Shl(And(a, c), k) + And(b, d)
    ensures And(b, d) < Pow2(k)
    decreases k
  {
    hide And, Shl, Pow2;
    if k == 0 {
      AndBase(a, b, c, d);
    } else {
      ShlStep(a, k);
      ShlStep(c, k);
      ShlStep(And(a, c), k);
      AndSplit(a, b / 2, c, d / 2, k - 1);
      AndJoin(Shl(a, k - 1), b, Shl(c, k - 1), d, Shl(And(a, c), k - 1), Pow2(k - 1));
    }
  }

  lemma XorJoin(x: nat, b: nat, y: nat, d: nat, z: nat, p: nat)
    requires Xor(x + b / 2, y + d / 2) == z + Xor(b / 2, d / 2) && Xor(b / 2, d / 2) < p
    ensures Xor(2 * x + b, 2 * y + d) == 2 * z + Xor(b, d) && Xor(b, d) < 2 * p
  {
    hide Xor;
    HalveSum(x, b);
    HalveSum(y, d);
    XorHalves(2 * x + b, 2 * y + d);
    XorHalves(b, d);
  }

  lemma XorBase(a: nat, b: nat, c: nat, d: nat)
    requires b < Pow2(0) && d < Pow2(0)
    ensures Xor(Shl(a, 0) + b, Shl(c, 0) + d) == Shl(Xor(a, c), 0) + Xor(b, d) && Xor(b, d) < Pow2(0)
  {}

  lemma {:induction false} XorSplit(a: nat, b: nat, c: nat, d: nat, k: nat)
    requires b < Pow2(k) && d < Pow2(k)
    ensures Xor(Shl(a, k) + b, Shl(c, k) + d) == Shl(Xor(a, c), k) + Xor(b, d)
    ensures Xor(b, d) < Pow2(k)
    decreases k
  {
    hide Xor, Shl, Pow2;
    if k == 0 {
      XorBase(a, b, c, d);
    } else {
      ShlStep(a, k);
      ShlStep(c, k);
      ShlStep(Xor(a, c), k);
      XorSplit(a, b / 2, c, d / 2, k - 1);
      XorJoin(Shl(a, k - 1), b, Shl(c, k - 1), d, Shl(Xor(a, c), k - 1), Pow2(k - 1));
    }
  }

  lemma OrOne(x: nat)
    ensures Or(x, 1) == if x % 2 == 1 then x else x + 1
  {
    assert Or(x / 2, 0) == x / 2;
  }
}
