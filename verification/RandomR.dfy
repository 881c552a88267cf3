/** The reentrant generator of libgcompat: `srandom_r`, `initstate_r`,
    `setstate_r` and `random_r`. Words are 32-bit patterns; additions wrap. */
module RandomR {
  import opened Bits

  function Lcg31(x: nat): (r: nat)
    ensures r < 0x8000_0000
  {
    (1103515245 * x + 12345) % 0x8000_0000
  }

  /** The source masks the wrapped 32-bit product instead. */
  lemma Lcg31IsMasked(x: nat)
    ensures And((1103515245 * x + 12345) % TWO32, 0x7fff_ffff) == Lcg31(x)
  {
    hide And;
    var y := 1103515245 * x + 12345;
    LowMask31(y % TWO32);
    ModThroughMultiple(y, 0x8000_0000, 2);
  }

  lemma LowMask31(x: nat)
    ensures And(x, 0x7fff_ffff) == x % 0x8000_0000
  {
    Pow2At8();
    assert Pow2(16) == 0x1_0000 by { Pow2Add(8, 8); }
    assert Pow2(32) == TWO32 by { Pow2Add(16, 16); }
    assert Pow2(32) == 2 * Pow2(31);
    AndLowMask(x, 31);
  }

  function Lcg64(x: nat): (r: nat)
    ensures r < WORD
  {
    (6364136223846793005 * x + 1) % WORD
  }

  // ----- the packed header x[-1]

  /** (n<<16)|(i<<8)|j in 32 bits; n may be negative. */
  function Pack(n: int, i: nat, j: nat): nat {
    Or(Or(n % 0x1_0000 * 0x1_0000, i * 0x100), j)
  }

  /** The header is a signed word, so n is its upper half with the sign kept. */
  function UnpackN(h: nat): int {
    if h < 0x8000_0000 then h / 0x1_0000 else h / 0x1_0000 - 0x1_0000
  }

  function UnpackI(h: nat): nat { And(h / 0x100, 0xff) }
  function UnpackJ(h: nat): nat { And(h, 0xff) }

  /** Indices that fit a byte and a degree that fits 16 bits, of either sign,
      come back from the header unchanged. */
  lemma PackUnpack(n: int, i: nat, j: nat)
    requires -0x8000 <= n < 0x8000 && i < 0x100 && j < 0x100
    ensures var h := Pack(n, i, j); UnpackN(h) == n && UnpackI(h) == i && UnpackJ(h) == j
    ensures Pack(n, i, j) < TWO32
  {
    hide And, Or, Pow2;
    assert Pow2(8) == 0x100 by { Pow2At8(); }
    assert Pow2(16) == 0x1_0000 by { Pow2Add(8, 8); }
    var u := n % 0x1_0000;
    assert (u * 0x1_0000) % 0x1_0000 == 0;
    OrDisjoint(u * 0x1_0000, i * 0x100, 16);
    var ui := u * 0x1_0000 + i * 0x100;
    assert ui % 0x100 == 0;
    OrDisjoint(ui, j, 8);
    var h := ui + j;
    assert Pack(n, i, j) == h;
    AndLowMask(h / 0x100, 8);
    AndLowMask(h, 8);
    assert h / 0x100 == u * 0x100 + i;
  }

  // ----- the generator as a value

  /** i - j, modulo n, is this for as long as the generator runs. */
  function Lag(n: nat): nat {
    if n == 31 || n == 7 then 3 else 1
  }

  /** x[0..n), or x[0] alone when n is 0, with the two indices. */
  datatype Gen = Gen(n: nat, i: nat, j: nat, x: seq<nat>)

  ghost predicate GenOk(g: Gen) {
    && (forall k :: 0 <= k < |g.x| ==> g.x[k] < TWO32)
    && if g.n == 0 then |g.x| == 1 && g.i < 0x100 && g.j < 0x100
       else 3 < g.n <= 63 && |g.x| == g.n && g.j < g.n && g.i == Ahead(g.j, Lag(g.n), g.n)
  }

  /** j + lag around a ring of n. */
  function Ahead(j: nat, lag: nat, n: nat): nat {
    if j + lag < n then j + lag else j + lag - n
  }

  lemma AheadIsMod(j: nat, lag: nat, n: nat)
    requires j < n && lag <= n
    ensures Ahead(j, lag, n) == (j + lag) % n
  {
    if j + lag < n { SmallMod(j + lag, n); } else { DivModUnique(j + lag, n, 1, j + lag - n); }
  }

  /** int32_t from its bit pattern. */
  function Signed(w: nat): int {
    if w < 0x8000_0000 then w else w - TWO32
  }

  /** One call of random_r. */
  function Next(g: Gen): (Gen, int)
    requires GenOk(g)
  {
    if g.n == 0 then
      var k := Lcg31(g.x[0]);
      (g.(x := [k]), k)
    else
      var w := (g.x[g.i] + g.x[g.j]) % TWO32;
      (Gen(g.n, if g.i + 1 == g.n then 0 else g.i + 1, if g.j + 1 == g.n then 0 else g.j + 1, g.x[g.i := w]),
       Signed(w) / 2)
  }

  lemma NextOk(g: Gen)
    requires GenOk(g)
    ensures GenOk(Next(g).0) && Next(g).0.n == g.n
  {}

  function Iterate(g: Gen, t: nat): (r: Gen)
    requires GenOk(g)
    ensures GenOk(r) && r.n == g.n
  {
    if t == 0 then g
    else
      NextOk(Iterate(g, t - 1));
      Next(Iterate(g, t - 1)).0
  }

  /** The result of call number t, counting from 0. */
  function Output(g: Gen, t: nat): int
    requires GenOk(g)
  {
    Next(Iterate(g, t)).1
  }

  // ----- the recurrence it implements

  /** y[t] = y[t - n] + y[t - lag] modulo 2^32, started from the n words. */
  function Y(x: seq<nat>, lag: nat, t: nat): nat
    requires 0 < lag <= |x|
  {
    if t < |x| then x[(t + lag) % |x|] else (Y(x, lag, t - |x|) + Y(x, lag, t - lag)) % TWO32
  }

  /** After t calls the buffer holds the last n terms, each at its place in the ring. */
  ghost predicate Holds(x: seq<nat>, lag: nat, g: Gen, t: nat)
    requires 0 < lag <= |x|
  {
    && GenOk(g) && g.n == |x| == |g.x| && g.j == t % |x| && g.i == (t + lag) % |x|
    && forall s :: t <= s < t + |x| ==> g.x[(s + lag) % |x|] == Y(x, lag, s)
  }

  lemma SlotsDiffer(n: nat, a: nat, b: nat)
    requires n > 0 && a < b < a + n
    ensures a % n != b % n
  {
    if a % n == b % n {
      var d := b / n - a / n;
      assert b - a == n * d by { assert b == n * (b / n) + b % n && a == n * (a / n) + a % n; }
      assert n * d == n - n * (1 - d);
      if d >= 1 { MulAtLeast(n, d); } else { MulAtLeast(n, 1 - d); }
    }
  }

  lemma NextIndex(n: nat, a: nat)
    requires n > 0
    ensures (a + 1) % n == if a % n + 1 == n then 0 else a % n + 1
  {
    var q, r := a / n, a % n;
    assert a == n * q + r;
    if r + 1 == n {
      assert a + 1 == n * (q + 1);
      DivModUnique(a + 1, n, q + 1, 0);
    } else {
      DivModUnique(a + 1, n, q, r + 1);
    }
  }

  /** The two words added are the terms n and lag steps back. */
  lemma WordsAdded(x: seq<nat>, lag: nat, g: Gen, t: nat)
    requires 0 < lag < |x| && lag == Lag(|x|) && Holds(x, lag, g, t)
    ensures g.i < |g.x| && g.x[g.i] == Y(x, lag, t)
    ensures g.j < |g.x| && g.x[g.j] == Y(x, lag, t + |x| - lag)
  {
    hide Y;
    var n := |x|;
    ModCongruent(t + n, t, 1, n);
    var s := t + n - lag;
    assert s + lag == t + n;
  }

  lemma HoldsNext(x: seq<nat>, lag: nat, g: Gen, t: nat)
    requires 0 < lag < |x| && lag == Lag(|x|) && Holds(x, lag, g, t)
    ensures Holds(x, lag, Next(g).0, t + 1) && Next(g).1 == Signed(Y(x, lag, t + |x|)) / 2
  {
    hide GenOk, Y, Next, Signed;
    WordsAdded(x, lag, g, t);
    NextOk(g);
    NextParts(g);
    YStep(x, lag, t);
    IndicesNext(x, lag, g, t);
    forall s | t + 1 <= s < t + 1 + |x| ensures Next(g).0.x[(s + lag) % |x|] == Y(x, lag, s) {
      WordShifted(x, lag, g, t, s);
    }
  }

  lemma NextParts(g: Gen)
    requires GenOk(g) && g.n > 0
    ensures g.i < |g.x| && g.j < |g.x| && g.n == |g.x|
    ensures
      var w := (g.x[g.i] + g.x[g.j]) % TWO32;
      Next(g) == (Gen(g.n, if g.i + 1 == g.n then 0 else g.i + 1, if g.j + 1 == g.n then 0 else g.j + 1, g.x[g.i := w]),
                  Signed(w) / 2)
  {}

  lemma YStep(x: seq<nat>, lag: nat, t: nat)
    requires 0 < lag <= |x|
    ensures Y(x, lag, t + |x|) == (Y(x, lag, t) + Y(x, lag, t + |x| - lag)) % TWO32
  {}

  lemma IndicesNext(x: seq<nat>, lag: nat, g: Gen, t: nat)
    requires 0 < lag < |x| && g.n == |x| && g.j == t % |x| && g.i == (t + lag) % |x|
    ensures (if g.j + 1 == g.n then 0 else g.j + 1) == (t + 1) % |x|
    ensures (if g.i + 1 == g.n then 0 else g.i + 1) == (t + 1 + lag) % |x|
  {
    NextIndex(|x|, t);
    NextIndex(|x|, t + lag);
    assert t + lag + 1 == t + 1 + lag;
  }

  /** Writing the new term leaves the n - 1 terms that stay and puts it after them. */
  lemma WordShifted(x: seq<nat>, lag: nat, g: Gen, t: nat, s: nat)
    requires 0 < lag < |x| && Holds(x, lag, g, t) && t + 1 <= s < t + 1 + |x|
    ensures g.i < |g.x| && (s + lag) % |x| < |x| == |g.x|
    ensures g.x[g.i := Y(x, lag, t + |x|)][(s + lag) % |x|] == Y(x, lag, s)
  {
    hide Y;
    var n := |x|;
    if s < t + n {
      SlotsDiffer(n, t + lag, s + lag);
      assert g.x[(s + lag) % n] == Y(x, lag, s);
    } else {
      ModCongruent(t + n + lag, t + lag, 1, n);
    }
  }

  lemma {:induction false} Refines(g: Gen, t: nat)
    requires GenOk(g) && g.n > 0 && g.j == 0
    ensures Holds(g.x, Lag(g.n), Iterate(g, t), t)
  {
    if t == 0 {
      SmallMod(0, g.n);
      AheadIsMod(0, Lag(g.n), g.n);
      forall s | 0 <= s < g.n ensures g.x[(s + Lag(g.n)) % g.n] == Y(g.x, Lag(g.n), s) {}
    } else {
      Refines(g, t - 1);
      HoldsNext(g.x, Lag(g.n), Iterate(g, t - 1), t - 1);
    }
  }

  /** Call t of a freshly seeded generator returns half of term n + t of the recurrence. */
  lemma OutputIsRecurrence(g: Gen, t: nat)
    requires GenOk(g) && g.n > 0 && g.j == 0
    ensures Output(g, t) == Signed(Y(g.x, Lag(g.n), t + g.n)) / 2
  {
    Refines(g, t);
    HoldsNext(g.x, Lag(g.n), Iterate(g, t), t);
  }

  /** The two indices stay in range, distinct and at constant distance. */
  lemma IndicesApart(g: Gen, t: nat)
    requires GenOk(g) && g.n > 0
    ensures var r := Iterate(g, t); r.i < r.n && r.j < r.n && r.i != r.j && r.i == (r.j + Lag(r.n)) % r.n
  {
    var r := Iterate(g, t);
    AheadIsMod(r.j, Lag(r.n), r.n);
  }

  ghost predicate SomeOdd(x: seq<nat>) {
    exists k :: 0 <= k < |x| && x[k] % 2 == 1
  }

  lemma EvenModulus(a: nat)
    ensures (a % TWO32) % 2 == a % 2
  {
    ModThroughMultiple(a, 2, 0x8000_0000);
  }

  lemma OddNext(g: Gen)
    requires GenOk(g) && g.n > 0 && g.i < g.n && g.i != g.j && SomeOdd(g.x)
    ensures SomeOdd(Next(g).0.x)
  {
    var k :| 0 <= k < |g.x| && g.x[k] % 2 == 1;
    var w := (g.x[g.i] + g.x[g.j]) % TWO32;
    var x' := g.x[g.i := w];
    assert Next(g).0.x == x';
    EvenModulus(g.x[g.i] + g.x[g.j]);
    var m := if k != g.i then k else if g.x[g.j] % 2 == 1 then g.j else g.i;
    assert x'[m] % 2 == 1;
  }

  /** A seeded state never collapses to all even words. */
  lemma {:induction false} StaysOdd(g: Gen, t: nat)
    requires GenOk(g) && g.n > 0 && SomeOdd(g.x)
    ensures SomeOdd(Iterate(g, t).x)
  {
    if t > 0 {
      hide SomeOdd, Next, GenOk;
      StaysOdd(g, t - 1);
      IndicesApart(g, t - 1);
      OddNext(Iterate(g, t - 1));
    }
  }

  // ----- seeding

  /** The 64-bit state after k rounds. */
  function SeedState(seed: nat, k: nat): nat {
    if k == 0 then seed else Lcg64(SeedState(seed, k - 1))
  }

  /** What srandom_r leaves for n words. */
  function Seeded(seed: nat, n: nat): Gen
    requires seed < TWO32
  {
    if n == 0 then Gen(0, 3, 0, [seed])
    else
      Gen(n, Lag(n), 0, seq(n, k requires 0 <= k =>
                                 if k == 0 then Or(SeedWord(seed, 1), 1) else SeedWord(seed, k + 1)))
  }

  function SeedWord(seed: nat, k: nat): nat {
    SeedState(seed, k) / TWO32
  }

  lemma {:induction false} SeedStateBound(seed: nat, k: nat)
    requires seed < TWO32
    ensures SeedState(seed, k) < WORD
  {
    if k > 0 { SeedStateBound(seed, k - 1); }
  }

  // ----- closed forms

  function Power(a: nat, k: nat): nat {
    if k == 0 then 1 else a * Power(a, k - 1)
  }

  /** 1 + a + .. + a^(k-1) */
  function Geometric(a: nat, k: nat): nat {
    if k == 0 then 0 else Geometric(a, k - 1) + Power(a, k - 1)
  }

  lemma {:induction false} GeometricStep(a: nat, k: nat)
    ensures Geometric(a, k + 1) == a * Geometric(a, k) + 1
  {
    if k > 0 {
      GeometricStep(a, k - 1);
      assert a * (Geometric(a, k - 1) + Power(a, k - 1)) == a * Geometric(a, k - 1) + a * Power(a, k - 1);
    }
  }

  /** One step of x -> a x + c modulo m, k steps from s. */
  lemma AffineStep(a: nat, c: nat, m: nat, s: nat, k: nat, x: nat)
    requires m > 0 && x % m == (Power(a, k) * s + c * Geometric(a, k)) % m
    ensures (a * x + c) % m == (Power(a, k + 1) * s + c * Geometric(a, k + 1)) % m
  {
    hide Power, Geometric;
    var p, g := Power(a, k), Geometric(a, k);
    PowerStep(a, k);
    GeometricStep(a, k);
    var y := p * s + c * g;
    AffineSum(a, c, p, s, g);
    var d := x / m - y / m;
    assert x == y + m * d by { assert x == m * (x / m) + x % m && y == m * (y / m) + y % m; Spread(m, x / m, y / m); }
    assert a * x + c == a * y + c + m * (a * d) by { Scale(a, y, m, d); }
    ModCongruent(a * x + c, a * y + c, a * d, m);
  }

  lemma PowerStep(a: nat, k: nat)
    ensures Power(a, k + 1) == a * Power(a, k)
  {}

  lemma AffineSum(a: nat, c: nat, p: nat, s: nat, g: nat)
    ensures a * (p * s + c * g) + c == a * p * s + c * (a * g + 1)
  {
    assert a * (p * s + c * g) == a * (p * s) + a * (c * g);
    assert a * (c * g) == c * (a * g);
    assert a * (p * s) == a * p * s;
  }

  lemma Spread(m: int, x: int, y: int)
    ensures m * x == m * y + m * (x - y)
  {}

  lemma Scale(a: int, y: int, m: int, d: int)
    ensures a * (y + m * d) == a * y + m * (a * d)
  {
    assert a * (m * d) == m * (a * d);
  }

  /** The seeding generator after k rounds. */
  lemma {:induction false} SeedClosedForm(seed: nat, k: nat)
    requires seed < TWO32
    ensures
      var a := 6364136223846793005;
      SeedState(seed, k) == (Power(a, k) * seed + Geometric(a, k)) % WORD
  {
    hide Geometric;
    var a := 6364136223846793005;
    if k == 0 {
      GeometricNone(a);
      SmallMod(seed, WORD);
    } else {
      SeedClosedForm(seed, k - 1);
      SeedStateBound(seed, k - 1);
      SmallMod(SeedState(seed, k - 1), WORD);
      AffineStep(a, 1, WORD, seed, k - 1, SeedState(seed, k - 1));
    }
  }

  lemma GeometricNone(a: nat)
    ensures Geometric(a, 0) == 0
  {}

  /** The words srandom_r leaves: the upper halves of the first n states, the
      first of them made odd. */
  lemma SeededWords(seed: nat, n: nat, k: nat)
    requires seed < TWO32 && k < n
    ensures
      var a := 6364136223846793005;
      var w := (Power(a, k + 1) * seed + Geometric(a, k + 1)) % WORD / TWO32;
      |Seeded(seed, n).x| == n && Seeded(seed, n).x[k] == if k > 0 || w % 2 == 1 then w else w + 1
  {
    hide Power, Geometric, Or;
    SeedClosedForm(seed, k + 1);
    if k == 0 { OrOne(SeedWord(seed, 1)); }
  }

  /** Call t of a generator with one word is term t + 1 of x -> 1103515245 x + 12345
      modulo 2^31. */
  lemma OneWordOutput(g: Gen, t: nat)
    requires GenOk(g) && g.n == 0
    ensures
      var a := 1103515245;
      Output(g, t) == (Power(a, t + 1) * g.x[0] + 12345 * Geometric(a, t + 1)) % 0x8000_0000
  {
    hide Geometric, Power, Next, Iterate, Output;
    OneWordTerm(g, t);
  }

  /** Term k of x -> 1103515245 x + 12345 modulo 2^31, from s. */
  function Term31(s: nat, k: nat): nat {
    (Power(1103515245, k) * s + 12345 * Geometric(1103515245, k)) % 0x8000_0000
  }

  lemma FirstTerm(s: nat)
    ensures Lcg31(s) == Term31(s, 1)
  {
    hide Geometric, Power;
    StartOfPowers(1103515245, s);
    AffineStep(1103515245, 12345, 0x8000_0000, s, 0, s);
  }

  lemma NextTerm(s: nat, k: nat, x: nat)
    requires x == Term31(s, k)
    ensures Lcg31(x) == Term31(s, k + 1)
  {
    hide Geometric, Power;
    SmallMod(x, 0x8000_0000);
    AffineStep(1103515245, 12345, 0x8000_0000, s, k, x);
  }

  lemma {:induction false} OneWordTerm(g: Gen, t: nat)
    requires GenOk(g) && g.n == 0
    ensures |g.x| == 1 && Output(g, t) == Term31(g.x[0], t + 1) && Iterate(g, t + 1).x == [Output(g, t)]
  {
    hide Term31, Lcg31, Next, Iterate;
    NextOfOne(g);
    NextOfOne(Iterate(g, t));
    IterateNext(g, t);
    if t == 0 {
      FirstTerm(g.x[0]);
    } else {
      OneWordTerm(g, t - 1);
      NextTerm(g.x[0], t, Output(g, t - 1));
    }
  }

  lemma NextOfOne(g: Gen)
    requires GenOk(g) && g.n == 0
    ensures |g.x| == 1 && Next(g).1 == Lcg31(g.x[0]) && Next(g).0.x == [Lcg31(g.x[0])]
  {}

  lemma StartOfPowers(a: nat, x: nat)
    ensures Power(a, 0) * x + 12345 * Geometric(a, 0) == x
  {}

  /** The number of words for a state of `size` bytes. */
  function Degree(size: nat): nat {
    if size < 32 then 0 else if size < 64 then 7 else if size < 128 then 15 else if size < 256 then 31 else 63
  }

  /** The degree is the largest of 0, 7, 15, 31 and 63 whose words fit behind the
      header, where degree 0 uses one word; and the lags are those of the
      trinomials x^7 + x^3 + 1, x^15 + x + 1, x^31 + x^3 + 1 and x^63 + x + 1. */
  lemma DegreeLargest(size: nat, n: nat)
    requires size >= 8 && n in {0, 7, 15, 31, 63}
    ensures Degree(size) in {0, 7, 15, 31, 63} && 4 * (1 + Words(Degree(size))) <= size
    ensures 4 * (1 + Words(n)) <= size ==> n <= Degree(size)
    ensures Lag(7) == 3 && Lag(15) == 1 && Lag(31) == 3 && Lag(63) == 1
  {}

  function Words(n: nat): nat {
    if n == 0 then 1 else n
  }

  /** Seeding gives a running generator with an odd word, and fits the buffer. */
  lemma SeededOk(seed: nat, size: nat)
    requires seed < TWO32 && size >= 8
    ensures var g := Seeded(seed, Degree(size)); GenOk(g) && g.j == 0 && 4 * (1 + |g.x|) <= size
    ensures Degree(size) > 0 ==> SomeOdd(Seeded(seed, Degree(size)).x)
  {
    hide Or, Lcg64;
    var n := Degree(size);
    var g := Seeded(seed, n);
    OrOne(SeedWord(seed, 1));
    forall k | 0 <= k < |g.x| ensures g.x[k] < TWO32 {
      SeedStateBound(seed, k + 1);
    }
    if n > 0 {
      assert g.x[0] % 2 == 1;
    }
  }

  // ----- the functions, on buffers

  /** The state area `a` (header first) holds generator g. */
  ghost predicate Stores(a: array<nat>, g: Gen)
    reads a
  {
    GenOk(g) && a.Length > |g.x| && a[0] == Pack(g.n, g.i, g.j) && a[1..|g.x| + 1] == g.x
  }

  /** `struct random_data`: x[k] of the source is element k + 1 of the area in use. */
  class RandomData {
    var x: array<nat>

    constructor (area: array<nat>)
      ensures x == area
    {
      x := area;
    }

    method Srandom(seed: nat) returns (ret: int)
      requires seed < TWO32 && x.Length >= 2 && x[0] < TWO32
      requires UnpackN(x[0]) <= 63 ==> x.Length > UnpackN(x[0])
      modifies x
      ensures old(UnpackN(x[0])) > 63 ==> ret == -1 && x[..] == old(x[..])
      ensures old(UnpackN(x[0])) == 0 ==> ret == 0 && x[..] == old(x[..])[1 := seed]
      ensures
        var n := old(UnpackN(x[0]));
        n < 0 ==> ret == 0 && x[..] == old(x[..])[0 := Pack(n, 1, 0)][1 := Or(old(x[1]), 1)]
      ensures
        var n := old(UnpackN(x[0]));
        0 < n <= 63 ==>
          ret == 0 && x[0] == Pack(n, Lag(n), 0) && x[1..n + 1] == Seeded(seed, n).x && x[n + 1..] == old(x[n + 1..])
    {
      hide Pack, Or, Lcg64;
      var n := UnpackN(x[0]);
      if n > 63 { return -1; }
      if n == 0 {
        x[1] := seed;
        return 0;
      }
      var i := if n == 31 || n == 7 then 3 else 1;
      var s, k := seed, 0;
      while k < n
        invariant 0 <= k && (if n < 0 then k == 0 else k <= n) && s == SeedState(seed, k)
        invariant x[0] == old(x[0]) && (n < 0 ==> x[..] == old(x[..]))
        invariant n > 0 ==> x[n + 1..] == old(x[n + 1..])
        invariant forall m :: 1 <= m <= k ==> x[m] == SeedWord(seed, m)
      {
        s := Lcg64(s);
        x[k + 1] := s / TWO32;
        k := k + 1;
      }
      x[1] := Or(x[1], 1);
      x[0] := Pack(n, i, 0);
      return 0;
    }

    method Initstate(seed: nat, state: array<nat>, size: nat) returns (ret: int)
      requires seed < TWO32 && size / 4 <= state.Length
      modifies this, state
      ensures size < 8 ==> ret == -1 && x == old(x) && state[..] == old(state[..])
      ensures size >= 8 ==> ret == 0 && x == state && Stores(state, Seeded(seed, Degree(size)))
    {
      hide Pack, UnpackN, SomeOdd;
      if size < 8 { return -1; }
      SeededOk(seed, size);
      x := state;
      var n := Degree(size);
      x[0] := Pack(n, 3, 0);
      PackUnpack(n, 3, 0);
      var r := Srandom(seed);
      return 0;
    }

    method Setstate(state: array<nat>)
      modifies this
      ensures x == state
    {
      x := state;
    }

    method Random(ghost g: Gen) returns (result: int)
      requires Stores(x, g)
      modifies x
      ensures Stores(x, Next(g).0) && result == Next(g).1
    {
      hide Pack, UnpackN, UnpackI, UnpackJ, Lcg31, GenOk;
      NextOk(g);
      GenFacts(g);
      PackUnpack(g.n, g.i, g.j);
      var n, i, j := UnpackN(x[0]), UnpackI(x[0]), UnpackJ(x[0]);
      if n == 0 {
        assert g.x[0] == x[1];
        x[1] := Lcg31(x[1]);
        assert x[1..2] == [x[1]];
        return x[1];
      }
      assert g.x[i] == x[i + 1] && g.x[j] == x[j + 1];
      x[i + 1] := (x[i + 1] + x[j + 1]) % TWO32;
      result := Signed(x[i + 1]) / 2;
      ghost var words := g.x[i := x[i + 1]];
      assert x[1..n + 1] == words;
      i := i + 1;
      if i == n { i := 0; }
      j := j + 1;
      if j == n { j := 0; }
      x[0] := Pack(n, i, j);
      assert x[1..n + 1] == words;
    }
  }

  lemma GenFacts(g: Gen)
    requires GenOk(g)
    ensures g.i < 0x100 && g.j < 0x100 && |g.x| == if g.n == 0 then 1 else g.n
    ensures g.n > 0 ==> g.i < g.n && g.j < g.n && g.i != g.j
  {}

  lemma IterateNext(g: Gen, t: nat)
    requires GenOk(g)
    ensures Iterate(g, 0) == g && Iterate(g, t + 1) == Next(Iterate(g, t)).0
  {}

  /** How often b was drawn from among the first k picks. */
  function Drawn(picks: seq<nat>, k: nat, b: nat): nat
    requires k <= |picks|
  {
    if k == 0 then 0 else Drawn(picks, k - 1, b) + if picks[k - 1] == b then 1 else 0
  }

  lemma NothingDrawn(gens: seq<Gen>, picks: seq<nat>)
    requires forall b :: 0 <= b < |gens| ==> GenOk(gens[b])
    ensures forall b :: 0 <= b < |gens| ==> gens[b] == Iterate(gens[b], Drawn(picks, 0, b))
  {}

  lemma Advance(gens: seq<Gen>, cur: seq<Gen>, picks: seq<nat>, k: nat)
    requires |cur| == |gens| && k < |picks| && picks[k] < |gens|
    requires forall b :: 0 <= b < |gens| ==> GenOk(gens[b])
    requires forall b :: 0 <= b < |gens| ==> GenOk(cur[b])
    requires forall b :: 0 <= b < |gens| ==> cur[b] == Iterate(gens[b], Drawn(picks, k, b))
    ensures
      var cur' := cur[picks[k] := Next(cur[picks[k]]).0];
      forall b :: 0 <= b < |gens| ==> cur'[b] == Iterate(gens[b], Drawn(picks, k + 1, b))
  {
    hide GenOk, Next, Iterate;
    IterateNext(gens[picks[k]], Drawn(picks, k, picks[k]));
  }

  /** Several states used in turn through setstate_r: each yields its own
      sequence, whatever happens to the others in between. */
  method Interleave(buf: RandomData, areas: seq<array<nat>>, picks: seq<nat>, ghost gens: seq<Gen>)
    returns (results: seq<int>)
    requires |areas| == |gens| && forall b :: 0 <= b < |areas| ==> GenOk(gens[b]) && Stores(areas[b], gens[b])
    requires forall b, c :: 0 <= b < c < |areas| ==> areas[b] != areas[c]
    requires forall k :: 0 <= k < |picks| ==> picks[k] < |areas|
    modifies buf, set b | 0 <= b < |areas| :: areas[b]
    ensures |results| == |picks|
    ensures forall k :: 0 <= k < |picks| ==> results[k] == Output(gens[picks[k]], Drawn(picks, k, picks[k]))
  {
    hide GenOk, Next, Iterate, Stores, Drawn;
    results := [];
    var k := 0;
    ghost var cur := gens;
    NothingDrawn(gens, picks);
    while k < |picks|
      invariant 0 <= k <= |picks| && |results| == k && |cur| == |areas|
      invariant forall b :: 0 <= b < |areas| ==> GenOk(cur[b])
      invariant forall b :: 0 <= b < |areas| ==> cur[b] == Iterate(gens[b], Drawn(picks, k, b))
      invariant forall b :: 0 <= b < |areas| ==> Stores(areas[b], cur[b])
      invariant forall m :: 0 <= m < k ==> results[m] == Output(gens[picks[m]], Drawn(picks, m, picks[m]))
    {
      var b := picks[k];
      Advance(gens, cur, picks, k);
      NextOk(cur[b]);
      var r := DrawFrom(buf, areas, b, cur);
      cur := cur[b := Next(cur[b]).0];
      results := results + [r];
      k := k + 1;
    }
  }

  /** setstate_r to area b, then random_r. */
  method DrawFrom(buf: RandomData, areas: seq<array<nat>>, b: nat, ghost cur: seq<Gen>) returns (r: int)
    requires |areas| == |cur| && b < |areas| && GenOk(cur[b])
    requires forall c :: 0 <= c < |areas| ==> Stores(areas[c], cur[c])
    requires forall c, d :: 0 <= c < d < |areas| ==> areas[c] != areas[d]
    modifies buf, areas[b]
    ensures r == Next(cur[b]).1
    ensures forall c :: 0 <= c < |areas| ==> Stores(areas[c], if c == b then Next(cur[b]).0 else cur[c])
  {
    hide GenOk, Next, Stores;
    buf.Setstate(areas[b]);
    r := buf.Random(cur[b]);
  }
}
