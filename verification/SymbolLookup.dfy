/** Symbol lookup in musl's dynamic linker: `sysv_hash`, `gnu_hash`,
    `sysv_lookup`, `gnu_lookup`, `gnu_lookup_filtered` and `count_syms`,
    against plain scans of the symbol table. */
module SymbolLookup {
  import opened Bits
  import opened ByteMemory
  import opened Options

  /** A NUL-terminated string, without the terminator. */
  type Name = seq<Byte>

  const TWO28: nat := 0x1000_0000

  // ----- hash functions

  /** One round of the hash of "Hash Table", chapter 5 of the System V gABI, in words of w bits. */
  function ElfStep(w: nat, h: nat, c: Byte): nat {
    ElfFold(w, (16 * h + (c as nat)) % Pow2(w))
  }

  function ElfFold(w: nat, h1: nat): nat
    requires h1 < Pow2(w)
  {
    var g := And(h1, 0xf000_0000);
    var h2 := if g != 0 then Xor(h1, g / 0x100_0000) else h1;
    AndAtMost(h1, 0xf000_0000);
    And(h2, Pow2(w) - 1 - g)
  }

  function ElfHash(w: nat, s: Name): nat {
    if s == [] then 0 else ElfStep(w, ElfHash(w, s[..|s| - 1]), s[|s| - 1])
  }

  /** musl's round, in 32-bit words: the top nibble is folded in but cleared only once, at the end. */
  function SysvStep(h: nat, c: Byte): nat {
    var h1 := (16 * h + (c as nat)) % TWO32;
    Xor(h1, And(h1 / 0x100_0000, 0xf0))
  }

  lemma Powers()
    ensures Pow2(4) == 16 && Pow2(28) == TWO28 && Pow2(32) == TWO32
  {
    assert Pow2(4) == 16;
    assert Pow2(8) == 256 by { Pow2At8(); }
    hide Pow2;
    Pow2Add(8, 8);
    Pow2Add(16, 16);
    Pow2Add(4, 8);
    Pow2Add(12, 16);
  }

  /** The low 28 bits after a round, from those before: the nibble shifted out is xored into bits 4-7. */
  function Folded(h: nat, c: Byte): nat {
    var t := (16 * (h % TWO28) + (c as nat)) % TWO32;
    Xor(t % TWO28, 16 * (t / TWO28))
  }

  lemma SysvLow(h: nat, c: Byte)
    ensures SysvStep(h, c) % TWO28 == Folded(h, c)
  {
    hide And, Xor, Pow2;
    Powers();
    var t := (16 * h + (c as nat)) % TWO32;
    assert t == (16 * (h % TWO28) + (c as nat)) % TWO32;
    var n, b := t / TWO28, t % TWO28;
    NibbleOf(t / 0x100_0000, n);
    FoldIn(n, b, 16 * n);
  }

  /** y & 0xf0 keeps the high nibble of a byte. */
  lemma NibbleOf(y: nat, n: nat)
    requires y < 256 && n == y / 16
    ensures And(y, 0xf0) == 16 * n
  {
    hide And, Pow2;
    Powers();
    ShlIsProduct(n, 4);
    ShlIsProduct(15, 4);
    AndSplit(n, y % 16, 15, 0, 4);
    AndLowMask(n, 4);
    ShlIsProduct(And(n, 15), 4);
    AndZero(y % 16);
  }

  lemma AndZero(x: nat)
    ensures And(x, 0) == 0 && And(0, x) == 0 && Xor(x, 0) == x && Xor(0, x) == x
  {}

  /** Xoring a small value changes only the low 28 bits. */
  lemma FoldIn(a: nat, b: nat, x: nat)
    requires b < TWO28 && x < TWO28
    ensures Xor(a * TWO28 + b, x) == a * TWO28 + Xor(b, x) && Xor(b, x) < TWO28
    ensures Xor(a * TWO28 + b, x) % TWO28 == Xor(b, x)
  {
    hide Xor, Pow2;
    Powers();
    ShlIsProduct(a, 28);
    ShlIsProduct(0, 28);
    AndZero(a);
    XorSplit(a, b, 0, x, 28);
  }

  lemma ElfFoldParts(w: nat, a: nat, b: nat)
    requires w >= 32 && b < TWO28 && a * TWO28 + b < Pow2(w)
    ensures Xor(b, 16 * (a % 16)) < TWO28 && Pow2(w - 28) >= 16
    ensures ElfFold(w, a * TWO28 + b) == And(a, Pow2(w - 28) - 1 - a % 16) * TWO28 + Xor(b, 16 * (a % 16))
  {
    hide And, Xor, Pow2;
    Powers();
    var n := a % 16;
    TopNibble(a, b);
    FoldIn(a, b, 16 * n);
    AndZero(a * TWO28 + b);
    Pow2Mono(4, w - 28);
    assert Pow2(w) == Pow2(w - 28) * TWO28 by { Pow2Add(w - 28, 28); }
    ClearTop(a, Xor(b, 16 * n), Pow2(w - 28) - 1 - n);
  }

  /** The standard round: same low 28 bits whatever the word size, and nothing
      above them in 32-bit words. */
  lemma ElfLow(w: nat, h: nat, c: Byte)
    requires w >= 32
    ensures ElfStep(w, h, c) % TWO28 == Folded(h, c)
    ensures w == 32 ==> ElfStep(w, h, c) < TWO28
  {
    hide And, Xor, Pow2, ElfFold;
    Powers();
    var v := 16 * h + (c as nat);
    var h1 := v % Pow2(w);
    var a, b := h1 / TWO28, h1 % TWO28;
    ElfFoldParts(w, a, b);
    LowBits(w, h, c as nat, h1);
    if w == 32 { Complement(a, 4); }
  }

  lemma LowBits(w: nat, h: nat, c: nat, h1: nat)
    requires w >= 32 && h1 == (16 * h + c) % Pow2(w)
    ensures var t := (16 * (h % TWO28) + c) % TWO32; h1 % TWO28 == t % TWO28 && (h1 / TWO28) % 16 == t / TWO28
    ensures w == 32 ==> h1 / TWO28 < 16
  {
    hide Pow2;
    WordBits(w, 16 * h + c);
    ShiftOut(h, c);
    Fields(h1);
  }

  lemma WordBits(w: nat, v: nat)
    requires w >= 32
    ensures (v % Pow2(w)) % TWO32 == v % TWO32 && (w == 32 ==> v % Pow2(w) < TWO32)
  {
    hide Pow2;
    Powers();
    Pow2Add(32, w - 32);
    ModThroughMultiple(v, TWO32, Pow2(w - 32));
  }

  lemma ShiftOut(h: nat, c: nat)
    ensures (16 * h + c) % TWO32 == (16 * (h % TWO28) + c) % TWO32
  {
    ModCongruent(16 * h + c, 16 * (h % TWO28) + c, h / TWO28, TWO32);
  }

  lemma Fields(x: nat)
    ensures x % TWO28 == (x % TWO32) % TWO28 && (x / TWO28) % 16 == (x % TWO32) / TWO28
  {
    var q, r := x / TWO28, x % TWO28;
    DivModUnique(x, TWO32, q / 16, TWO28 * (q % 16) + r);
    DivModUnique(x % TWO32, TWO28, q % 16, r);
  }

  /** h1 & 0xf0000000 */
  lemma TopNibble(a: nat, b: nat)
    requires b < TWO28
    ensures And(a * TWO28 + b, 0xf000_0000) == (a % 16) * TWO28
  {
    hide And, Pow2;
    Powers();
    ShlIsProduct(a, 28);
    ShlIsProduct(15, 28);
    AndSplit(a, b, 15, 0, 28);
    AndLowMask(a, 4);
    ShlIsProduct(And(a, 15), 28);
    AndZero(b);
  }

  /** Masking with ones in the low 28 bits keeps them. */
  lemma ClearTop(a: nat, b: nat, m: nat)
    requires b < TWO28
    ensures And(a * TWO28 + b, m * TWO28 + (TWO28 - 1)) == And(a, m) * TWO28 + b
    ensures And(a * TWO28 + b, m * TWO28 + (TWO28 - 1)) % TWO28 == b
  {
    hide And, Pow2;
    Powers();
    ShlIsProduct(a, 28);
    ShlIsProduct(m, 28);
    AndSplit(a, b, m, TWO28 - 1, 28);
    ShlIsProduct(And(a, m), 28);
    AndLowMask(b, 28);
    SmallMod(b, TWO28);
  }

  lemma {:induction false} Complement(a: nat, k: nat)
    requires a < Pow2(k)
    ensures And(a, Pow2(k) - 1 - a) == 0
  {
    if k > 0 {
      AndHalves(a, Pow2(k) - 1 - a);
      Complement(a / 2, k - 1);
      assert (Pow2(k) - 1 - a) / 2 == Pow2(k - 1) - 1 - a / 2;
    }
  }

  /** The low 28 bits of a round depend on the low 28 bits before it. */
  lemma FoldedLow(h: nat, h': nat, c: Byte)
    requires h % TWO28 == h' % TWO28
    ensures Folded(h, c) == Folded(h', c)
  {}

  /** `sysv_hash` is the gABI hash in 32-bit words, for every string. */
  method SysvHash(s: Name) returns (r: nat)
    ensures r == ElfHash(32, s)
  {
    hide SysvStep, ElfStep, Folded;
    var h: nat := 0;
    var i := 0;
    while i < |s|
      invariant 0 <= i <= |s| && h % TWO28 == ElfHash(32, s[..i]) < TWO28
    {
      assert s[..i + 1][..i] == s[..i];
      SysvLow(h, s[i]);
      ElfLow(32, ElfHash(32, s[..i]), s[i]);
      FoldedLow(h, ElfHash(32, s[..i]), s[i]);
      h := SysvStep(h, s[i]);
      i := i + 1;
    }
    assert s[..i] == s;
    Powers();
    AndLowMask(h, 28);
    r := And(h, 0xfff_ffff);
  }

  /** The gABI declares the hash with unsigned long. In wider words a carry out
      of bit 31 survives, but the low 28 bits are the same. */
  lemma {:induction false} WideHashAgrees(w: nat, s: Name)
    requires w >= 32
    ensures ElfHash(w, s) % TWO28 == ElfHash(32, s)
  {
    hide ElfStep, Folded;
    if s != [] {
      var n := |s| - 1;
      WideHashAgrees(w, s[..n]);
      ElfLow(w, ElfHash(w, s[..n]), s[n]);
      ElfLow(32, ElfHash(32, s[..n]), s[n]);
      FoldedLow(ElfHash(w, s[..n]), ElfHash(32, s[..n]), s[n]);
    }
  }

  function GnuStep(h: nat, c: Byte): nat {
    (33 * h + (c as nat)) % TWO32
  }

  function GnuHashOf(s: Name): nat {
    if s == [] then 5381 else GnuStep(GnuHashOf(s[..|s| - 1]), s[|s| - 1])
  }

  lemma GnuStepWraps(h: nat, c: nat)
    ensures (h + (h * 32 + c) % TWO32) % TWO32 == (33 * h + c) % TWO32
  {
    ModCongruent(33 * h + c, h + (h * 32 + c) % TWO32, (h * 32 + c) / TWO32, TWO32);
  }

  const PRINTF: Name := [112, 114, 105, 110, 116, 102]

  /** Both hashes of "printf". */
  lemma KnownHashes()
    ensures GnuHashOf(PRINTF) == 0x156b_2bb8 && ElfHash(32, PRINTF) == 0x779_05a6
  {
    var p := PRINTF;
    assert p[..6] == p && p[..6][..5] == p[..5] && p[..5][..4] == p[..4] && p[..4][..3] == p[..3];
    assert p[..3][..2] == p[..2] && p[..2][..1] == p[..1] && p[..1][..0] == [];
    GnuPrintf(p);
    ElfPrintf(p);
  }

  lemma GnuPrintf(p: Name)
    requires p == PRINTF && p[..6] == p && p[..6][..5] == p[..5] && p[..5][..4] == p[..4] && p[..4][..3] == p[..3]
    requires p[..3][..2] == p[..2] && p[..2][..1] == p[..1] && p[..1][..0] == []
    ensures GnuHashOf(p) == 0x156b_2bb8
  {
    assert GnuHashOf(p[..1]) == 177685;
    assert GnuHashOf(p[..2]) == 5863719;
    assert GnuHashOf(p[..3]) == 193502832;
    assert GnuHashOf(p[..4]) == 2090626270;
    assert GnuHashOf(p[..5]) == 271190290;
  }

  lemma ElfPrintf(p: Name)
    requires p == PRINTF && p[..6] == p && p[..6][..5] == p[..5] && p[..5][..4] == p[..4] && p[..4][..3] == p[..3]
    requires p[..3][..2] == p[..2] && p[..2][..1] == p[..1] && p[..1][..0] == []
    ensures ElfHash(32, p) == 0x779_05a6
  {
    hide ElfStep;
    ElfSmall(0, 112);
    assert ElfHash(32, p[..1]) == 0x70;
    ElfSmall(0x70, 114);
    assert ElfHash(32, p[..2]) == 0x772;
    ElfSmall(0x772, 105);
    assert ElfHash(32, p[..3]) == 0x7789;
    ElfSmall(0x7789, 110);
    assert ElfHash(32, p[..4]) == 0x778fe;
    ElfSmall(0x778fe, 116);
    assert ElfHash(32, p[..5]) == 0x77_9054;
    ElfSmall(0x77_9054, 102);
  }

  /** While the top nibble is empty, a round only shifts and adds. */
  lemma ElfSmall(h: nat, c: Byte)
    requires 16 * h + (c as nat) < TWO28
    ensures ElfStep(32, h, c) == 16 * h + (c as nat)
  {
    hide And, Xor, Pow2;
    Powers();
    var h1 := 16 * h + (c as nat);
    SmallMod(h1, TWO32);
    TopNibble(0, h1);
    AndLowMask(h1, 32);
  }

  method GnuHash(s: Name) returns (h: nat)
    ensures h == GnuHashOf(s)
  {
    h := 5381;
    var i := 0;
    while i < |s|
      invariant 0 <= i <= |s| && h == GnuHashOf(s[..i])
    {
      assert s[..i + 1][..i] == s[..i];
      GnuStepWraps(h, s[i] as nat);
      h := (h + (h * 32 + (s[i] as nat)) % TWO32) % TWO32;
      i := i + 1;
    }
    assert s[..i] == s;
  }

  // ----- the symbol table and its linear scan

  /** Names by symbol index, and which have a negative version index. */
  datatype Symbols = Symbols(names: seq<Name>, hidden: seq<bool>)

  predicate SymbolsOk(y: Symbols) {
    |y.names| == |y.hidden| < 0x1_0000_0000
  }

  predicate Matches(y: Symbols, i: nat, s: Name)
    requires SymbolsOk(y) && i < |y.names|
  {
    y.names[i] == s && !y.hidden[i]
  }

  /** The first visible symbol named s at index i or later. */
  function FirstMatch(y: Symbols, i: nat, s: Name): Option<nat>
    requires SymbolsOk(y) && i <= |y.names|
    decreases |y.names| - i
  {
    if i == |y.names| then None else if Matches(y, i, s) then Some(i) else FirstMatch(y, i + 1, s)
  }

  lemma {:induction false} FirstMatchIs(y: Symbols, i: nat, s: Name, k: nat)
    requires SymbolsOk(y) && i <= k <= |y.names|
    requires forall m :: i <= m < k ==> !Matches(y, m, s)
    ensures FirstMatch(y, i, s) == FirstMatch(y, k, s)
    decreases k - i
  {
    if i < k { FirstMatchIs(y, i + 1, s, k); }
  }

  /** The result is a match, and no earlier symbol matches; or none does. */
  lemma {:induction false} FirstMatchFirst(y: Symbols, i: nat, s: Name)
    requires SymbolsOk(y) && i <= |y.names|
    ensures
      match FirstMatch(y, i, s)
      case Some(k) => i <= k < |y.names| && Matches(y, k, s) && forall m :: i <= m < k ==> !Matches(y, m, s)
      case None => forall m :: i <= m < |y.names| ==> !Matches(y, m, s)
    decreases |y.names| - i
  {
    if i < |y.names| && !Matches(y, i, s) { FirstMatchFirst(y, i + 1, s); }
  }

  // ----- DT_GNU_HASH

  datatype GnuTable = GnuTable(symOffset: nat, bloom: seq<nat>, shift: nat, buckets: seq<nat>, chain: seq<nat>)

  function Bucket(t: GnuTable, h: nat): nat
    requires t.buckets != []
  {
    h % |t.buckets|
  }

  /** Index of h's word in the Bloom filter: fofs & (words - 1). */
  function BloomIndex(t: GnuTable, h: nat): nat
    requires t.bloom != []
  {
    And(h / 64, |t.bloom| - 1)
  }

  /** Both bits of h are set in its word. */
  predicate BloomHas(t: GnuTable, h: nat) {
    && t.bloom != [] && BloomIndex(t, h) < |t.bloom|
    && Bit(t.bloom[BloomIndex(t, h)], h % 64)
    && Bit(t.bloom[BloomIndex(t, h)], h / Pow2(t.shift) % 64)
  }

  /** A well-formed table: hashed symbols are grouped by bucket, a bucket holds
      the first of its group, the low bit of a chain word marks the last, the
      other bits repeat the hash, and the filter knows every hashed symbol. */
  ghost predicate GnuOk(t: GnuTable, y: Symbols) {
    && SymbolsOk(y) && t.buckets != [] && 1 <= t.symOffset <= |y.names| && |t.chain| == |y.names| - t.symOffset
    && IsPow2(|t.bloom|) && t.bloom != []
    && (forall b :: 0 <= b < |t.buckets| && t.buckets[b] != 0 ==>
          t.symOffset <= t.buckets[b] < |y.names| && Bucket(t, GnuHashOf(y.names[t.buckets[b]])) == b)
    && (forall i :: t.symOffset <= i < |y.names| ==> HashedOk(t, y, i))
  }

  ghost predicate HashedOk(t: GnuTable, y: Symbols, i: nat)
    requires t.buckets != [] && t.symOffset <= i < |y.names| && |t.chain| == |y.names| - t.symOffset
  {
    var h := GnuHashOf(y.names[i]);
    var b := Bucket(t, h);
    && Or(t.chain[i - t.symOffset], 1) == Or(h, 1)
    && (t.chain[i - t.symOffset] % 2 == 1 <==> i + 1 == |y.names| || Bucket(t, GnuHashOf(y.names[i + 1])) != b)
    && t.symOffset <= t.buckets[b] <= i
    && (forall k :: t.buckets[b] <= k <= i ==> Bucket(t, GnuHashOf(y.names[k])) == b)
    && BloomHas(t, h)
  }

  method GnuLookup(h1: nat, t: GnuTable, y: Symbols, s: Name) returns (r: Option<nat>)
    requires GnuOk(t, y) && h1 == GnuHashOf(s)
    ensures r == FirstMatch(y, t.symOffset, s)
  {
    var n := |y.names|;
    ghost var b := Bucket(t, h1);
    var i := t.buckets[h1 % |t.buckets|];
    if i == 0 {
      NoneElsewhere(t, y, s, n, n);
      FirstMatchIs(y, t.symOffset, s, n);
      return None;
    }
    ghost var start := i;
    while true
      invariant start <= i < n && start == t.buckets[b] >= t.symOffset
      invariant Bucket(t, GnuHashOf(y.names[i])) == b
      invariant forall k :: start <= k < i ==> !Matches(y, k, s)
      decreases n - i
    {
      var h2 := t.chain[i - t.symOffset];
      assert HashedOk(t, y, i);
      if Or(h1, 1) == Or(h2, 1) && !y.hidden[i] && y.names[i] == s {
        NoneElsewhere(t, y, s, start, i);
        FirstMatchIs(y, t.symOffset, s, i);
        return Some(i);
      }
      if h2 % 2 == 1 { break; }
      i := i + 1;
    }
    NoneElsewhere(t, y, s, start, n);
    NoneAfter(t, y, s, start, i);
    FirstMatchIs(y, t.symOffset, s, n);
    return None;
  }

  /** Nothing named s is hashed before its bucket's first symbol (or at all, for an empty bucket). */
  lemma NoneElsewhere(t: GnuTable, y: Symbols, s: Name, start: nat, i: nat)
    requires GnuOk(t, y) && start <= i <= |y.names|
    requires var first := t.buckets[Bucket(t, GnuHashOf(s))]; first == start || (first == 0 && start == |y.names|)
    ensures forall k :: t.symOffset <= k < start ==> !Matches(y, k, s)
  {
    forall k | t.symOffset <= k < start ensures !Matches(y, k, s) {
      assert HashedOk(t, y, k);
    }
  }

  /** Nor after its bucket's last symbol. */
  lemma NoneAfter(t: GnuTable, y: Symbols, s: Name, start: nat, last: nat)
    requires GnuOk(t, y) && start == t.buckets[Bucket(t, GnuHashOf(s))] && t.symOffset <= start <= last < |y.names|
    requires Bucket(t, GnuHashOf(y.names[last])) == Bucket(t, GnuHashOf(s))
    requires t.chain[last - t.symOffset] % 2 == 1
    ensures forall k :: last < k < |y.names| ==> !Matches(y, k, s)
  {
    assert HashedOk(t, y, last);
    forall k | last < k < |y.names| ensures !Matches(y, k, s) {
      assert HashedOk(t, y, k);
    }
  }

  /** The Bloom filter in front of `gnu_lookup` never changes its answer. */
  method GnuLookupFiltered(h1: nat, t: GnuTable, y: Symbols, s: Name, fofs: nat, fmask: nat) returns (r: Option<nat>)
    requires GnuOk(t, y) && h1 == GnuHashOf(s) && fofs == h1 / 64 && fmask == Pow2(h1 % 64)
    ensures r == FirstMatch(y, t.symOffset, s)
  {
    hide And, Pow2, IsPow2, GnuHashOf;
    BloomIndexInRange(t, h1);
    var f := t.bloom[And(fofs, |t.bloom| - 1)];
    AndBit(f, h1 % 64);
    if And(f, fmask) == 0 {
      FilteredOut(t, y, s);
      return None;
    }
    f := f / Pow2(h1 / Pow2(t.shift) % 64);
    assert And(f, 1) == f % 2 by { LastBit(f); }
    if And(f, 1) == 0 {
      FilteredOut(t, y, s);
      return None;
    }
    r := GnuLookup(h1, t, y, s);
  }

  lemma LastBit(x: nat)
    ensures And(x, 1) == x % 2
  {
    assert Pow2(1) == 2;
    AndLowMask(x, 1);
  }

  lemma BloomIndexInRange(t: GnuTable, h: nat)
    requires t.bloom != [] && IsPow2(|t.bloom|)
    ensures BloomIndex(t, h) < |t.bloom|
  {
    LowMask(h / 64, |t.bloom|);
  }

  /** A hash the filter does not know belongs to no hashed symbol. */
  lemma FilteredOut(t: GnuTable, y: Symbols, s: Name)
    requires GnuOk(t, y) && !BloomHas(t, GnuHashOf(s))
    ensures FirstMatch(y, t.symOffset, s) == None
  {
    forall k | t.symOffset <= k < |y.names| ensures !Matches(y, k, s) {
      assert HashedOk(t, y, k);
    }
    FirstMatchIs(y, t.symOffset, s, |y.names|);
  }

  /** `count_syms` without DT_HASH: the end of the symbol table, except that a
      table with no hashed symbols counts as empty. */
  method CountSyms(t: GnuTable, y: Symbols) returns (nsym: nat)
    requires GnuOk(t, y)
    ensures nsym == if t.symOffset < |y.names| then |y.names| else 0
  {
    hide GnuHashOf, BloomHas;
    nsym := 0;
    for i := 0 to |t.buckets|
      invariant forall b :: 0 <= b < i ==> t.buckets[b] <= nsym
      invariant nsym == 0 || exists b :: 0 <= b < i && t.buckets[b] == nsym
    {
      if t.buckets[i] > nsym { nsym := t.buckets[i]; }
    }
    assert t.symOffset < |y.names| ==> HashedOk(t, y, |y.names| - 1);
    if nsym == 0 { return; }
    ghost var b :| 0 <= b < |t.buckets| && t.buckets[b] == nsym;
    LastGroup(t, y, b);
    ghost var start := nsym;
    while true
      invariant start <= nsym < |y.names| && Bucket(t, GnuHashOf(y.names[nsym])) == b
      decreases |y.names| - nsym
    {
      assert HashedOk(t, y, nsym);
      var last := t.chain[nsym - t.symOffset] % 2 == 1;
      nsym := nsym + 1;
      if last { break; }
    }
  }

  /** A table of one symbol, not hashed: its end is 1 and the count is 0. */
  method CountsNothing() returns (t: GnuTable, y: Symbols, nsym: nat)
    ensures GnuOk(t, y) && |y.names| == 1 && t.symOffset == |y.names| && nsym == 0
  {
    t, y := GnuTable(1, [0], 0, [0], []), Symbols([[]], [false]);
    assert IsPow2(1) by { assert Pow2(0) == 1; }
    nsym := CountSyms(t, y);
  }

  /** The bucket that starts last holds the last symbols. */
  lemma LastGroup(t: GnuTable, y: Symbols, b: nat)
    requires GnuOk(t, y) && b < |t.buckets| && t.buckets[b] != 0
    requires forall c :: 0 <= c < |t.buckets| ==> t.buckets[c] <= t.buckets[b]
    ensures forall k :: t.buckets[b] <= k < |y.names| ==> Bucket(t, GnuHashOf(y.names[k])) == b
  {
    hide GnuHashOf, BloomHas;
    forall k | t.buckets[b] <= k < |y.names| ensures Bucket(t, GnuHashOf(y.names[k])) == b {
      assert HashedOk(t, y, k);
    }
  }

  // ----- DT_HASH

  datatype SysvTable = SysvTable(buckets: seq<nat>, chains: seq<nat>)

  /** Chains end: `rank` falls along them. Every symbol but the null one is on
      the chain of its bucket. */
  ghost predicate SysvOk(t: SysvTable, y: Symbols, rank: seq<nat>) {
    && SymbolsOk(y) && t.buckets != [] && |t.chains| == |y.names| == |rank| > 0
    && (forall b :: 0 <= b < |t.buckets| ==> t.buckets[b] < |y.names|)
    && (forall i :: 0 < i < |t.chains| ==>
          t.chains[i] < |y.names| && (t.chains[i] != 0 ==> rank[t.chains[i]] < rank[i]))
    && (forall i :: 0 < i < |y.names| ==> OnChain(t, rank, SysvStart(t, y.names[i]), i))
  }

  ghost function SysvStart(t: SysvTable, s: Name): nat
    requires t.buckets != []
  {
    t.buckets[ElfHash(32, s) % |t.buckets|]
  }

  ghost predicate OnChain(t: SysvTable, rank: seq<nat>, from: nat, i: nat)
    decreases if from < |rank| then rank[from] else 0
  {
    from != 0 && (from == i ||
      (from < |rank| && from < |t.chains| && t.chains[from] < |rank| &&
       (t.chains[from] != 0 ==> rank[t.chains[from]] < rank[from]) && t.chains[from] != 0 &&
       OnChain(t, rank, t.chains[from], i)))
  }

  /** `sysv_lookup` finds a visible symbol of that name if and only if there is one. */
  method SysvLookup(s: Name, h: nat, t: SysvTable, y: Symbols, ghost rank: seq<nat>) returns (r: Option<nat>)
    requires SysvOk(t, y, rank) && h == ElfHash(32, s)
    ensures r.Some? ==> 0 < r.value < |y.names| && Matches(y, r.value, s)
    ensures r.None? ==> forall k :: 0 < k < |y.names| ==> !Matches(y, k, s)
  {
    hide ElfHash, OnChain;
    var i: nat := t.buckets[h % |t.buckets|];
    while i != 0
      invariant 0 <= i < |y.names|
      invariant forall k: nat :: 0 < k < |y.names| && Matches(y, k, s) ==> OnChain(t, rank, i, k)
      decreases if i == 0 then 0 else rank[i] + 1
    {
      if !y.hidden[i] && y.names[i] == s { return Some(i); }
      forall k: nat | 0 < k < |y.names| && Matches(y, k, s) ensures OnChain(t, rank, t.chains[i], k) {
        ChainNext(t, rank, i, k);
      }
      i := t.chains[i];
    }
    forall k: nat | 0 < k < |y.names| ensures !Matches(y, k, s) { ChainEnd(t, rank, k); }
    return None;
  }

  lemma ChainNext(t: SysvTable, rank: seq<nat>, i: nat, k: nat)
    requires OnChain(t, rank, i, k) && i != k && i < |t.chains|
    ensures OnChain(t, rank, t.chains[i], k)
  {}

  lemma ChainEnd(t: SysvTable, rank: seq<nat>, k: nat)
    ensures !OnChain(t, rank, 0, k)
  {}
}
