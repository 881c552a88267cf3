/** Static TLS layout of musl's dynamic linker: the offsets `__dls3` and
    `load_library` assign, `MAXP2`, `update_tls_size`, and the block `__copy_tls`
    carves for a thread, for both placements of TLS relative to the thread pointer. */
module TlsLayout {
  import opened Bits

  /** A PT_TLS image: its address, memory size and alignment. */
  datatype Module = Module(image: nat, size: nat, align: nat)

  /** TLS_ABOVE_TP or not. */
  datatype Variant = Above | Below

  /** tls_offset, tls_align and the offsets given out so far (tls_cnt of them). */
  datatype Layout = Layout(mods: seq<Module>, offs: seq<nat>, offset: nat, align: nat)

  predicate ModuleOk(m: Module) {
    m.image < WORD && m.size < WORD && IsPow2(m.align)
  }

  /** MAXP2(a,b): -(-(a)&-(b)) */
  function MaxP2(a: nat, b: nat): nat
    requires 0 < a < WORD && 0 < b < WORD
  {
    Neg(And(Neg(a), Neg(b)) % WORD)
  }

  lemma Pow2Range(a: nat)
    requires IsPow2(a)
    ensures 0 < a < WORD
  {
    RoundDown(0, a);
  }

  /** MAXP2 is the maximum, so each argument divides it. */
  lemma MaxP2IsMax(a: nat, b: nat)
    requires IsPow2(a) && IsPow2(b)
    ensures 0 < a < WORD && 0 < b < WORD
    ensures MaxP2(a, b) == (if a < b then b else a) && IsPow2(MaxP2(a, b))
    ensures Divisible(MaxP2(a, b), a) && Divisible(MaxP2(a, b), b)
  {
    hide IsPow2, And, Divisible;
    Pow2Range(a);
    Pow2Range(b);
    AndOfNegatives(a, b);
    PowersDivide(a, b);
  }

  lemma AndOfNegatives(a: nat, b: nat)
    requires IsPow2(a) && IsPow2(b)
    ensures 0 < a < WORD && 0 < b < WORD && And(Neg(a), Neg(b)) == WORD - (if a < b then b else a)
  {
    hide IsPow2, And;
    Pow2Range(a);
    Pow2Range(b);
    RoundDown(WORD - a, b);
    NegMod(a, b);
  }

  lemma PowersDivide(a: nat, b: nat)
    requires IsPow2(a) && IsPow2(b)
    ensures var m := if a < b then b else a; Divisible(m, a) && Divisible(m, b)
  {
    hide IsPow2;
    if a < b { Pow2Divides(a, b); Pow2Divides(b, b); } else { Pow2Divides(b, a); Pow2Divides(a, a); }
  }

  /** Remainders of -a in a word. */
  lemma NegMod(a: nat, b: nat)
    requires IsPow2(a) && IsPow2(b) && a < WORD
    ensures b > 0 && (WORD - a) % b == if a < b then b - a else 0
  {
    hide IsPow2;
    Pow2Range(a);
    ModThroughWord(0, b);
    var c := WORD / b;
    assert WORD == b * c;
    if a < b {
      assert WORD - a == b * (c - 1) + (b - a);
      DivModUnique(WORD - a, b, c - 1, b - a);
    } else {
      Pow2Divides(b, a);
      var d := a / b;
      assert WORD - a == b * (c - d);
      DivModUnique(WORD - a, b, c - d, 0);
    }
  }

  // ----- divisibility

  predicate Divisible(x: int, a: nat) {
    a > 0 && x % a == 0
  }

  lemma DivisibleBy(x: int, a: nat, q: int)
    requires a > 0 && x == a * q
    ensures Divisible(x, a)
  {
    DivModUnique(x, a, q, 0);
  }

  lemma Divides(a: nat, b: nat, x: int)
    requires Divisible(b, a) && Divisible(x, b)
    ensures Divisible(x, a)
  {
    var p, q := b / a, x / b;
    assert b == a * p && x == b * q;
    assert x == a * (p * q);
    DivisibleBy(x, a, p * q);
  }

  lemma SumDivisible(x: int, y: int, a: nat)
    requires Divisible(x, a) && Divisible(y, a)
    ensures Divisible(x + y, a) && Divisible(x - y, a) && Divisible(0 - x, a)
  {
    var p, q := x / a, y / a;
    assert x == a * p && y == a * q;
    assert a * (p + q) == a * p + a * q && a * (p - q) == a * p - a * q && a * (0 - p) == 0 - a * p;
    DivisibleBy(x + y, a, p + q);
    DivisibleBy(x - y, a, p - q);
    DivisibleBy(0 - x, a, 0 - p);
  }

  lemma Combine(x: int, y: int, z: int, t: int, a: nat)
    requires Divisible(x, a) && Divisible(y, a) && Divisible(z, a) && t == x + y - z
    ensures Divisible(t, a)
  {
    hide Divisible;
    SumDivisible(x, y, a);
    SumDivisible(x + y, z, a);
  }

  /** Only 0 is divisible by a and closer to 0 than a. */
  lemma DivisibleSmall(x: int, a: nat)
    requires Divisible(x, a) && 0 - a < x < a
    ensures x == 0
  {
    var q := x / a;
    assert x == a * q;
    if q >= 1 { MulAtLeast(a, q); }
    if q <= -1 { MulAtLeast(a, -q); }
  }

  /** Reducing modulo the word size changes a number by a multiple of a. */
  lemma WordDivisible(x: int, a: nat)
    requires IsPow2(a)
    ensures Divisible(x - Wrap(x), a)
  {
    hide IsPow2;
    ModThroughWord(0, a);
    var c := WORD / a;
    assert WORD == a * c;
    assert WORD * (x / WORD) == a * (c * (x / WORD));
    DivisibleBy(x - x % WORD, a, c * (x / WORD));
  }

  /** So does masking off the low bits. */
  lemma MaskDivisible(x: nat, a: nat)
    requires IsPow2(a)
    ensures 0 < a && And(x, a - 1) == And(a - 1, x) < a && And(x, a - 1) <= x
    ensures Divisible(x - And(x, a - 1), a)
  {
    hide IsPow2, And;
    LowMask(x, a);
    DivisibleBy(x - x % a, a, x / a);
  }

  lemma NegDivisible(x: nat, a: nat)
    requires IsPow2(a) && x < WORD
    ensures Divisible(Neg(x) + x, a)
  {
    hide IsPow2, Divisible;
    WordDivisible(WORD, a);
    WordDivisible(0, a);
  }

  // ----- one module

  /** The offset of the next module above the thread pointer. */
  function OffsetAbove(offset: nat, m: Module): nat
    requires offset < WORD && ModuleOk(m)
  {
    Pow2Range(m.align);
    Wrap(offset + And(m.align - 1, Wrap(Neg(offset) + m.image)))
  }

  /** The offset of the next module below the thread pointer. */
  function OffsetBelow(offset: nat, m: Module): nat
    requires offset < WORD && ModuleOk(m)
  {
    Pow2Range(m.align);
    var o := Wrap(offset + m.size + m.align - 1);
    Wrap(o - And(Wrap(o + m.image), m.align - 1))
  }

  /** The padding a module needs after tls_offset `at`: less than one alignment,
      and such that the module is congruent to its image. */
  function Pad(v: Variant, at: int, m: Module): int
    requires m.align > 0
  {
    if v.Above? then (m.image - at) % m.align else (0 - (at + m.size + m.image)) % m.align
  }

  /** What padding makes congruent: the offset to the image above the thread
      pointer, and to its negation below. */
  function Residue(v: Variant, at: int, m: Module, p: int): int {
    if v.Above? then at + p - m.image else at + m.size + p + m.image
  }

  /** Where tls_offset would be after the module if integers were unbounded. */
  function End(v: Variant, at: int, m: Module): int
    requires m.align > 0
  {
    at + Pad(v, at, m) + m.size
  }

  lemma PadOk(v: Variant, at: int, m: Module)
    requires m.align > 0
    ensures 0 <= Pad(v, at, m) < m.align && Divisible(Residue(v, at, m, Pad(v, at, m)), m.align)
  {
    var a := m.align;
    var x := if v.Above? then m.image - at else 0 - (at + m.size + m.image);
    var q := x / a;
    assert x == a * q + x % a && a * (0 - q) == 0 - a * q;
    DivisibleBy(x % a - x, a, 0 - q);
  }

  lemma PadUnique(v: Variant, at: int, m: Module, p: int)
    requires m.align > 0 && 0 <= p < m.align && Divisible(Residue(v, at, m, p), m.align)
    ensures p == Pad(v, at, m)
  {
    hide Divisible, Pad;
    PadOk(v, at, m);
    var q := Pad(v, at, m);
    SumDivisible(Residue(v, at, m, p), Residue(v, at, m, q), m.align);
    assert Residue(v, at, m, p) - Residue(v, at, m, q) == p - q;
    DivisibleSmall(p - q, m.align);
  }

  /** The masking computes that padding, whether or not sums wrap, and the
      offset is congruent to the image even if it wrapped. */
  lemma OffsetAboveOk(offset: nat, m: Module)
    requires offset < WORD && ModuleOk(m)
    ensures m.align > 0 && OffsetAbove(offset, m) == Wrap(offset + Pad(Above, offset, m))
    ensures Divisible(OffsetAbove(offset, m) - m.image, m.align)
  {
    hide IsPow2, And, Divisible, Neg, Wrap, Pad;
    Pow2Range(m.align);
    var a, n: int := m.align, Neg(offset);
    var w: int := Wrap(n + m.image);
    var pad: int := And(a - 1, w);
    MaskDivisible(w, a);
    DivisibleBy(0, a, 0);
    WordDivisible(n + m.image, a);
    NegDivisible(offset, a);
    WordDivisible(offset + pad, a);
    Combine(n + m.image - w, w - pad, n + offset, m.image - pad - offset, a);
    SumDivisible(m.image - pad - offset, 0, a);
    PadUnique(Above, offset, m, pad);
    Combine(m.image - pad - offset, offset + pad - Wrap(offset + pad), 0, m.image - OffsetAbove(offset, m), a);
    SumDivisible(m.image - OffsetAbove(offset, m), 0, a);
  }

  lemma OffsetBelowOk(offset: nat, m: Module)
    requires offset < WORD && ModuleOk(m)
    ensures m.align > 0 && OffsetBelow(offset, m) == Wrap(offset + m.size + Pad(Below, offset, m))
    ensures Divisible(OffsetBelow(offset, m) + m.image, m.align)
  {
    hide IsPow2, And, Divisible, Wrap, Pad;
    Pow2Range(m.align);
    var a, end := m.align, offset + m.size + m.align - 1;
    var o: int := Wrap(end);
    var w: int := Wrap(o + m.image);
    var c: int := And(w, a - 1);
    MaskDivisible(w, a);
    DivisibleBy(0, a, 0);
    WordDivisible(o + m.image, a);
    WordDivisible(end, a);
    WordDivisible(o - c, a);
    Combine(o + m.image - w, w - c, o - c - Wrap(o - c), OffsetBelow(offset, m) + m.image, a);
    Combine(o + m.image - w, w - c, 0 - (end - o), end - c + m.image, a) by { SumDivisible(end - o, 0, a); }
    PadUnique(Below, offset, m, a - 1 - c);
    WrapShift(end, 0 - c);
  }

  lemma WrapShift(x: int, y: int)
    ensures Wrap(Wrap(x) + y) == Wrap(x + y)
  {
    ModCongruent(x % WORD + y, x + y, 0 - x / WORD, WORD);
  }

  /** The main program is placed by a formula of its own; below the thread
      pointer it is the general rule applied to an empty layout. */
  function AppOffsetBelow(m: Module): nat
    requires ModuleOk(m)
  {
    Pow2Range(m.align);
    Wrap(m.size + And(Neg(Wrap(m.image + m.size)), m.align - 1))
  }

  lemma AppOffsetIsGeneral(m: Module)
    requires ModuleOk(m)
    ensures AppOffsetBelow(m) == OffsetBelow(0, m)
  {
    hide IsPow2, And, Divisible, Neg, Wrap, Pad, OffsetBelow;
    OffsetBelowOk(0, m);
    var a, s := m.align, Wrap(m.image + m.size);
    var n: int := Neg(s);
    var pad: int := And(n, a - 1);
    MaskDivisible(n, a);
    NegDivisible(s, a);
    WordDivisible(m.image + m.size, a);
    Combine(m.image + m.size - s, n + s, n - pad, m.size + pad + m.image, a);
    PadUnique(Below, 0, m, pad);
  }

  // ----- a sequence of loads

  /** The TLS part of `load_library`. */
  function Add(v: Variant, l: Layout, m: Module): (r: Layout)
    requires l.offset < WORD && IsPow2(l.align) && ModuleOk(m)
    ensures r.offset < WORD && IsPow2(r.align) && |r.offs| == |l.offs| + 1 && |r.mods| == |l.mods| + 1
  {
    hide IsPow2, And, MaxP2;
    MaxP2IsMax(l.align, m.align);
    var off := if v.Above? then OffsetAbove(l.offset, m) else OffsetBelow(l.offset, m);
    Layout(l.mods + [m], l.offs + [off],
           if v.Above? then Wrap(off + m.size) else off,
           MaxP2(l.align, m.align))
  }

  /** Start of module i's storage relative to the thread pointer. */
  function Start(v: Variant, l: Layout, i: nat): int
    requires i < |l.offs|
  {
    var off: int := l.offs[i];
    if v.Above? then off else -off
  }

  /** Module i: congruent to its image, with an alignment that divides the
      overall one, inside the space given out. */
  ghost predicate PlacedOk(v: Variant, l: Layout, i: nat)
    requires i < |l.offs| == |l.mods|
  {
    var m := l.mods[i];
    && ModuleOk(m) && Divisible(l.align, m.align) && Divisible(Start(v, l, i) - m.image, m.align)
    && (if v.Above? then 0 <= Start(v, l, i) && Start(v, l, i) + m.size <= l.offset
        else 0 - l.offset <= Start(v, l, i) && Start(v, l, i) + m.size <= 0)
  }

  ghost predicate Apart(v: Variant, l: Layout, i: nat, j: nat)
    requires i < |l.offs| == |l.mods| && j < |l.offs|
  {
    Start(v, l, i) + l.mods[i].size <= Start(v, l, j) || Start(v, l, j) + l.mods[j].size <= Start(v, l, i)
  }

  ghost predicate LayoutOk(v: Variant, l: Layout) {
    && |l.offs| == |l.mods| && l.offset < WORD && IsPow2(l.align)
    && (forall i :: 0 <= i < |l.offs| ==> PlacedOk(v, l, i))
    && (forall i, j :: 0 <= i < j < |l.offs| ==> Apart(v, l, i, j))
  }

  /** Loading one module keeps the layout sound and moves tls_offset up by at
      least its size, if and only if tls_offset does not wrap. */
  lemma AddOk(v: Variant, l: Layout, m: Module)
    requires LayoutOk(v, l) && ModuleOk(m)
    ensures m.align > 0
    ensures LayoutOk(v, Add(v, l, m)) && l.offset + m.size <= Add(v, l, m).offset <==> End(v, l.offset, m) < WORD
    ensures End(v, l.offset, m) < WORD ==> Add(v, l, m).offset == End(v, l.offset, m)
    ensures End(v, l.offset, m) >= WORD ==> Add(v, l, m).offset < l.offset + m.size
  {
    hide IsPow2, Divisible, Add, Pad, PlacedOk, Apart;
    AddOffset(v, l, m);
    PadOk(v, l.offset, m);
    if End(v, l.offset, m) < WORD {
      AddKeeps(v, l, m);
    }
  }

  lemma AddKeeps(v: Variant, l: Layout, m: Module)
    requires LayoutOk(v, l) && ModuleOk(m) && m.align > 0 && End(v, l.offset, m) < WORD
    ensures LayoutOk(v, Add(v, l, m))
  {
    hide IsPow2, Divisible, Add, End;
    var l' := Add(v, l, m);
    var n := |l.offs|;
    AddPrefix(v, l, m);
    NewModulePlaced(v, l, m);
    forall i | 0 <= i < n ensures PlacedOk(v, l', i) && Apart(v, l', i, n) {
      assert PlacedOk(v, l, i);
      Divides(l.mods[i].align, l.align, l'.align);
    }
    forall i, j | 0 <= i < j < n ensures Apart(v, l', i, j) {
      assert Apart(v, l, i, j);
    }
  }

  /** tls_align becomes the larger alignment. */
  lemma AddAlign(v: Variant, l: Layout, m: Module)
    requires l.offset < WORD && IsPow2(l.align) && ModuleOk(m)
    ensures Add(v, l, m).align == if l.align < m.align then m.align else l.align
  {
    hide IsPow2, MaxP2, OffsetAbove, OffsetBelow, Divisible;
    MaxP2IsMax(l.align, m.align);
  }

  lemma WrapDrops(at: int, pad: int, size: int)
    requires at >= 0 && 0 <= pad < WORD && size >= 0
    ensures at + pad + size < WORD ==> Wrap(at + pad + size) == at + pad + size
    ensures at + pad + size >= WORD ==> Wrap(at + pad + size) < at + size
  {
    var x := at + pad + size;
    var q := x / WORD;
    assert x == WORD * q + x % WORD;
  }

  /** In a word, tls_offset always is what it would be without a word size. */
  lemma AddOffset(v: Variant, l: Layout, m: Module)
    requires l.offset < WORD && IsPow2(l.align) && ModuleOk(m)
    ensures m.align > 0 && End(v, l.offset, m) >= 0 && Add(v, l, m).offset == Wrap(End(v, l.offset, m))
    ensures End(v, l.offset, m) < WORD ==> Add(v, l, m).offset == End(v, l.offset, m)
    ensures End(v, l.offset, m) >= WORD ==> Add(v, l, m).offset < l.offset + m.size
  {
    hide IsPow2, MaxP2, OffsetAbove, OffsetBelow, Divisible, Pad, Wrap;
    Pow2Range(m.align);
    PadOk(v, l.offset, m);
    WrapDrops(l.offset, Pad(v, l.offset, m), m.size);
    if v.Above? {
      OffsetAboveOk(l.offset, m);
      WrapShift(l.offset + Pad(v, l.offset, m), m.size);
    } else {
      OffsetBelowOk(l.offset, m);
    }
  }

  lemma AddPrefix(v: Variant, l: Layout, m: Module)
    requires l.offset < WORD && IsPow2(l.align) && ModuleOk(m)
    ensures var l' := Add(v, l, m); l'.mods == l.mods + [m] && l'.offs[..|l.offs|] == l.offs
    ensures Divisible(Add(v, l, m).align, l.align) && Divisible(Add(v, l, m).align, m.align)
  {
    hide IsPow2, MaxP2, OffsetAbove, OffsetBelow, Divisible;
    MaxP2IsMax(l.align, m.align);
  }

  lemma NewModulePlaced(v: Variant, l: Layout, m: Module)
    requires LayoutOk(v, l) && ModuleOk(m) && m.align > 0 && End(v, l.offset, m) < WORD
    ensures PlacedOk(v, Add(v, l, m), |l.offs|) && l.offset <= Add(v, l, m).offset
    ensures
      var s := Start(v, Add(v, l, m), |l.offs|);
      if v.Above? then l.offset <= s else s + m.size <= 0 - l.offset
  {
    hide IsPow2, MaxP2, OffsetAbove, OffsetBelow, Divisible, PlacedOk, Apart, Wrap, Pad;
    AddPrefix(v, l, m);
    AddOffset(v, l, m);
    PadOk(v, l.offset, m);
    if v.Above? {
      OffsetAboveOk(l.offset, m);
      WrapSmall(l.offset + Pad(v, l.offset, m));
    } else {
      OffsetBelowOk(l.offset, m);
      var x := OffsetBelow(l.offset, m) + m.image;
      SumDivisible(x, x, m.align);
    }
    PlacedLast(v, Add(v, l, m), m);
  }

  lemma PlacedLast(v: Variant, l: Layout, m: Module)
    requires |l.offs| == |l.mods| > 0 && l.mods[|l.mods| - 1] == m && ModuleOk(m) && Divisible(l.align, m.align)
    requires
      var s := Start(v, l, |l.offs| - 1);
      && Divisible(s - m.image, m.align)
      && if v.Above? then 0 <= s && s + m.size <= l.offset else 0 - l.offset <= s && s + m.size <= 0
    ensures PlacedOk(v, l, |l.offs| - 1)
  {}

  /** The layout after loading modules one after another, from tls_offset
      `start` and tls_align `minAlign`. */
  function Build(v: Variant, start: nat, minAlign: nat, mods: seq<Module>): Layout
    requires start < WORD && IsPow2(minAlign) && forall i :: 0 <= i < |mods| ==> ModuleOk(mods[i])
    ensures Build(v, start, minAlign, mods).offset < WORD && IsPow2(Build(v, start, minAlign, mods).align)
  {
    if mods == [] then
      Layout([], [], start, minAlign)
    else
      hide IsPow2;
      Add(v, Build(v, start, minAlign, mods[..|mods| - 1]), mods[|mods| - 1])
  }

  /** tls_offset after the loads if integers were unbounded. */
  function IdealEnd(v: Variant, start: nat, mods: seq<Module>): int
    requires forall i :: 0 <= i < |mods| ==> mods[i].align > 0
  {
    if mods == [] then start else End(v, IdealEnd(v, start, mods[..|mods| - 1]), mods[|mods| - 1])
  }

  ghost predicate AllOk(mods: seq<Module>) {
    forall i :: 0 <= i < |mods| ==> ModuleOk(mods[i]) && mods[i].align > 0
  }

  /** Every load moves tls_offset up by at least the module's size. */
  ghost predicate Climbs(v: Variant, start: nat, minAlign: nat, mods: seq<Module>)
    requires start < WORD && IsPow2(minAlign) && AllOk(mods)
  {
    mods == [] ||
    var n := |mods| - 1;
    && Climbs(v, start, minAlign, mods[..n])
    && Build(v, start, minAlign, mods[..n]).offset + mods[n].size <= Build(v, start, minAlign, mods).offset
  }

  /** Over every sequence of loads: all modules' ranges are pairwise disjoint,
      congruent to their images, aligned with an alignment that divides
      tls_align, and above what was there before, if and only if the ideal
      tls_offset stays below 2^64. */
  lemma {:induction false} LayoutSound(v: Variant, start: nat, minAlign: nat, mods: seq<Module>)
    requires start < WORD && IsPow2(minAlign) && AllOk(mods)
    ensures Build(v, start, minAlign, mods).mods == mods
    ensures LayoutOk(v, Build(v, start, minAlign, mods)) && Climbs(v, start, minAlign, mods) <==>
            IdealEnd(v, start, mods) < WORD
    ensures Climbs(v, start, minAlign, mods) ==> IdealEnd(v, start, mods) < WORD
    ensures IdealEnd(v, start, mods) < WORD ==> Build(v, start, minAlign, mods).offset == IdealEnd(v, start, mods)
    decreases |mods|
  {
    hide IsPow2, Add, LayoutOk, End, ModuleOk;
    if mods == [] {
      EmptyLayout(v, start, minAlign);
    } else {
      var n := |mods| - 1;
      LayoutSound(v, start, minAlign, mods[..n]);
      var l := Build(v, start, minAlign, mods[..n]);
      AddPrefix(v, l, mods[n]);
      assert mods == mods[..n] + [mods[n]];
      EndAbove(v, IdealEnd(v, start, mods[..n]), mods[n]);
      if IdealEnd(v, start, mods[..n]) < WORD { AddOk(v, l, mods[n]); }
    }
  }

  lemma EndAbove(v: Variant, at: int, m: Module)
    requires m.align > 0
    ensures at <= End(v, at, m)
  {
    PadOk(v, at, m);
  }

  /** Two modules of 2^63 bytes: tls_offset wraps, and the layout is not sound. */
  lemma LayoutWraps(v: Variant)
    ensures
      var m := Module(0, OBJECT_MAX, 1);
      && IsPow2(1) && AllOk([m, m])
      && IdealEnd(v, 0, [m, m]) == WORD && !Climbs(v, 0, 1, [m, m])
  {
    hide IsPow2, Build, LayoutOk, Climbs, IdealEnd;
    OneIsPower();
    var m := Module(0, OBJECT_MAX, 1);
    IdealOfTwo(v, m);
    LayoutSound(v, 0, 1, [m, m]);
  }

  lemma OneIsPower()
    ensures IsPow2(1)
  {
    assert Pow2(0) == 1;
  }

  lemma IdealOfTwo(v: Variant, m: Module)
    requires m.align == 1
    ensures IdealEnd(v, 0, [m, m]) == 2 * m.size
  {
    hide Pad;
    assert [m, m][..1] == [m] && [m][..0] == [];
    PadOk(v, 0, m);
    PadOk(v, m.size, m);
    assert IdealEnd(v, 0, [m][..0]) == 0;
    assert IdealEnd(v, 0, [m, m][..1]) == m.size;
  }

  lemma EmptyLayout(v: Variant, start: nat, minAlign: nat)
    requires start < WORD && IsPow2(minAlign)
    ensures LayoutOk(v, Build(v, start, minAlign, []))
  {}

  // ----- a thread's block

  /** No allocation of this size or more is granted. */
  const OBJECT_MAX: nat := 0x8000_0000_0000_0000

  /** The DTV, the TLS area and the thread structure, without padding. */
  function Parts(l: Layout, pthreadSize: nat): nat {
    (1 + |l.mods|) * 8 + l.offset + pthreadSize
  }

  /** update_tls_size: the parts and two alignments, rounded up, in a word. */
  function BlockSize(l: Layout, pthreadSize: nat): nat
    requires 0 < l.align < WORD
  {
    AlignUp(Parts(l, pthreadSize) + l.align * 2, l.align)
  }

  /** Where __copy_tls puts the thread pointer in the block at mem: rounded up
      above the thread structure, or rounded down below it. */
  function ThreadPointer(v: Variant, l: Layout, mem: nat, pthreadSize: nat): int
    requires IsPow2(l.align)
  {
    Pow2Range(l.align);
    var size := BlockSize(l, pthreadSize);
    if v.Above? then
      mem + And(Neg(Wrap(mem + pthreadSize)), l.align - 1) + pthreadSize
    else
      mem + size - pthreadSize - And(Wrap(mem + size - pthreadSize), l.align - 1)
  }

  /** Wherever the block is: the thread pointer is a multiple of tls_align, less
      than one alignment from where the thread structure alone would put it. */
  lemma ThreadPointerOk(v: Variant, l: Layout, mem: nat, pthreadSize: nat)
    requires IsPow2(l.align)
    ensures 0 < l.align < WORD
    ensures
      var tp := ThreadPointer(v, l, mem, pthreadSize);
      var size := BlockSize(l, pthreadSize);
      && Divisible(tp, l.align)
      && (if v.Above? then mem + pthreadSize <= tp < mem + pthreadSize + l.align
          else mem + size - pthreadSize - l.align < tp <= mem + size - pthreadSize)
  {
    hide IsPow2, And, BlockSize, Divisible, Neg, Wrap;
    Pow2Range(l.align);
    var a := l.align;
    if v.Above? {
      var x: int := mem + pthreadSize;
      var w: int := Wrap(x);
      var n: int := Neg(w);
      var pad: int := And(n, a - 1);
      MaskDivisible(n, a);
      NegDivisible(w, a);
      WordDivisible(x, a);
      Combine(x - w, n + w, n - pad, x + pad, a);
    } else {
      var y: int := mem + BlockSize(l, pthreadSize) - pthreadSize;
      var w: int := Wrap(y);
      var c: int := And(w, a - 1);
      MaskDivisible(w, a);
      WordDivisible(y, a);
      SumDivisible(y - w, w - c, a);
      assert y - w + (w - c) == y - c;
    }
  }

  /** Start of the TLS area; it has l.offset bytes. */
  function Area(v: Variant, l: Layout, mem: nat, pthreadSize: nat): int
    requires IsPow2(l.align)
  {
    if v.Above? then ThreadPointer(v, l, mem, pthreadSize) else ThreadPointer(v, l, mem, pthreadSize) - l.offset
  }

  /** Every module's copy lies in the TLS area and is congruent to its image. */
  lemma CopyFits(v: Variant, l: Layout, mem: nat, pthreadSize: nat, i: nat)
    requires LayoutOk(v, l) && i < |l.mods|
    ensures
      var lo := ThreadPointer(v, l, mem, pthreadSize) + Start(v, l, i);
      var area := Area(v, l, mem, pthreadSize);
      && Divisible(lo - l.mods[i].image, l.mods[i].align)
      && area <= lo && lo + l.mods[i].size <= area + l.offset
  {
    hide IsPow2, ThreadPointer, Divisible;
    assert PlacedOk(v, l, i);
    ThreadPointerOk(v, l, mem, pthreadSize);
    var m := l.mods[i];
    var tp := ThreadPointer(v, l, mem, pthreadSize);
    Divides(m.align, l.align, tp);
    SumDivisible(tp, Start(v, l, i) - m.image, m.align);
    assert tp + Start(v, l, i) - m.image == tp + (Start(v, l, i) - m.image);
  }

  predicate Within(a: int, n: nat, mem: nat, size: nat) {
    mem <= a && a + n <= mem + size
  }

  predicate Disjoint(a: int, n: nat, b: int, m: nat) {
    a + n <= b || b + m <= a
  }

  /** The DTV, the TLS area and the thread structure lie in the block, apart. */
  predicate BlockHolds(v: Variant, l: Layout, mem: nat, pthreadSize: nat)
    requires IsPow2(l.align)
  {
    Pow2Range(l.align);
    var size := BlockSize(l, pthreadSize);
    var slots := 8 * (|l.mods| + 1);
    var tp := ThreadPointer(v, l, mem, pthreadSize);
    var dtv := if v.Above? then mem + size - slots else mem;
    var td := if v.Above? then tp - pthreadSize else tp;
    var area := Area(v, l, mem, pthreadSize);
    && Within(dtv, slots, mem, size) && Within(area, l.offset, mem, size) && Within(td, pthreadSize, mem, size)
    && Disjoint(dtv, slots, area, l.offset) && Disjoint(dtv, slots, td, pthreadSize)
    && Disjoint(area, l.offset, td, pthreadSize)
  }

  /** For every layout and every granted block: the block of the size
      update_tls_size computes holds its three parts if and only if that
      computation does not wrap. */
  lemma BlockHoldsIff(v: Variant, l: Layout, mem: nat, pthreadSize: nat)
    requires IsPow2(l.align) && 0 < l.align < WORD && BlockSize(l, pthreadSize) < OBJECT_MAX
    ensures BlockHolds(v, l, mem, pthreadSize) <==> Parts(l, pthreadSize) + l.align * 3 - 1 < WORD
  {
    hide IsPow2, BlockSize, ThreadPointer, Divisible;
    ThreadPointerOk(v, l, mem, pthreadSize);
    SizeOk(l, pthreadSize);
  }

  lemma SizeOk(l: Layout, pthreadSize: nat)
    requires IsPow2(l.align) && 0 < l.align < WORD && BlockSize(l, pthreadSize) < OBJECT_MAX
    ensures Parts(l, pthreadSize) + l.align * 3 - 1 < WORD ==>
              BlockSize(l, pthreadSize) >= Parts(l, pthreadSize) + l.align * 2
    ensures Parts(l, pthreadSize) + l.align * 3 - 1 >= WORD ==> BlockSize(l, pthreadSize) < Parts(l, pthreadSize)
  {
    hide IsPow2, AlignUp;
    var a, want := l.align, Parts(l, pthreadSize) + l.align * 2;
    if want + a - 1 < WORD {
      AlignUpRounds(want, a);
    } else {
      WrappedSize(want, a);
    }
  }

  /** A size that wrapped is smaller by almost 2^64, or 0 for the largest alignment. */
  lemma WrappedSize(want: nat, a: nat)
    requires IsPow2(a) && want + a - 1 >= WORD
    ensures 0 < a < WORD && AlignUp(want, a) <= want + a - 1 - WORD
    ensures a > OBJECT_MAX / 2 ==> a == OBJECT_MAX && (AlignUp(want, a) < OBJECT_MAX ==> AlignUp(want, a) == 0)
  {
    hide IsPow2, And, Neg;
    Pow2Range(a);
    var x := (want + (a - 1)) % WORD;
    AndAtMost(x, Neg(a));
    var q := (want + (a - 1)) / WORD;
    assert want + (a - 1) == WORD * q + x;
    if a > OBJECT_MAX / 2 {
      LargestPower(a);
      RoundDown(x, a);
    }
  }

  lemma LargestPower(a: nat)
    requires IsPow2(a) && a > OBJECT_MAX / 2
    ensures a == OBJECT_MAX
  {
    var k: nat :| k <= 63 && a == Pow2(k);
    Pow2At64();
    if k < 63 { Pow2Mono(k, 62); }
    ShlStep(0, 64);
    ShlStep(0, 63);
  }

  /** A sound layout whose block size wraps: the block does not even have room
      for the thread structure. */
  lemma BlockTooSmall()
    ensures
      var l := Layout([Module(0, WORD - 200, 1)], [WORD - 200], WORD - 200, 1);
      && LayoutOk(Below, l) && BlockSize(l, 200) == 18 && !BlockHolds(Below, l, 4096, 200)
  {
    var l := Layout([Module(0, WORD - 200, 1)], [WORD - 200], WORD - 200, 1);
    OneIsPower();
    hide IsPow2, And;
    assert PlacedOk(Below, l, 0);
    assert Parts(l, 200) + 2 == WORD + 18;
    RoundDown(18, 1);
    BlockHoldsIff(Below, l, 4096, 200);
  }
}
