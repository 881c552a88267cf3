/** RELR relocation: `do_relr_relocs` and the loop of the linker's first stage,
    against the meaning of the SHT_RELR encoding of the System V gABI. Memory is
    the image as 64-bit words; addresses in the table are offsets from its base. */
module Relr {
  import opened Bits

  // ----- what a table means

  /** An even entry is the address of a word to relocate. An odd entry is a
      bitmap for the 63 words after those the preceding entries cover: bit k + 1
      stands for word k of them. */
  predicate IsAddress(entry: nat) {
    entry % 2 == 0
  }

  /** The last address entry before j. */
  function Anchor(table: seq<nat>, j: nat): (e: nat)
    requires 0 < j <= |table|
    ensures e < j
  {
    if j == 1 || IsAddress(table[j - 1]) then j - 1 else Anchor(table, j - 1)
  }

  /** The first word the bitmap at j is about. */
  function Window(table: seq<nat>, j: nat): nat
    requires 0 < j < |table|
  {
    var e := Anchor(table, j);
    table[e] / 8 + 1 + 63 * (j - e - 1)
  }

  /** Word a is one of the 63 from `window` on, and its bit is set. */
  predicate InBitmap(entry: nat, window: nat, a: nat) {
    window <= a < window + 63 && Bit(entry, a - window + 1)
  }

  /** Entry j says that word a is to be relocated. */
  predicate Denotes(table: seq<nat>, j: nat, a: nat)
    requires j < |table|
  {
    if IsAddress(table[j]) then a == table[j] / 8 else j > 0 && InBitmap(table[j], Window(table, j), a)
  }

  /** How many of the first j entries relocate word a. */
  ghost function Times(table: seq<nat>, j: nat, a: nat): nat
    requires j <= |table|
  {
    if j == 0 then 0 else Times(table, j - 1, a) + if Denotes(table, j - 1, a) then 1 else 0
  }

  /** Word w after c relocations by base. */
  function Relocated(w: nat, base: nat, c: nat): nat {
    (w + base * c) % WORD
  }

  /** A well-formed table: it starts with an address, addresses are word
      aligned, entries are words, and everything denoted lies in the image. */
  ghost predicate TableOk(table: seq<nat>, words: nat) {
    && (table != [] ==> IsAddress(table[0]))
    && (forall j :: 0 <= j < |table| ==> table[j] < WORD && (IsAddress(table[j]) ==> table[j] % 8 == 0))
    && (forall j: nat, a: nat :: j < |table| && Denotes(table, j, a) ==> a < words)
  }

  ghost predicate Applied(was: seq<nat>, now: seq<nat>, base: nat, table: seq<nat>, j: nat)
    requires j <= |table|
  {
    |now| == |was| && forall a :: 0 <= a < |was| ==> now[a] == Relocated(was[a], base, Times(table, j, a))
  }

  // ----- arithmetic

  lemma RelocatedAgain(w: nat, base: nat, c: nat)
    ensures (Relocated(w, base, c) + base) % WORD == Relocated(w, base, c + 1)
  {
    var x := w + base * c;
    assert w + base * (c + 1) == x + base;
    ModCongruent(x + base, x % WORD + base, x / WORD, WORD);
  }

  lemma RelocatedRange(w: nat, base: nat)
    requires w < WORD
    ensures Relocated(w, base, 0) == w
  {}

  lemma ShiftedOnce(x: nat, k: nat)
    ensures x / Pow2(k) / 2 == x / Pow2(k + 1)
  {
    var p := Pow2(k);
    var q, r := x / p, x % p;
    assert x == p * q + r;
    var q2, r2 := q / 2, q % 2;
    assert p * q == (2 * p) * q2 + p * r2 by { assert q == 2 * q2 + r2; Distributes(p, q2, r2); }
    assert 0 <= p * r2 + r < 2 * p by { if r2 == 1 { assert p * r2 == p; } else { assert p * r2 == 0; } }
    DivModUnique(x, 2 * p, q2, p * r2 + r);
  }

  lemma Distributes(p: nat, a: nat, b: nat)
    ensures p * (2 * a + b) == (2 * p) * a + p * b
  {}

  /** Once shifting has emptied the bitmap, no higher bit was set. */
  lemma {:induction false} NoBitsAbove(x: nat, i: nat, k: nat)
    requires x / Pow2(i) == 0 && k >= i
    ensures !Bit(x, k)
    decreases k
  {
    assert x / Pow2(k) == 0 by { EmptiedStays(x, i, k); }
  }

  lemma {:induction false} EmptiedStays(x: nat, i: nat, k: nat)
    requires x / Pow2(i) == 0 && k >= i
    ensures x / Pow2(k) == 0
    decreases k
  {
    if k > i {
      EmptiedStays(x, i, k - 1);
      ShiftedOnce(x, k - 1);
    }
  }

  lemma WordEmptied(x: nat)
    requires x < WORD
    ensures x / Pow2(64) == 0
  {
    Pow2At64();
    SmallMod(x, WORD);
  }

  // ----- the decoders

  /** The inner loop: relocate the words of one bitmap. */
  method ApplyBitmap(mem: array<nat>, addr: nat, entry: nat, base: nat)
    requires entry < WORD && forall a: nat :: InBitmap(entry, addr, a) ==> a < mem.Length
    modifies mem
    ensures forall a :: 0 <= a < mem.Length ==>
      mem[a] == if InBitmap(entry, addr, a) then (old(mem[a]) + base) % WORD else old(mem[a])
  {
    hide Pow2, Bit, InBitmap;
    var i := 0;
    var bitmap := entry / 2;
    PowOne();
    WordEmptied(entry);
    forall a: nat | InBitmap(entry, addr, a) ensures a >= addr { BitmapStart(entry, addr, a); }
    while bitmap != 0
      invariant 0 <= i <= 63 && bitmap == entry / Pow2(i + 1)
      invariant forall a :: 0 <= a < mem.Length ==>
        mem[a] == if a < addr + i && InBitmap(entry, addr, a) then (old(mem[a]) + base) % WORD else old(mem[a])
      decreases bitmap
    {
      BitmapBit(entry, addr, i, bitmap);
      if bitmap % 2 == 1 { mem[addr + i] := (mem[addr + i] + base) % WORD; }
      ShiftedOnce(entry, i + 1);
      bitmap := bitmap / 2;
      i := i + 1;
    }
    forall a: nat | a >= addr + i ensures !InBitmap(entry, addr, a) { BitmapDone(entry, addr, i, a); }
  }

  lemma PowOne()
    ensures Pow2(1) == 2
  {}

  lemma BitmapBit(entry: nat, addr: nat, i: nat, bitmap: nat)
    requires i < 63 && bitmap == entry / Pow2(i + 1)
    ensures InBitmap(entry, addr, addr + i) <==> bitmap % 2 == 1
  {}

  lemma BitmapStart(entry: nat, addr: nat, a: nat)
    requires InBitmap(entry, addr, a)
    ensures a >= addr
  {}

  lemma BitmapDone(entry: nat, addr: nat, i: nat, a: nat)
    requires entry / Pow2(i + 1) == 0 && a >= addr + i
    ensures !InBitmap(entry, addr, a)
  {
    hide Pow2, Bit;
    NoBitsAbove(entry, i + 1, a - addr + 1);
  }

  /** Entry j applied to `was` gives `now`. */
  ghost predicate EntryApplied(was: seq<nat>, now: seq<nat>, base: nat, table: seq<nat>, j: nat)
    requires j < |table|
  {
    |now| == |was| && forall a :: 0 <= a < |was| ==>
      now[a] == if Denotes(table, j, a) then (was[a] + base) % WORD else was[a]
  }

  lemma AppliedNext(start: seq<nat>, was: seq<nat>, now: seq<nat>, base: nat, table: seq<nat>, j: nat)
    requires j < |table| && Applied(start, was, base, table, j) && EntryApplied(was, now, base, table, j)
    ensures Applied(start, now, base, table, j + 1)
  {
    hide Denotes, Relocated;
    forall a | 0 <= a < |start| ensures now[a] == Relocated(start[a], base, Times(table, j + 1, a)) {
      RelocatedAgain(start[a], base, Times(table, j, a));
    }
  }

  /** Where the next bitmap's window starts, after entry j. */
  lemma NextWindow(table: seq<nat>, j: nat)
    requires j + 1 < |table| && IsAddress(table[0])
    ensures Window(table, j + 1) == if IsAddress(table[j]) then table[j] / 8 + 1 else Window(table, j) + 63
  {}

  /** What one pass of either outer loop does with entry j: relocate what it
      denotes, and move the cursor past what it covers. */
  method ApplyEntry(mem: array<nat>, table: seq<nat>, base: nat, j: nat, addr: nat) returns (next: nat)
    requires TableOk(table, mem.Length) && j < |table| && (j > 0 ==> addr == Window(table, j))
    modifies mem
    ensures EntryApplied(old(mem[..]), mem[..], base, table, j)
    ensures j + 1 < |table| ==> next == Window(table, j + 1)
  {
    hide InBitmap, Window;
    var entry := table[j];
    if IsAddress(entry) {
      var word := entry / 8;
      assert Denotes(table, j, word);
      mem[word] := (mem[word] + base) % WORD;
      next := word + 1;
    } else {
      assert forall a: nat :: InBitmap(entry, addr, a) ==> Denotes(table, j, a);
      ApplyBitmap(mem, addr, entry, base);
      next := addr + 63;
    }
    if j + 1 < |table| { NextWindow(table, j); }
  }

  /** The loop of `_dlstart_c`, over the linker's own image. */
  method StageOne(mem: array<nat>, table: seq<nat>, base: nat)
    requires TableOk(table, mem.Length) && AllWords(mem[..])
    modifies mem
    ensures Applied(old(mem[..]), mem[..], base, table, |table|)
  {
    hide Window, Relocated, TableOk, EntryApplied;
    var addr: nat := 0;
    var j := 0;
    ghost var start := mem[..];
    NotYet(start, base, table);
    while j < |table|
      invariant 0 <= j <= |table| && Applied(start, mem[..], base, table, j)
      invariant 0 < j < |table| ==> addr == Window(table, j)
    {
      ghost var was := mem[..];
      addr := ApplyEntry(mem, table, base, j, addr);
      AppliedNext(start, was, mem[..], base, table, j);
      j := j + 1;
    }
  }

  /** `do_relr_relocs`: nothing for the linker itself. The cursor is not
      initialised, and the table counts down. */
  method DoRelrRelocs(isLinker: bool, mem: array<nat>, table: seq<nat>, base: nat)
    requires TableOk(table, mem.Length) && AllWords(mem[..])
    modifies mem
    ensures isLinker ==> mem[..] == old(mem[..])
    ensures !isLinker ==> Applied(old(mem[..]), mem[..], base, table, |table|)
  {
    hide Window, Relocated, TableOk, EntryApplied;
    if isLinker { return; }
    var addr: nat := *;
    var left := |table|;
    ghost var start := mem[..];
    NotYet(start, base, table);
    while left > 0
      invariant 0 <= left <= |table| && Applied(start, mem[..], base, table, |table| - left)
      invariant 0 < left < |table| ==> addr == Window(table, |table| - left)
    {
      ghost var was := mem[..];
      addr := ApplyEntry(mem, table, base, |table| - left, addr);
      AppliedNext(start, was, mem[..], base, table, |table| - left);
      left := left - 1;
    }
  }

  ghost predicate AllWords(s: seq<nat>) {
    forall a :: 0 <= a < |s| ==> s[a] < WORD
  }

  lemma NotYet(start: seq<nat>, base: nat, table: seq<nat>)
    requires AllWords(start)
    ensures Applied(start, start, base, table, 0)
  {}

  /** The three passes over the linker's own image: `_dlstart_c`, then
      `reloc_all(&ldso)` in stage two, then again in stage three once `relocated`
      has been cleared. Its image is relocated once. */
  method RelocateLinker(mem: array<nat>, table: seq<nat>, base: nat)
    requires TableOk(table, mem.Length) && AllWords(mem[..])
    modifies mem
    ensures Applied(old(mem[..]), mem[..], base, table, |table|)
  {
    StageOne(mem, table, base);
    StaysWords(old(mem[..]), mem[..], base, table);
    DoRelrRelocs(true, mem, table, base);
    DoRelrRelocs(true, mem, table, base);
  }

  lemma StaysWords(was: seq<nat>, now: seq<nat>, base: nat, table: seq<nat>)
    requires Applied(was, now, base, table, |table|)
    ensures AllWords(now)
  {}

  // ----- what the transformation is

  /** Both decoders turn the same memory into the same memory. */
  method RunBoth(one: array<nat>, three: array<nat>, table: seq<nat>, base: nat)
    requires one != three && one[..] == three[..] && TableOk(table, one.Length) && AllWords(one[..])
    modifies one, three
    ensures one[..] == three[..] && Applied(old(one[..]), one[..], base, table, |table|)
  {
    hide TableOk, AllWords, Relocated, Times;
    assert one.Length == |one[..]| == |three[..]| == three.Length;
    StageOne(one, table, base);
    DoRelrRelocs(false, three, table, base);
    assert forall a :: 0 <= a < one.Length ==> one[..][a] == three[..][a];
  }

  /** An address entry never goes back to words the entries before it cover. */
  ghost predicate Increasing(table: seq<nat>) {
    forall j: nat :: 0 < j < |table| && IsAddress(table[j]) ==> table[j] / 8 >= Window(table, j)
  }

  ghost predicate Denoted(table: seq<nat>, a: nat) {
    exists j: nat :: j < |table| && Denotes(table, j, a)
  }

  lemma {:induction false} CoveredBelow(table: seq<nat>, j: nat, a: nat)
    requires table != [] && IsAddress(table[0]) && Increasing(table) && j < |table|
    ensures Times(table, j, a) <= 1
    ensures j > 0 && Times(table, j, a) == 1 ==> a < Window(table, j)
  {
    hide InBitmap, Window;
    if j > 0 {
      CoveredBelow(table, j - 1, a);
      NextWindow(table, j - 1);
      if Denotes(table, j - 1, a) { DenotesFrom(table, j - 1, a); }
    }
  }

  lemma DenotesFrom(table: seq<nat>, j: nat, a: nat)
    requires j < |table| && IsAddress(table[0]) && Increasing(table) && Denotes(table, j, a)
    ensures j > 0 ==> Window(table, j) <= a
    ensures if IsAddress(table[j]) then a == table[j] / 8 else j > 0 && a < Window(table, j) + 63
  {}

  lemma {:induction false} DenotedCounts(table: seq<nat>, j: nat, a: nat)
    requires j <= |table|
    ensures Times(table, j, a) > 0 <==> exists i: nat :: i < j && Denotes(table, i, a)
  {
    if j > 0 {
      DenotedCounts(table, j - 1, a);
      if Denotes(table, j - 1, a) { assert j - 1 < j && Denotes(table, j - 1, a); }
    }
  }

  /** No word is denoted by two entries. */
  ghost predicate DenotedOnce(table: seq<nat>) {
    forall i: nat, j: nat, a: nat :: i < j < |table| && Denotes(table, i, a) ==> !Denotes(table, j, a)
  }

  /** The base is added exactly once to every word the table denotes, and no
      other word changes. */
  ghost predicate RelocatedOnce(was: seq<nat>, now: seq<nat>, base: nat, table: seq<nat>) {
    |now| == |was| && forall a :: 0 <= a < |was| ==>
      now[a] == if Denoted(table, a) then (was[a] + base) % WORD else was[a]
  }

  ghost predicate AlwaysOnce(table: seq<nat>, words: nat) {
    forall was: seq<nat>, now: seq<nat>, base: nat ::
      |was| == words && AllWords(was) && Applied(was, now, base, table, |table|) ==>
        RelocatedOnce(was, now, base, table)
  }

  /** Decoding relocates each denoted word exactly once, whatever the image and
      the base, if and only if no word is denoted twice. */
  lemma EachWordOnce(table: seq<nat>, words: nat)
    requires TableOk(table, words) && |table| < WORD
    ensures AlwaysOnce(table, words) <==> DenotedOnce(table)
  {
    hide TableOk, RelocatedOnce, Applied, Denotes;
    if DenotedOnce(table) {
      forall was: seq<nat>, now: seq<nat>, base: nat
        | |was| == words && AllWords(was) && Applied(was, now, base, table, |table|)
        ensures RelocatedOnce(was, now, base, table)
      {
        OnceRelocates(was, now, base, table);
      }
    } else {
      var i: nat, j: nat, a: nat :| i < j < |table| && Denotes(table, i, a) && Denotes(table, j, a);
      TwiceFails(table, words, i, j, a);
    }
  }

  lemma OnceRelocates(was: seq<nat>, now: seq<nat>, base: nat, table: seq<nat>)
    requires DenotedOnce(table) && AllWords(was) && Applied(was, now, base, table, |table|)
    ensures RelocatedOnce(was, now, base, table)
  {
    hide Denotes, DenotedOnce, Times;
    forall a | 0 <= a < |was| ensures now[a] == if Denoted(table, a) then (was[a] + base) % WORD else was[a] {
      DenotedCounts(table, |table|, a);
      OnceCounts(table, |table|, a);
      RelocatedRange(was[a], base);
    }
  }

  lemma {:induction false} OnceCounts(table: seq<nat>, j: nat, a: nat)
    requires DenotedOnce(table) && j <= |table|
    ensures Times(table, j, a) <= 1
  {
    hide Denotes;
    if j > 0 {
      OnceCounts(table, j - 1, a);
      DenotedCounts(table, j - 1, a);
    }
  }

  lemma {:induction false} TimesGrows(table: seq<nat>, i: nat, j: nat, a: nat)
    requires i <= j <= |table|
    ensures Times(table, i, a) <= Times(table, j, a) <= Times(table, i, a) + (j - i)
    decreases j
  {
    hide Denotes;
    if i < j { TimesGrows(table, i, j - 1, a); }
  }

  /** A word denoted twice: adding 1 to a zero image gives at least 2 there. */
  lemma TwiceFails(table: seq<nat>, words: nat, i: nat, j: nat, a: nat)
    requires TableOk(table, words) && |table| < WORD && i < j < |table|
    requires Denotes(table, i, a) && Denotes(table, j, a)
    ensures !AlwaysOnce(table, words)
  {
    assert a < words;
    hide TableOk, Denotes, Times;
    var was := seq(words, _ => 0);
    var now := seq(words, b requires 0 <= b => Relocated(0, 1, Times(table, |table|, b)));
    TwiceCounts(table, i, j, a);
    SmallMod(Times(table, |table|, a), WORD);
    assert Applied(was, now, 1, table, |table|) && AllWords(was);
    assert Denoted(table, a) && now[a] >= 2;
    assert !RelocatedOnce(was, now, 1, table);
  }

  lemma TwiceCounts(table: seq<nat>, i: nat, j: nat, a: nat)
    requires i < j < |table| && Denotes(table, i, a) && Denotes(table, j, a)
    ensures 2 <= Times(table, |table|, a) <= |table|
  {
    hide Denotes;
    TimesGrows(table, 0, i, a);
    TimesGrows(table, i + 1, j, a);
    TimesGrows(table, j + 1, |table|, a);
    TimesGrows(table, 0, |table|, a);
  }

  /** A well-formed table that names the same word twice. */
  lemma TwiceDenoted()
    ensures TableOk([0, 0], 1) && !DenotedOnce([0, 0]) && !AlwaysOnce([0, 0], 1)
  {
    var table: seq<nat> := [0, 0];
    assert Denotes(table, 0, 0) && Denotes(table, 1, 0);
    EachWordOnce(table, 1);
  }

  /** A table whose addresses increase, as a link editor writes it, denotes no
      word twice. */
  lemma IncreasingOnce(table: seq<nat>)
    requires table != [] && IsAddress(table[0]) && Increasing(table)
    ensures DenotedOnce(table)
  {
    hide Denotes, Increasing;
    forall i: nat, j: nat, a: nat | i < j < |table| && Denotes(table, i, a) ensures !Denotes(table, j, a) {
      TimesAtMostOnce(table, a);
      if Denotes(table, j, a) { TwiceCounts(table, i, j, a); }
    }
  }

  lemma TimesAtMostOnce(table: seq<nat>, a: nat)
    requires table != [] && IsAddress(table[0]) && Increasing(table)
    ensures Times(table, |table|, a) <= 1
  {
    hide InBitmap, Window, Increasing;
    var j := |table| - 1;
    CoveredBelow(table, j, a);
    if Denotes(table, j, a) { DenotesFrom(table, j, a); }
  }
}
