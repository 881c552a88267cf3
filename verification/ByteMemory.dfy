/** Byte-addressed memory as a total function, with memcpy as its only update. */
module ByteMemory {

  newtype Byte = x: int | 0 <= x < 256
  type Memory = nat -> Byte

  function Read(mem: Memory, a: nat, n: nat): (r: seq<Byte>)
    ensures |r| == n && forall i :: 0 <= i < n ==> r[i] == mem(a + i)
  {
    seq(n, i requires 0 <= i => mem(a + i))
  }

  /** memcpy of `bytes` to address a. */
  function Write(mem: Memory, a: nat, bytes: seq<Byte>): Memory {
    (x: nat) => if a <= x < a + |bytes| then bytes[x - a] else mem(x)
  }

  lemma ReadWritten(mem: Memory, a: nat, bytes: seq<Byte>)
    ensures Read(Write(mem, a, bytes), a, |bytes|) == bytes
  {}

  lemma ReadApart(mem: Memory, a: nat, bytes: seq<Byte>, b: nat, n: nat)
    requires b + n <= a || a + |bytes| <= b
    ensures Read(Write(mem, a, bytes), b, n) == Read(mem, b, n)
  {}

  lemma ReadSplit(mem: Memory, a: nat, n: nat, m: nat)
    ensures Read(mem, a, n + m) == Read(mem, a, n) + Read(mem, a + n, m)
  {}

  lemma ReadInside(mem: Memory, a: nat, bytes: seq<Byte>, o: nat, n: nat)
    requires o + n <= |bytes|
    ensures Read(Write(mem, a, bytes), a + o, n) == bytes[o..o + n]
  {}

  lemma ReadPart(mem: Memory, a: nat, m: nat, o: nat, n: nat)
    requires o + n <= m
    ensures Read(mem, a, m)[o..o + n] == Read(mem, a + o, n)
  {}

  // ----- words, least significant byte first

  function Digits(v: nat, n: nat): (r: seq<Byte>)
    ensures |r| == n
  {
    if n == 0 then [] else [(v % 256) as Byte] + Digits(v / 256, n - 1)
  }

  function Value(bytes: seq<Byte>): nat {
    if bytes == [] then 0 else bytes[0] as nat + 256 * Value(bytes[1..])
  }

  function Range(n: nat): nat {
    if n == 0 then 1 else 256 * Range(n - 1)
  }

  lemma {:induction false} DigitsBack(v: nat, n: nat)
    requires v < Range(n)
    ensures Value(Digits(v, n)) == v
  {
    if n > 0 { DigitsBack(v / 256, n - 1); }
  }

  lemma RangeOfWord()
    ensures Range(8) == 0x1_0000_0000_0000_0000
  {
    assert Range(2) == 0x1_0000;
    assert Range(4) == 0x1_0000_0000;
    assert Range(6) == 0x1_0000_0000_0000;
  }

  function ReadWord(mem: Memory, a: nat): nat {
    Value(Read(mem, a, 8))
  }

  function WriteWord(mem: Memory, a: nat, v: nat): Memory {
    Write(mem, a, Digits(v, 8))
  }

  lemma WordWritten(mem: Memory, a: nat, v: nat)
    requires v < 0x1_0000_0000_0000_0000
    ensures ReadWord(WriteWord(mem, a, v), a) == v
  {
    hide Read, Write;
    ReadWritten(mem, a, Digits(v, 8));
    RangeOfWord();
    DigitsBack(v, 8);
  }
}
