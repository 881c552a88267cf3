/** GNU obstacks: `_obstack_begin_worker`, `_obstack_newchunk`, `_obstack_free`,
    `_obstack_allocated_p`, `_obstack_memory_used` and the macros of obstack.h.
    Addresses are naturals below 2^64 and memory is a total function from
    addresses to bytes, so bytes move only where the code copies them. */
module Obstack {
  import opened Bits
  import opened ByteMemory
  import opened Options

  /** offsetof(struct _obstack_chunk, contents) */
  const HEADER: nat := 16
  const DEFAULT_ALIGNMENT: nat := 16
  const DEFAULT_ROUNDING: nat := 16
  /** Allocation requests of this size or more fail. */
  const ALLOC_MAX: nat := 0x8000_0000_0000_0000

  /** 4096 less what GNU malloc used to need, both parts rounded. */
  function DefaultSize(): nat {
    var mask := DEFAULT_ROUNDING - 1;
    var extra := (12 + mask) / DEFAULT_ROUNDING * DEFAULT_ROUNDING;
    4096 - (extra + 4 + mask) / DEFAULT_ROUNDING * DEFAULT_ROUNDING
  }

  datatype Chunk = Chunk(addr: nat, limit: nat)

  /** A finished object: its address, its bytes, and the chunk it lies in. */
  datatype Object = Object(addr: nat, bytes: seq<Byte>, at: nat)

  /** `chunkfun`: the answer may depend on everything that happened before
      (the number of the call and the chunks held), and may be null. */
  type Allocator = (nat, seq<Chunk>, nat) -> Option<nat>

  /** What any allocator promises: an in-range block apart from all chunks held. */
  ghost predicate Honest(alloc: Allocator) {
    forall tick, held, size :: alloc(tick, held, size).Some? ==> Fits(alloc(tick, held, size).value, held, size)
  }

  ghost predicate Fits(a: nat, held: seq<Chunk>, size: nat) {
    && size < ALLOC_MAX && 0 < a && a + size < WORD
    && forall i :: 0 <= i < |held| ==> a + size <= held[i].addr || held[i].limit <= a
  }

  // ----- the invariant, on values

  ghost predicate ChunkOk(c: Chunk, align: nat) {
    0 < c.addr && c.addr + HEADER + align <= c.limit < WORD && c.limit - c.addr < ALLOC_MAX
  }

  ghost predicate Apart(c: Chunk, d: Chunk) {
    c.limit <= d.addr || d.limit <= c.addr
  }

  ghost predicate ChunksOk(chunks: seq<Chunk>, align: nat) {
    && IsPow2(align)
    && (forall i :: 0 <= i < |chunks| ==> ChunkOk(chunks[i], align))
    && (forall i, j :: 0 <= i < j < |chunks| ==> Apart(chunks[i], chunks[j]))
  }

  /** Where objects may begin in a chunk: __PTR_ALIGN of its contents. */
  function First(c: Chunk, align: nat): nat
    requires 0 < align < WORD
  {
    AlignUp(c.addr + HEADER, align)
  }

  lemma FirstInside(c: Chunk, align: nat)
    requires ChunkOk(c, align) && IsPow2(align)
    ensures 0 < align < WORD && c.addr + HEADER <= First(c, align) < c.limit && First(c, align) % align == 0
  {
    AlignUpRounds(c.addr + HEADER, align);
  }

  ghost predicate ObjectOk(o: Object, chunks: seq<Chunk>, mem: Memory, align: nat)
    requires 0 < align < WORD
  {
    && o.at < |chunks|
    && First(chunks[o.at], align) <= o.addr && o.addr + |o.bytes| <= chunks[o.at].limit
    && Read(mem, o.addr, |o.bytes|) == o.bytes
    && (o.addr % align == 0 || o.addr == chunks[o.at].limit)
  }

  /** o was finished before p. */
  ghost predicate Precedes(o: Object, p: Object) {
    o.at <= p.at && (o.at == p.at ==> o.addr + |o.bytes| <= p.addr)
  }

  ghost predicate LiveOk(live: seq<Object>, chunks: seq<Chunk>, mem: Memory, align: nat)
    requires 0 < align < WORD
  {
    && (forall i :: 0 <= i < |live| ==> ObjectOk(live[i], chunks, mem, align))
    && (forall i, j :: 0 <= i < j < |live| ==> Precedes(live[i], live[j]))
  }

  /** The object being built, in the newest chunk, above everything finished there. */
  ghost predicate TopOk(live: seq<Object>, chunks: seq<Chunk>, base: nat, next: nat, maybeEmpty: bool, align: nat)
    requires 0 < align < WORD
  {
    && chunks != []
    && var n := |chunks| - 1;
    && First(chunks[n], align) <= base <= next <= chunks[n].limit
    && (base % align == 0 || base == chunks[n].limit)
    && (forall i :: 0 <= i < |live| && live[i].at == n ==>
          live[i].addr + |live[i].bytes| <= base && (!maybeEmpty ==> live[i].bytes != []))
  }

  /** Sum of the chunk sizes. */
  function Total(chunks: seq<Chunk>): int {
    if chunks == [] then 0
    else var c := chunks[|chunks| - 1]; Total(chunks[..|chunks| - 1]) + (c.limit - c.addr)
  }

  /** Writing into the top chunk at or above the object being built leaves finished objects alone. */
  lemma WriteKeepsLive(live: seq<Object>, chunks: seq<Chunk>, mem: Memory, base: nat, next: nat, e: bool, align: nat,
                       a: nat, bytes: seq<Byte>)
    requires ChunksOk(chunks, align) && 0 < align < WORD
    requires LiveOk(live, chunks, mem, align) && TopOk(live, chunks, base, next, e, align)
    requires base <= a && a + |bytes| <= chunks[|chunks| - 1].limit
    ensures LiveOk(live, chunks, Write(mem, a, bytes), align)
  {
    var n := |chunks| - 1;
    forall i | 0 <= i < |live| ensures ObjectOk(live[i], chunks, Write(mem, a, bytes), align) {
      var o := live[i];
      assert ObjectOk(o, chunks, mem, align);
      FirstInside(chunks[n], align);
      FirstInside(chunks[o.at], align);
      if o.at < n { assert Apart(chunks[o.at], chunks[n]); }
      ReadApart(mem, a, bytes, o.addr, |o.bytes|);
    }
  }

  /** Writing into a block apart from all chunks leaves finished objects alone. */
  lemma FreshWriteKeepsLive(live: seq<Object>, chunks: seq<Chunk>, mem: Memory, align: nat, c: Chunk, a: nat,
                            bytes: seq<Byte>)
    requires ChunksOk(chunks, align) && 0 < align < WORD && LiveOk(live, chunks, mem, align)
    requires forall i :: 0 <= i < |chunks| ==> Apart(c, chunks[i])
    requires c.addr <= a && a + |bytes| <= c.limit
    ensures LiveOk(live, chunks, Write(mem, a, bytes), align)
  {
    forall i | 0 <= i < |live| ensures ObjectOk(live[i], chunks, Write(mem, a, bytes), align) {
      var o := live[i];
      assert ObjectOk(o, chunks, mem, align);
      FirstInside(chunks[o.at], align);
      assert Apart(c, chunks[o.at]);
      ReadApart(mem, a, bytes, o.addr, |o.bytes|);
    }
  }

  /** Pushing a chunk on top keeps the finished objects where they are. */
  lemma PushKeepsLive(live: seq<Object>, chunks: seq<Chunk>, mem: Memory, align: nat, c: Chunk)
    requires 0 < align < WORD && LiveOk(live, chunks, mem, align)
    ensures LiveOk(live, chunks + [c], mem, align)
  {
    forall i | 0 <= i < |live| ensures ObjectOk(live[i], chunks + [c], mem, align) {
      assert ObjectOk(live[i], chunks, mem, align);
    }
  }

  /** So does dropping chunks from the top, for objects below them. */
  lemma PopKeepsLive(live: seq<Object>, chunks: seq<Chunk>, mem: Memory, align: nat, m: nat)
    requires 0 < align < WORD && LiveOk(live, chunks, mem, align) && m <= |chunks|
    requires forall i :: 0 <= i < |live| ==> live[i].at < m
    ensures LiveOk(live, chunks[..m], mem, align)
  {
    forall i | 0 <= i < |live| ensures ObjectOk(live[i], chunks[..m], mem, align) {
      assert ObjectOk(live[i], chunks, mem, align);
    }
  }

  lemma PrefixLive(live: seq<Object>, chunks: seq<Chunk>, mem: Memory, align: nat, k: nat)
    requires 0 < align < WORD && LiveOk(live, chunks, mem, align) && k <= |live|
    ensures LiveOk(live[..k], chunks, mem, align)
  {}

  /** The early release of the old chunk: nothing finished lies in it. */
  lemma OnlyGrowingObject(live: seq<Object>, chunks: seq<Chunk>, base: nat, next: nat, mem: Memory, align: nat)
    requires 0 < align < WORD && LiveOk(live, chunks, mem, align) && TopOk(live, chunks, base, next, false, align)
    requires base == First(chunks[|chunks| - 1], align)
    ensures forall i :: 0 <= i < |live| ==> live[i].at < |chunks| - 1
  {
    forall i | 0 <= i < |live| ensures live[i].at < |chunks| - 1 {
      assert ObjectOk(live[i], chunks, mem, align);
    }
  }

  /** At most one chunk holds a given address strictly above its start and up to its limit. */
  lemma OwnerUnique(chunks: seq<Chunk>, align: nat, i: nat, j: nat, a: nat)
    requires ChunksOk(chunks, align) && i < |chunks| && j < |chunks|
    requires Owns(chunks[i], a) && Owns(chunks[j], a)
    ensures i == j
  {
  }

  /** The test of `_obstack_free` and `_obstack_allocated_p`. */
  predicate Owns(c: Chunk, a: nat) {
    c.addr < a <= c.limit
  }

  /** The size `_obstack_newchunk` asks for, in size_t arithmetic; None when a sum wrapped. */
  function NewSize(objSize: nat, length: nat, align: nat, chunkSize: nat): Option<nat>
    requires 0 < align < WORD
  {
    var sum1 := (objSize + length) % WORD;
    var sum2 := (sum1 + (align - 1)) % WORD;
    var wanted := (sum2 + objSize / 8 + 100) % WORD;
    var enough := if wanted < sum2 then sum2 else wanted;
    if objSize <= sum1 <= sum2 then Some(if enough < chunkSize then chunkSize else enough) else None
  }

  /** What a move needs at least, without a word size: the object, the length and
      the alignment mask. */
  function Needed(objSize: nat, length: nat, align: nat): nat
    requires align > 0
  {
    objSize + length + (align - 1)
  }

  /** What is asked for: an eighth of the object and 100 bytes more if that fits
      a word, and never less than the chunk size. */
  function Wanted(objSize: nat, length: nat, align: nat, chunkSize: nat): nat
    requires align > 0
  {
    var need := Needed(objSize, length, align);
    var roomy := need + objSize / 8 + 100;
    var size := if roomy < WORD then roomy else need;
    if size < chunkSize then chunkSize else size
  }

  /** The tests on the sums catch exactly the sizes that do not fit a word, and
      the size is the one wanted otherwise. */
  lemma NewSizeExact(objSize: nat, length: nat, align: nat, chunkSize: nat)
    requires objSize < ALLOC_MAX && length < WORD && 0 < align < WORD
    ensures NewSize(objSize, length, align, chunkSize) ==
            if Needed(objSize, length, align) < WORD then Some(Wanted(objSize, length, align, chunkSize)) else None
  {}

  /** If the computed size can be granted at all, it has room for the old object,
      the requested length, the header and any alignment padding. */
  lemma SizeSuffices(objSize: nat, length: nat, align: nat, chunkSize: nat)
    requires objSize < ALLOC_MAX && length < WORD && 0 < align < WORD
    ensures
      var size := NewSize(objSize, length, align, chunkSize);
      size.Some? && size.value < ALLOC_MAX ==>
        size.value >= chunkSize && size.value >= objSize + length + (align - 1) + 100
  {}

  /** The state after moving the growing object into the new chunk c. */
  lemma MoveTop(live: seq<Object>, chunks: seq<Chunk>, mem: Memory, base: nat, next: nat, e: bool, align: nat,
                c: Chunk, base': nat, release: bool, chunks': seq<Chunk>, mem': Memory)
    requires ChunksOk(chunks, align) && 0 < align < WORD
    requires LiveOk(live, chunks, mem, align) && TopOk(live, chunks, base, next, e, align)
    requires ChunkOk(c, align) && forall i :: 0 <= i < |chunks| ==> Apart(c, chunks[i])
    requires base' == First(c, align) && base' + (next - base) <= c.limit
    requires release ==> !e && base == First(chunks[|chunks| - 1], align)
    requires chunks' == (if release then chunks[..|chunks| - 1] else chunks) + [c]
    requires mem' == Write(mem, base', Read(mem, base, next - base))
    ensures ChunksOk(chunks', align) && LiveOk(live, chunks', mem', align)
    ensures TopOk(live, chunks', base', base' + (next - base), false, align)
    ensures Read(mem', base', next - base) == Read(mem, base, next - base)
    ensures |chunks'| > 0 && chunks'[|chunks'| - 1] == c
  {
    var n := |chunks| - 1;
    var kept := if release then chunks[..n] else chunks;
    var bytes := Read(mem, base, next - base);
    FirstInside(c, align);
    FreshWriteKeepsLive(live, chunks, mem, align, c, base', bytes);
    if release {
      OnlyGrowingObject(live, chunks, base, next, mem, align);
      PopKeepsLive(live, chunks, mem', align, n);
    }
    assert forall i :: 0 <= i < |live| ==> live[i].at < |kept| by {
      assert forall i :: 0 <= i < |live| ==> ObjectOk(live[i], chunks, mem, align);
    }
    PushKeepsLive(live, kept, mem', align, c);
    ReadWritten(mem, base', bytes);
  }

  /** All of it. */
  ghost predicate ShapeOk(live: seq<Object>, chunks: seq<Chunk>, mem: Memory, base: nat, next: nat, limit: nat, e: bool,
                          align: nat)
    requires 0 < align < WORD
  {
    && ChunksOk(chunks, align) && LiveOk(live, chunks, mem, align)
    && TopOk(live, chunks, base, next, e, align)
    && limit == chunks[|chunks| - 1].limit
  }

  lemma TopNonEmpty(live: seq<Object>, chunks: seq<Chunk>, mem: Memory, base: nat, next: nat, limit: nat, e: bool,
                    align: nat)
    requires 0 < align < WORD && ShapeOk(live, chunks, mem, base, next, limit, e, align)
    ensures chunks != [] && base <= next
  {}

  /** The same with the room the new chunk leaves. */
  lemma InstallKeeps(live: seq<Object>, chunks: seq<Chunk>, mem: Memory, base: nat, next: nat, limit: nat, e: bool,
                     align: nat, c: Chunk, length: nat, release: bool, chunks': seq<Chunk>, mem': Memory)
    requires 0 < align < WORD && ShapeOk(live, chunks, mem, base, next, limit, e, align)
    requires ChunkOk(c, align) && forall i :: 0 <= i < |chunks| ==> Apart(c, chunks[i])
    requires base <= next && c.addr + HEADER + (align - 1) + (next - base) + length <= c.limit
    requires release ==> chunks != [] && !e && base == First(chunks[|chunks| - 1], align)
    requires chunks' == (if release then chunks[..|chunks| - 1] else chunks) + [c]
    requires mem' == Write(mem, First(c, align), Read(mem, base, next - base))
    ensures
      var base' := First(c, align);
      && ShapeOk(live, chunks', mem', base', base' + (next - base), c.limit, false, align)
      && Read(mem', base', next - base) == Read(mem, base, next - base)
      && base' + (next - base) + length <= c.limit
  {
    hide IsPow2, ChunksOk, LiveOk, TopOk, AlignUp, Read, Write, Apart;
    FirstNear(c, chunks, align);
    MoveTop(live, chunks, mem, base, next, e, align, c, First(c, align), release, chunks', mem');
  }

  lemma FirstNear(c: Chunk, chunks: seq<Chunk>, align: nat)
    requires ChunkOk(c, align) && ChunksOk(chunks, align) && 0 < align < WORD
    ensures First(c, align) <= c.addr + HEADER + (align - 1)
  {
    AlignUpRounds(c.addr + HEADER, align);
  }

  class Obstack {
    const alloc: Allocator
    var calls: nat               // how often chunkfun has been called
    const chunkSize: nat
    const align: nat             // alignment_mask + 1
    var chunks: seq<Chunk>       // h->chunk and its prev chain, newest last
    var objectBase: nat
    var nextFree: nat
    var chunkLimit: nat
    var maybeEmpty: bool
    var mem: Memory
    ghost var live: seq<Object>       // finished and not freed, oldest first
    ghost var granted: seq<Chunk>     // what chunkfun has returned so far
    ghost var released: seq<Chunk>    // what has been handed to freefun so far

    ghost predicate Valid()
      reads this
    {
      && Honest(alloc)
      && IsPow2(align) && 0 < align < WORD && HEADER + align <= chunkSize < WORD
      && ShapeOk(live, chunks, mem, objectBase, nextFree, chunkLimit, maybeEmpty, align)
      && Accounted(granted, released, chunks)
    }

    /** The growing object is all there is in the newest chunk, as far as the
        flag and the base can tell. */
    ghost predicate Alone()
      requires Valid()
      reads this
    {
      TopNonEmpty(live, chunks, mem, objectBase, nextFree, chunkLimit, maybeEmpty, align);
      !maybeEmpty && objectBase == First(chunks[|chunks| - 1], align)
    }

    /** Call number `tick` of chunkfun would bring room for `length` more bytes. */
    predicate Grants(tick: nat, length: nat)
      reads this
    {
      && align > 0 && objectBase <= nextFree && Needed(nextFree - objectBase, length, align) < WORD
      && alloc(tick, chunks, Wanted(nextFree - objectBase, length, align, chunkSize)).Some?
    }

    /** There is room for n more bytes, or there would be. */
    predicate HasRoom(tick: nat, n: nat)
      reads this
    {
      nextFree + n <= chunkLimit || Grants(tick, n)
    }

    /** The bytes of the object being built. */
    ghost function Growing(): seq<Byte>
      reads this
    {
      if objectBase <= nextFree then Read(mem, objectBase, nextFree - objectBase) else []
    }

    /** `_obstack_begin_worker`, once chunkfun has granted the first chunk; 0
        stands for the default size or alignment. */
    constructor (size: nat, alignment: nat, alloc: Allocator, memory: Memory)
      requires Honest(alloc)
      requires
        var a := if alignment == 0 then DEFAULT_ALIGNMENT else alignment;
        var n := if size == 0 then DefaultSize() else size;
        IsPow2(a) && HEADER + a <= n < WORD && alloc(0, [], n).Some?
      ensures Valid() && live == [] && Growing() == [] && fresh(this)
      ensures align == (if alignment == 0 then 16 else alignment)
      ensures chunkSize == if size == 0 then DefaultSize() else size
      ensures |chunks| == 1 && chunks[0].limit - chunks[0].addr == chunkSize && granted == chunks && released == []
      ensures objectBase == First(chunks[0], align) && !maybeEmpty
    {
      hide AlignUp, Honest, IsPow2;
      var a := if alignment == 0 then DEFAULT_ALIGNMENT else alignment;
      var n := if size == 0 then DefaultSize() else size;
      this.alloc, this.calls, this.align, this.chunkSize, this.mem := alloc, 1, a, n, memory;
      var c := Chunk(alloc(0, [], n).value, alloc(0, [], n).value + n);
      HonestAnswer(alloc, 0, [], n);
      AlignUpRounds(c.addr + HEADER, a);
      var base := AlignUp(c.addr + HEADER, a);
      chunks, objectBase, nextFree, chunkLimit, maybeEmpty := [c], base, base, c.limit, false;
      live, granted, released := [], [c], [];
      new;
    }

    /** `_obstack_begin_worker`: without a first chunk the failure handler is
        called, which does not return. */
    static method Begin(size: nat, alignment: nat, alloc: Allocator, memory: Memory) returns (h: Option<Obstack>)
      requires Honest(alloc)
      requires
        var a := if alignment == 0 then DEFAULT_ALIGNMENT else alignment;
        var n := if size == 0 then DefaultSize() else size;
        IsPow2(a) && HEADER + a <= n < WORD
      ensures h.None? <==> alloc(0, [], if size == 0 then DefaultSize() else size).None?
      ensures h.Some? ==> fresh(h.value) && h.value.Valid() && h.value.live == [] && h.value.Growing() == []
      ensures h.Some? ==> h.value.align == (if alignment == 0 then 16 else alignment)
      ensures h.Some? ==> h.value.chunkSize == if size == 0 then 4064 else size
      ensures h.Some? ==> |h.value.chunks| == 1 && h.value.granted == h.value.chunks && h.value.released == []
      ensures h.Some? ==> h.value.objectBase == First(h.value.chunks[0], h.value.align) && !h.value.maybeEmpty
    {
      hide Honest, IsPow2, DefaultSize;
      DefaultSizeIs();
      if alloc(0, [], if size == 0 then DefaultSize() else size).None? { return None; }
      var o := new Obstack(size, alignment, alloc, memory);
      return Some(o);
    }

    /** `_obstack_newchunk`; a false result is the call of the failure handler,
        which does not return. */
    method NewChunk(length: nat) returns (ok: bool)
      requires Valid() && length < WORD
      modifies this`calls, this`chunks, this`objectBase, this`nextFree, this`chunkLimit, this`maybeEmpty, this`mem,
               this`granted, this`released
      ensures Valid() && Growing() == old(Growing())
      ensures old(calls) <= calls <= old(calls) + 1 && (ok <==> old(Grants(calls, length)))
      ensures ok ==> nextFree + length <= chunkLimit && chunks != [] && granted == old(granted) + [chunks[|chunks| - 1]]
      ensures ok ==>
        var size := Wanted(old(nextFree) - old(objectBase), length, align, chunkSize);
        var answer := alloc(old(calls), old(chunks), size);
        answer.Some? && chunks[|chunks| - 1] == Chunk(answer.value, answer.value + size)
      ensures ok ==> objectBase == First(chunks[|chunks| - 1], align)
      ensures !ok ==> unchanged(`chunks, `objectBase, `nextFree, `chunkLimit, `maybeEmpty, `mem, `granted, `released)
    {
      hide Honest, IsPow2, ChunksOk, LiveOk, TopOk, AlignUp, Read, Write, NewSize, Accounted, Needed, Wanted;
      var n := |chunks| - 1;
      TopFacts(live, chunks, objectBase, nextFree, maybeEmpty, align);
      var top := chunks[n];
      var objSize := nextFree - objectBase;
      NewSizeExact(objSize, length, align, chunkSize);
      var size := NewSize(objSize, length, align, chunkSize);
      if size == None { return false; }
      var answer := alloc(calls, chunks, size.value);
      calls := calls + 1;
      if answer == None { return false; }
      assert Fits(answer.value, chunks, size.value) by { HonestAnswer(alloc, calls - 1, chunks, size.value); }
      SizeSuffices(objSize, length, align, chunkSize);
      var release := Install(Chunk(answer.value, answer.value + size.value), length);
      return true;
    }

    /** Move the growing object into the new chunk, and release the old chunk
        if the object was alone in it. */
    method Install(c: Chunk, ghost length: nat) returns (release: bool)
      requires Valid() && ChunkOk(c, align) && forall i :: 0 <= i < |chunks| ==> Apart(c, chunks[i])
      requires objectBase <= nextFree && c.addr + HEADER + (align - 1) + (nextFree - objectBase) + length <= c.limit
      modifies this`chunks, this`objectBase, this`nextFree, this`chunkLimit, this`maybeEmpty, this`mem,
               this`granted, this`released
      ensures Valid() && Growing() == old(Growing())
      ensures nextFree + length <= chunkLimit
      ensures objectBase == First(c, align) && !maybeEmpty
      ensures release == old(Alone()) && granted == old(granted) + [c] && old(chunks) != []
      ensures released == old(released) + if release then [old(chunks)[|old(chunks)| - 1]] else []
      ensures chunks == (if release then old(chunks)[..|old(chunks)| - 1] else old(chunks)) + [c]
    {
      hide Honest, IsPow2, ShapeOk, First, Read, Write, Accounted, Apart, ChunkOk;
      TopNonEmpty(live, chunks, mem, objectBase, nextFree, chunkLimit, maybeEmpty, align);
      var n, base := |chunks| - 1, First(c, align);
      var top, objSize := chunks[n], nextFree - objectBase;
      release := !maybeEmpty && objectBase == First(top, align);
      var chunks' := (if release then chunks[..n] else chunks) + [c];
      var mem' := Write(mem, base, Read(mem, objectBase, objSize));
      InstallKeeps(live, chunks, mem, objectBase, nextFree, chunkLimit, maybeEmpty, align, c, length, release,
                   chunks', mem');
      ghost var released' := released + if release then [top] else [];
      Moved(granted, released, chunks, c, release, released', chunks');
      Relink(chunks', c, released');
      mem := mem';
      Settle(base, base + objSize, c.limit, false);
    }

    /** h->chunk and the prev chain, with what was obtained and released for it. */
    method Relink(held: seq<Chunk>, ghost c: Chunk, ghost gone: seq<Chunk>)
      modifies this`chunks, this`granted, this`released
      ensures chunks == held && granted == old(granted) + [c] && released == gone
    {
      chunks := held;
      granted, released := granted + [c], gone;
    }

    method Settle(base: nat, next: nat, limit: nat, empty: bool)
      modifies this`objectBase, this`nextFree, this`chunkLimit, this`maybeEmpty
      ensures objectBase == base && nextFree == next && chunkLimit == limit && maybeEmpty == empty
    {
      objectBase, nextFree, chunkLimit, maybeEmpty := base, next, limit, empty;
    }

    /** obstack_room */
    function Room(): nat
      requires Valid()
      reads this
    {
      TopFacts(live, chunks, objectBase, nextFree, maybeEmpty, align);
      chunkLimit - nextFree
    }

    /** obstack_grow: append bytes, moving to a larger chunk when they do not fit. */
    method Grow(bytes: seq<Byte>) returns (ok: bool)
      requires Valid() && |bytes| < WORD
      modifies this`calls, this`chunks, this`objectBase, this`nextFree, this`chunkLimit, this`maybeEmpty, this`mem,
               this`granted, this`released
      ensures Valid()
      ensures Growing() == if ok then old(Growing()) + bytes else old(Growing())
      ensures ok <==> old(HasRoom(calls, |bytes|))
      ensures old(calls) <= calls <= old(calls) + 1 && (!ok ==> !HasRoom(old(calls), |bytes|))
      ensures !ok ==> unchanged(`chunks, `objectBase, `nextFree, `chunkLimit, `maybeEmpty, `mem, `granted, `released)
    {
      hide Honest, IsPow2, ChunksOk, LiveOk, TopOk, AlignUp, Read, Write, Accounted;
      if Room() < |bytes| {
        ok := NewChunk(|bytes|);
        if !ok { return; }
      }
      Append(bytes);
      ok := true;
    }

    /** memcpy to next_free and advance it, when there is room. */
    method Append(bytes: seq<Byte>)
      requires Valid() && nextFree + |bytes| <= chunkLimit
      modifies this`nextFree, this`mem
      ensures Valid() && Growing() == old(Growing()) + bytes && nextFree == old(nextFree) + |bytes|
    {
      hide Honest, IsPow2, ChunksOk, LiveOk, TopOk, AlignUp, Read, Write, Accounted;
      AppendKeeps(live, chunks, mem, objectBase, nextFree, maybeEmpty, align, bytes);
      mem, nextFree := Write(mem, nextFree, bytes), nextFree + |bytes|;
    }

    /** obstack_grow0: append bytes and a zero. */
    method Grow0(bytes: seq<Byte>) returns (ok: bool)
      requires Valid() && |bytes| + 1 < WORD
      modifies this`calls, this`chunks, this`objectBase, this`nextFree, this`chunkLimit, this`maybeEmpty, this`mem,
               this`granted, this`released
      ensures Valid()
      ensures Growing() == if ok then old(Growing()) + bytes + [0] else old(Growing())
      ensures ok <==> old(HasRoom(calls, |bytes| + 1))
      ensures old(calls) <= calls <= old(calls) + 1 && (!ok ==> !HasRoom(old(calls), |bytes| + 1))
      ensures !ok ==> unchanged(`chunks, `objectBase, `nextFree, `chunkLimit, `maybeEmpty, `mem, `granted, `released)
    {
      hide Honest, IsPow2, ChunksOk, LiveOk, TopOk, AlignUp, Read, Write, Accounted;
      if !SkipsNewChunk(Room(), |bytes|) {
        ok := NewChunk(|bytes| + 1);
        if !ok { return; }
      }
      Append(bytes);
      Append([0]);
      ok := true;
    }

    /** obstack_blank: extend the object by n bytes of whatever memory holds. */
    method Blank(n: nat) returns (ok: bool)
      requires Valid() && n < WORD
      modifies this`calls, this`chunks, this`objectBase, this`nextFree, this`chunkLimit, this`maybeEmpty, this`mem,
               this`granted, this`released
      ensures Valid()
      ensures old(Growing()) <= Growing() && |Growing()| == old(|Growing()|) + if ok then n else 0
      ensures ok <==> old(HasRoom(calls, n))
      ensures old(calls) <= calls <= old(calls) + 1 && (!ok ==> !HasRoom(old(calls), n))
      ensures !ok ==> unchanged(`chunks, `objectBase, `nextFree, `chunkLimit, `maybeEmpty, `mem, `granted, `released)
    {
      hide Honest, IsPow2, ChunksOk, LiveOk, TopOk, AlignUp, Write, Accounted;
      if Room() < n {
        ok := NewChunk(n);
        if !ok { return; }
      }
      AdvanceKeeps(live, chunks, mem, objectBase, nextFree, maybeEmpty, align, n);
      nextFree := nextFree + n;
      ok := true;
    }

    /** A client storing into the space obstack_blank has just given it. */
    method Fill(bytes: seq<Byte>)
      requires Valid() && |bytes| <= |Growing()|
      modifies this`mem
      ensures Valid() && Growing() == old(Growing())[..|old(Growing())| - |bytes|] + bytes
    {
      hide Honest, IsPow2, ChunksOk, LiveOk, AlignUp, Write, Accounted;
      var at := nextFree - |bytes|;
      AppendKeeps(live, chunks, mem, objectBase, at, maybeEmpty, align, bytes);
      ReadSplit(mem, objectBase, at - objectBase, |bytes|);
      mem := Write(mem, at, bytes);
    }

    /** obstack_finish: the object gets its final address, and the next one
        starts at the next aligned address, or at the limit if that is past it. */
    method Finish() returns (addr: nat)
      requires Valid()
      modifies this`objectBase, this`nextFree, this`chunkLimit, this`maybeEmpty, this`live
      ensures Valid() && Growing() == [] && chunkLimit == old(chunkLimit)
      ensures live == old(live) + [Object(addr, old(Growing()), |chunks| - 1)]
      ensures addr == old(objectBase) && (old(Growing()) != [] ==> addr % align == 0)
      ensures old(nextFree) <= objectBase <= chunkLimit && (objectBase % align == 0 || objectBase == chunkLimit)
      ensures forall a :: old(nextFree) <= a < objectBase ==> a % align != 0
      ensures maybeEmpty == (old(maybeEmpty) || old(Growing()) == [])
    {
      hide Honest, IsPow2, ShapeOk, FinishNext, Read, Write, Accounted;
      TopNonEmpty(live, chunks, mem, objectBase, nextFree, chunkLimit, maybeEmpty, align);
      addr := objectBase;
      var empty := nextFree == addr;
      FinishShape(live, chunks, mem, objectBase, nextFree, chunkLimit, maybeEmpty, align);
      FinishLeast(live, chunks, mem, objectBase, nextFree, chunkLimit, maybeEmpty, align);
      var next := FinishNext(chunks[|chunks| - 1].addr, nextFree, chunkLimit, align);
      live := live + [Object(addr, Read(mem, objectBase, nextFree - objectBase), |chunks| - 1)];
      Settle(next, next, chunkLimit, maybeEmpty || empty);
      EmptyRead(mem, next);
    }

    /** The loop of `_obstack_free`: drop chunks until one owns obj. False is
        the abort for an address in no chunk; for a null address every chunk is
        released and the result is false too. */
    method FreeTo(obj: nat) returns (found: bool)
      requires ChunksOk(chunks, align)
      modifies this`chunks, this`objectBase, this`nextFree, this`chunkLimit, this`maybeEmpty, this`released
      ensures chunks <= old(chunks) && released == old(released) + NewestFirst(old(chunks)[|chunks|..])
      ensures found <==> exists i :: 0 <= i < |old(chunks)| && Owns(old(chunks)[i], obj)
      ensures found ==> chunks != [] && Owns(chunks[|chunks| - 1], obj)
      ensures found ==> objectBase == nextFree == obj && chunkLimit == chunks[|chunks| - 1].limit
      ensures found ==> maybeEmpty == (old(maybeEmpty) || |chunks| < |old(chunks)|)
      ensures !found ==> chunks == []
    {
      hide ChunksOk, NewestFirst, Owns;
      var m := |chunks|;
      NewestOfNone(chunks);
      while m > 0 && !Owns(chunks[m - 1], obj)
        modifies this`maybeEmpty, this`released
        invariant 0 <= m <= |chunks|
        invariant released == old(released) + NewestFirst(chunks[m..])
        invariant forall i :: m <= i < |chunks| ==> !Owns(chunks[i], obj)
        invariant maybeEmpty == (old(maybeEmpty) || m < |chunks|)
      {
        NewestNext(chunks, m - 1);
        released := released + [chunks[m - 1]];
        m := m - 1;
        maybeEmpty := true;
      }
      chunks := chunks[..m];
      found := m > 0;
      if found {
        objectBase, nextFree, chunkLimit := obj, obj, chunks[m - 1].limit;
      }
    }

    /** obstack_free for the k-th finished object (or the one being built, when
        k is their number): it and everything newer goes, everything older stays. */
    method Free(obj: nat, ghost k: nat)
      requires Valid() && k <= |live| && obj == (if k < |live| then live[k].addr else objectBase)
      modifies this`chunks, this`objectBase, this`nextFree, this`chunkLimit, this`maybeEmpty, this`live, this`released
      ensures Valid() && live == old(live)[..k] && Growing() == [] && objectBase == obj
      ensures FreedChunk(old(live), old(chunks), k) < |old(chunks)|
      ensures chunks == old(chunks)[..FreedChunk(old(live), old(chunks), k) + 1]
      ensures |chunks| <= |old(chunks)| && released == old(released) + NewestFirst(old(chunks)[|chunks|..])
      ensures maybeEmpty == (old(maybeEmpty) || |chunks| < |old(chunks)|)
    {
      hide Honest, IsPow2, ShapeOk, Read, Accounted, ChunksOk, NewestFirst;
      FreeShape(live, chunks, mem, objectBase, nextFree, chunkLimit, maybeEmpty, align, k);
      ghost var m := FreedChunk(live, chunks, k);
      ghost var before, had := chunks, released;
      if chunks[|chunks| - 1].addr < obj < chunkLimit {
        Settle(obj, obj, chunkLimit, maybeEmpty);
        NewestOfNone(chunks);
        assert before[..m + 1] == before;
      } else {
        var found := FreeTo(obj);
        assert chunks == before[..|chunks|];
      }
      Dropped(granted, had, before, m + 1);
      live := live[..k];
      EmptyRead(mem, obj);
    }

    /** obstack_free with a null argument: every chunk is released, newest
        first, so each chunk ever granted has now been released once. */
    method FreeAll()
      requires Valid()
      modifies this
      ensures chunks == [] && granted == old(granted) && released == old(released) + NewestFirst(old(chunks))
      ensures multiset(released) == multiset(granted)
    {
      hide Honest, IsPow2, AlignUp, ChunksOk, LiveOk, TopOk, NewestFirst;
      ghost var before, had := chunks, released;
      var found := FreeTo(0);
      assert !found;
      assert before[0..] == before;
      Dropped(granted, had, before, 0);
      live := [];
    }

    /** `_obstack_allocated_p` */
    method AllocatedP(obj: nat) returns (r: bool)
      requires Valid()
      ensures r <==> exists i :: 0 <= i < |chunks| && Owns(chunks[i], obj)
    {
      var m := |chunks|;
      while m > 0 && !Owns(chunks[m - 1], obj)
        invariant 0 <= m <= |chunks|
        invariant forall i :: m <= i < |chunks| ==> !Owns(chunks[i], obj)
      {
        m := m - 1;
      }
      r := m > 0;
    }

    /** `_obstack_memory_used`: bytes granted less bytes released. The size_t
        sum never wraps, because the chunks lie apart in the address space. */
    method MemoryUsed() returns (nbytes: nat)
      requires Valid()
      ensures nbytes == Total(granted) - Total(released)
    {
      hide LiveOk, TopOk, Honest, IsPow2, Accounted, ChunksOk;
      nbytes := 0;
      var m := |chunks|;
      ghost var total := 0;
      assert chunks[..m] == chunks;
      while m > 0
        invariant 0 <= m <= |chunks|
        invariant total == Total(chunks) - Total(chunks[..m]) && nbytes == total % WORD
      {
        assert chunks[..m][..m - 1] == chunks[..m - 1];
        var size := chunks[m - 1].limit - chunks[m - 1].addr;
        nbytes := (nbytes + size) % WORD;
        total := total + size;
        m := m - 1;
      }
      TotalFits(chunks, align);
      AccountedTotal(granted, released, chunks);
    }
  }

  // ----- accounting

  /** Every chunk ever granted is held or has been released, once for each time
      it was granted. */
  ghost predicate Accounted(granted: seq<Chunk>, released: seq<Chunk>, held: seq<Chunk>) {
    multiset(granted) == multiset(released) + multiset(held)
  }

  /** A list of chunks in the order `_obstack_free` walks it. */
  function NewestFirst(chunks: seq<Chunk>): seq<Chunk> {
    if chunks == [] then [] else NewestFirst(chunks[1..]) + [chunks[0]]
  }

  lemma NewestOfNone(chunks: seq<Chunk>)
    ensures NewestFirst(chunks[|chunks|..]) == []
  {}

  lemma NewestNext(chunks: seq<Chunk>, m: nat)
    requires m < |chunks|
    ensures NewestFirst(chunks[m..]) == NewestFirst(chunks[m + 1..]) + [chunks[m]]
  {
    assert chunks[m..][1..] == chunks[m + 1..];
  }

  lemma {:induction false} NewestSame(chunks: seq<Chunk>)
    ensures multiset(NewestFirst(chunks)) == multiset(chunks)
  {
    if chunks != [] {
      NewestSame(chunks[1..]);
      assert chunks == [chunks[0]] + chunks[1..];
    }
  }

  /** Releasing the chunks from position m on. */
  lemma Dropped(granted: seq<Chunk>, released: seq<Chunk>, chunks: seq<Chunk>, m: nat)
    requires Accounted(granted, released, chunks) && m <= |chunks|
    ensures Accounted(granted, released + NewestFirst(chunks[m..]), chunks[..m])
  {
    NewestSame(chunks[m..]);
    assert chunks == chunks[..m] + chunks[m..];
  }

  /** Obtaining c, and releasing the newest chunk if `release` says so. */
  lemma Moved(granted: seq<Chunk>, released: seq<Chunk>, chunks: seq<Chunk>, c: Chunk, release: bool,
              released': seq<Chunk>, chunks': seq<Chunk>)
    requires Accounted(granted, released, chunks) && chunks != []
    requires released' == released + if release then [chunks[|chunks| - 1]] else []
    requires chunks' == (if release then chunks[..|chunks| - 1] else chunks) + [c]
    ensures Accounted(granted + [c], released', chunks')
  {
    var n := |chunks| - 1;
    assert chunks == chunks[..n] + [chunks[n]];
  }

  function Without(chunks: seq<Chunk>, i: nat): seq<Chunk>
    requires i < |chunks|
  {
    chunks[..i] + chunks[i + 1..]
  }

  lemma {:induction false} TotalWithout(chunks: seq<Chunk>, i: nat)
    requires i < |chunks|
    ensures Total(Without(chunks, i)) == Total(chunks) - (chunks[i].limit - chunks[i].addr)
    decreases |chunks|
  {
    var n := |chunks| - 1;
    if i == n {
      assert Without(chunks, n) == chunks[..n];
    } else {
      TotalWithout(chunks[..n], i);
      assert Without(chunks, i)[..n - 1] == Without(chunks[..n], i);
      assert Without(chunks, i)[n - 1] == chunks[n];
    }
  }

  lemma MultisetWithout(chunks: seq<Chunk>, i: nat)
    requires i < |chunks|
    ensures multiset(Without(chunks, i)) == multiset(chunks) - multiset{chunks[i]}
  {
    assert chunks == chunks[..i] + [chunks[i]] + chunks[i + 1..];
  }

  lemma MinusOne(a: multiset<Chunk>, b: multiset<Chunk>, c: multiset<Chunk>, x: Chunk)
    requires a == b + c && x in b
    ensures a - multiset{x} == b - multiset{x} + c && a - multiset{x} == c + (b - multiset{x})
  {}

  lemma PositionOf(x: Chunk, s: seq<Chunk>) returns (i: nat)
    requires x in multiset(s)
    ensures i < |s| && s[i] == x
  {
    i :| 0 <= i < |s| && s[i] == x;
  }

  lemma {:induction false} AccountedTotal(granted: seq<Chunk>, released: seq<Chunk>, held: seq<Chunk>)
    requires Accounted(granted, released, held)
    ensures Total(granted) == Total(released) + Total(held)
    decreases |granted|
  {
    hide Total, Without;
    if granted == [] {
      NothingGranted(released, held);
    } else {
      var x := granted[|granted| - 1];
      LastOf(granted);
      if x in multiset(released) {
        var i := PositionOf(x, released);
        MultisetWithout(released, i);
        TotalWithout(released, i);
        MinusOne(multiset(granted), multiset(released), multiset(held), x);
        AccountedTotal(granted[..|granted| - 1], Without(released, i), held);
      } else {
        var i := PositionOf(x, held);
        MultisetWithout(held, i);
        TotalWithout(held, i);
        MinusOne(multiset(granted), multiset(held), multiset(released), x);
        AccountedTotal(granted[..|granted| - 1], released, Without(held, i));
      }
    }
  }

  lemma LastOf(chunks: seq<Chunk>)
    requires chunks != []
    ensures
      var n := |chunks| - 1;
      && chunks[n] in multiset(chunks) && multiset(chunks[..n]) == multiset(chunks) - multiset{chunks[n]}
      && Total(chunks) == Total(chunks[..n]) + (chunks[n].limit - chunks[n].addr)
  {
    hide Without;
    var n := |chunks| - 1;
    MultisetWithout(chunks, n);
    WithoutLast(chunks);
    assert chunks[n] in chunks;
  }

  lemma WithoutLast(chunks: seq<Chunk>)
    requires chunks != []
    ensures Without(chunks, |chunks| - 1) == chunks[..|chunks| - 1]
  {}

  lemma NothingGranted(released: seq<Chunk>, held: seq<Chunk>)
    requires multiset([]) == multiset(released) + multiset(held)
    ensures Total([]) == Total(released) + Total(held)
  {
    assert |multiset(released)| == |released| && |multiset(held)| == |held|;
  }

  /** Intervals below `bound` that lie apart have no more than `bound` in all. */
  lemma {:induction false} Packs(chunks: seq<Chunk>, bound: nat)
    requires forall i :: 0 <= i < |chunks| ==> chunks[i].addr < chunks[i].limit <= bound
    requires forall i, j :: 0 <= i < j < |chunks| ==> Apart(chunks[i], chunks[j])
    ensures Total(chunks) <= bound
    decreases |chunks|
  {
    if chunks != [] {
      var i := Topmost(chunks);
      var rest := Without(chunks, i);
      forall k | 0 <= k < |rest| ensures rest[k].addr < rest[k].limit <= chunks[i].addr {
        var m := if k < i then k else k + 1;
        assert rest[k] == chunks[m];
        assert if m < i then Apart(chunks[m], chunks[i]) else Apart(chunks[i], chunks[m]);
      }
      forall k, m | 0 <= k < m < |rest| ensures Apart(rest[k], rest[m]) {
        assert rest[k] == chunks[if k < i then k else k + 1] && rest[m] == chunks[if m < i then m else m + 1];
      }
      Packs(rest, chunks[i].addr);
      TotalWithout(chunks, i);
    }
  }

  lemma {:induction false} Topmost(chunks: seq<Chunk>) returns (i: nat)
    requires chunks != []
    ensures i < |chunks| && forall j :: 0 <= j < |chunks| ==> chunks[j].limit <= chunks[i].limit
    decreases |chunks|
  {
    var n := |chunks| - 1;
    if n == 0 { return 0; }
    i := Topmost(chunks[..n]);
    assert chunks[..n][i] == chunks[i] && forall j :: 0 <= j < n ==> chunks[..n][j] == chunks[j];
    if chunks[i].limit < chunks[n].limit { i := n; }
  }

  lemma TotalFits(chunks: seq<Chunk>, align: nat)
    requires ChunksOk(chunks, align)
    ensures 0 <= Total(chunks) < WORD
  {
    hide IsPow2;
    Packs(chunks, WORD - 1);
    TotalPositive(chunks, align);
  }

  lemma {:induction false} TotalPositive(chunks: seq<Chunk>, align: nat)
    requires ChunksOk(chunks, align)
    ensures 0 <= Total(chunks)
    decreases |chunks|
  {
    if chunks != [] { TotalPositive(chunks[..|chunks| - 1], align); }
  }

  /** The chunk of the object to be freed owns its address. */
  lemma FreedOwner(live: seq<Object>, chunks: seq<Chunk>, mem: Memory, base: nat, next: nat, e: bool, align: nat,
                   k: nat)
    requires ChunksOk(chunks, align) && 0 < align < WORD && k <= |live|
    requires LiveOk(live, chunks, mem, align) && TopOk(live, chunks, base, next, e, align)
    ensures
      var m := if k < |live| then live[k].at else |chunks| - 1;
      m < |chunks| && Owns(chunks[m], if k < |live| then live[k].addr else base)
  {
    if k < |live| { assert ObjectOk(live[k], chunks, mem, align); }
    FirstInside(chunks[if k < |live| then live[k].at else |chunks| - 1], align);
  }

  /** The chunk that holds the k-th finished object, or the one being built. */
  function FreedChunk(live: seq<Object>, chunks: seq<Chunk>, k: nat): int {
    if k < |live| then live[k].at else |chunks| - 1
  }

  lemma FreeShape(live: seq<Object>, chunks: seq<Chunk>, mem: Memory, base: nat, next: nat, limit: nat, e: bool,
                  align: nat, k: nat)
    requires 0 < align < WORD && ShapeOk(live, chunks, mem, base, next, limit, e, align) && k <= |live|
    ensures ChunksOk(chunks, align) && chunks != [] && limit == chunks[|chunks| - 1].limit
    ensures
      var m := FreedChunk(live, chunks, k);
      var obj := if k < |live| then live[k].addr else base;
      && 0 <= m < |chunks| && (forall i :: 0 <= i < |chunks| ==> (Owns(chunks[i], obj) <==> i == m))
      && ShapeOk(live[..k], chunks[..m + 1], mem, obj, obj, chunks[m].limit, e || m + 1 < |chunks|, align)
  {
    hide IsPow2, ChunksOk, LiveOk, TopOk, Owns;
    TopNonEmpty(live, chunks, mem, base, next, limit, e, align);
    FreedOwner(live, chunks, mem, base, next, e, align, k);
    UnwindKeeps(live, chunks, mem, base, next, e, align, k);
    var m := FreedChunk(live, chunks, k);
    var obj := if k < |live| then live[k].addr else base;
    forall i | 0 <= i < |chunks| && Owns(chunks[i], obj) ensures i == m { OwnerUnique(chunks, align, i, m, obj); }
  }

  lemma UnwindKeeps(live: seq<Object>, chunks: seq<Chunk>, mem: Memory, base: nat, next: nat, e: bool, align: nat,
                    k: nat)
    requires ChunksOk(chunks, align) && 0 < align < WORD && k <= |live|
    requires LiveOk(live, chunks, mem, align) && TopOk(live, chunks, base, next, e, align)
    ensures
      var m := if k < |live| then live[k].at else |chunks| - 1;
      var obj := if k < |live| then live[k].addr else base;
      && m < |chunks| && ChunksOk(chunks[..m + 1], align) && LiveOk(live[..k], chunks[..m + 1], mem, align)
      && TopOk(live[..k], chunks[..m + 1], obj, obj, e || m + 1 < |chunks|, align)
  {
    var m := if k < |live| then live[k].at else |chunks| - 1;
    forall i | 0 <= i < |live| ensures live[i].at < |chunks| && (i < k ==> live[i].at <= m) {
      assert ObjectOk(live[i], chunks, mem, align);
      if i < k < |live| { assert Precedes(live[i], live[k]); }
    }
    PrefixLive(live, chunks, mem, align, k);
    PopKeepsLive(live[..k], chunks, mem, align, m + 1);
    if k < |live| { assert ObjectOk(live[k], chunks, mem, align); }
  }

  lemma AppendKeeps(live: seq<Object>, chunks: seq<Chunk>, mem: Memory, base: nat, next: nat, e: bool, align: nat,
                    bytes: seq<Byte>)
    requires ChunksOk(chunks, align) && 0 < align < WORD
    requires LiveOk(live, chunks, mem, align) && TopOk(live, chunks, base, next, e, align)
    requires next + |bytes| <= chunks[|chunks| - 1].limit
    ensures LiveOk(live, chunks, Write(mem, next, bytes), align)
    ensures TopOk(live, chunks, base, next + |bytes|, e, align)
    ensures base <= next
    ensures Read(Write(mem, next, bytes), base, next + |bytes| - base) == Read(mem, base, next - base) + bytes
  {
    hide LiveOk;
    WriteKeepsLive(live, chunks, mem, base, next, e, align, next, bytes);
    var mem' := Write(mem, next, bytes);
    ReadSplit(mem', base, next - base, |bytes|);
    ReadApart(mem, next, bytes, base, next - base);
    ReadWritten(mem, next, bytes);
  }

  lemma AdvanceKeeps(live: seq<Object>, chunks: seq<Chunk>, mem: Memory, base: nat, next: nat, e: bool, align: nat,
                     n: nat)
    requires ChunksOk(chunks, align) && 0 < align < WORD
    requires LiveOk(live, chunks, mem, align) && TopOk(live, chunks, base, next, e, align)
    requires next + n <= chunks[|chunks| - 1].limit
    ensures TopOk(live, chunks, base, next + n, e, align)
    ensures base <= next && Read(mem, base, next - base) <= Read(mem, base, next + n - base)
  {
    ReadSplit(mem, base, next - base, n);
  }

  lemma FinishKeeps(live: seq<Object>, chunks: seq<Chunk>, mem: Memory, base: nat, next: nat, e: bool, align: nat,
                    next': nat)
    requires ChunksOk(chunks, align) && 0 < align < WORD
    requires LiveOk(live, chunks, mem, align) && TopOk(live, chunks, base, next, e, align)
    requires next <= next' <= chunks[|chunks| - 1].limit
    requires next' % align == 0 || next' == chunks[|chunks| - 1].limit
    ensures
      var live' := live + [Object(base, Read(mem, base, next - base), |chunks| - 1)];
      LiveOk(live', chunks, mem, align) && TopOk(live', chunks, next', next', e || next == base, align)
    ensures base < next ==> base % align == 0
  {
    var o := Object(base, Read(mem, base, next - base), |chunks| - 1);
    assert ObjectOk(o, chunks, mem, align);
    forall i | 0 <= i < |live| ensures Precedes(live[i], o) {
      assert ObjectOk(live[i], chunks, mem, align);
    }
  }

  /** Where the next object starts: aligned, or at the limit if that is past it. */
  function FinishNext(chunk: nat, next: nat, limit: nat, align: nat): nat
    requires 0 < align < WORD
  {
    var aligned := AlignUp(next, align);
    if (aligned - chunk) % WORD > limit - chunk then limit else aligned
  }

  lemma FinishShape(live: seq<Object>, chunks: seq<Chunk>, mem: Memory, base: nat, next: nat, limit: nat, e: bool,
                    align: nat)
    requires 0 < align < WORD && ShapeOk(live, chunks, mem, base, next, limit, e, align)
    ensures chunks != [] && base <= next
    ensures
      var n := FinishNext(chunks[|chunks| - 1].addr, next, limit, align);
      ShapeOk(live + [Object(base, Read(mem, base, next - base), |chunks| - 1)], chunks, mem, n, n, limit,
              e || next == base, align)
    ensures base < next ==> base % align == 0
  {
    hide IsPow2, ChunksOk, LiveOk, TopOk, AlignUp;
    TopFacts(live, chunks, base, next, e, align);
    PowerOf(chunks, align);
    AlignUpRounds(next, align);
    FinishKeeps(live, chunks, mem, base, next, e, align, FinishNext(chunks[|chunks| - 1].addr, next, limit, align));
  }

  /** The next object starts at the least aligned address of the chunk that is
      free, or at the limit if there is none. */
  lemma FinishLeast(live: seq<Object>, chunks: seq<Chunk>, mem: Memory, base: nat, next: nat, limit: nat, e: bool,
                    align: nat)
    requires 0 < align < WORD && ShapeOk(live, chunks, mem, base, next, limit, e, align)
    ensures chunks != []
    ensures
      var n := FinishNext(chunks[|chunks| - 1].addr, next, limit, align);
      && next <= n <= limit && (n % align == 0 || n == limit)
      && forall a :: next <= a < n ==> a % align != 0
  {
    hide IsPow2, ChunksOk, LiveOk, TopOk, AlignUp;
    TopFacts(live, chunks, base, next, e, align);
    PowerOf(chunks, align);
    AlignUpRounds(next, align);
    forall a | next <= a < limit && (next + align > WORD || a < AlignUp(next, align)) ensures a % align != 0 {
      LeastMultiple(next, align, a);
    }
  }

  /** Rounding up skips no multiple. */
  lemma LeastMultiple(p: nat, align: nat, a: nat)
    requires IsPow2(align) && p < WORD && p <= a < WORD && 0 < align < WORD
    requires p + align > WORD || a < AlignUp(p, align)
    ensures a % align != 0
  {
    hide IsPow2, AlignUp;
    AlignUpRounds(p, align);
    ModThroughWord(0, align);
    if a % align == 0 {
      if p + align > WORD { MultiplesApart(a, WORD, align); } else { MultiplesApart(a, AlignUp(p, align), align); }
    }
  }

  lemma MultiplesApart(x: nat, y: nat, a: nat)
    requires a > 0 && x < y && x % a == 0 && y % a == 0
    ensures y - x >= a
  {
    var p, q := x / a, y / a;
    assert x == a * p && y == a * q;
    assert a * (q - p) == a * q - a * p;
    if q - p >= 1 { MulAtLeast(a, q - p); } else { MulAtLeast(a, 1 - (q - p)); }
  }

  /** Objects may begin at the least aligned address after a chunk's header. */
  lemma FirstLeast(c: Chunk, align: nat, a: nat)
    requires ChunkOk(c, align) && IsPow2(align)
    ensures 0 < align < WORD && c.addr + 16 <= First(c, align) && First(c, align) % align == 0
    ensures c.addr + 16 <= a < First(c, align) ==> a % align != 0
  {
    hide IsPow2, AlignUp;
    FirstInside(c, align);
    if c.addr + HEADER <= a < First(c, align) { LeastMultiple(c.addr + HEADER, align, a); }
  }

  lemma DefaultSizeIs()
    ensures DefaultSize() == 4064
  {}

  lemma PowerOf(chunks: seq<Chunk>, align: nat)
    requires ChunksOk(chunks, align)
    ensures IsPow2(align)
  {}

  lemma EmptyRead(mem: Memory, a: nat)
    ensures Read(mem, a, 0) == []
  {}

  lemma HonestAnswer(alloc: Allocator, tick: nat, held: seq<Chunk>, size: nat)
    requires Honest(alloc) && alloc(tick, held, size).Some?
    ensures Fits(alloc(tick, held, size).value, held, size)
  {}

  lemma TopFacts(live: seq<Object>, chunks: seq<Chunk>, base: nat, next: nat, e: bool, align: nat)
    requires ChunksOk(chunks, align) && 0 < align < WORD && TopOk(live, chunks, base, next, e, align)
    ensures chunks != []
    ensures
      var c := chunks[|chunks| - 1];
      ChunkOk(c, align) && c.addr + HEADER <= First(c, align) <= base <= next <= c.limit
  {
    FirstInside(chunks[|chunks| - 1], align);
  }

  /** The test by which obstack_grow0 skips `_obstack_newchunk`. */
  predicate SkipsNewChunk(room: nat, length: nat) {
    !(room < (length + 1) % WORD)
  }

  /** The length plus one is computed in size_t: skipping implies room for the
      bytes and the terminator exactly when the length is not SIZE_MAX. */
  lemma Grow0TestSound(length: nat)
    requires length < WORD
    ensures (forall room: nat :: SkipsNewChunk(room, length) ==> room >= length + 1) <==> length + 1 < WORD
  {
    if length + 1 == WORD { assert SkipsNewChunk(0, length); }
  }

  // ----- a client that only keeps the addresses it was given

  datatype Op =
    | Append(bytes: seq<Byte>)
    | Append0(bytes: seq<Byte>)
    | Reserve(bytes: seq<Byte>)    // obstack_blank, then the client stores bytes there
    | FinishObject
    | Undo(k: nat)

  /** Call number `tick` of chunkfun, if it comes to that, lets h do op. */
  predicate Possible(h: Obstack, tick: nat, op: Op)
    reads h
  {
    match op
    case Append(bytes) => h.HasRoom(tick, |bytes|)
    case Append0(bytes) => h.HasRoom(tick, |bytes| + 1)
    case Reserve(bytes) => h.HasRoom(tick, |bytes|)
    case FinishObject => true
    case Undo(_) => true
  }

  predicate OpOk(op: Op) {
    op.FinishObject? || op.Undo? || |op.bytes| + 1 < WORD
  }

  /** What the client built: the finished objects' bytes, and the unfinished object's. */
  datatype Contents = Contents(finished: seq<seq<Byte>>, growing: seq<Byte>)

  function Apply(c: Contents, op: Op): Contents {
    match op
    case Append(bytes) => c.(growing := c.growing + bytes)
    case Append0(bytes) => c.(growing := c.growing + bytes + [0])
    case Reserve(bytes) => c.(growing := c.growing + bytes)
    case FinishObject => Contents(c.finished + [c.growing], [])
    case Undo(k) => if k < |c.finished| then Contents(c.finished[..k], []) else c
  }

  function Exec(ops: seq<Op>): Contents {
    if ops == [] then Contents([], []) else Apply(Exec(ops[..|ops| - 1]), ops[|ops| - 1])
  }

  lemma ExecNext(ops: seq<Op>, n: nat)
    requires n < |ops|
    ensures Exec(ops[..n + 1]) == Apply(Exec(ops[..n]), ops[n])
  {
    assert ops[..n + 1][..n] == ops[..n];
  }

  /** The live objects are the client's, at the addresses the client recorded. */
  ghost predicate Agrees(live: seq<Object>, addrs: seq<nat>, finished: seq<seq<Byte>>) {
    |live| == |addrs| == |finished| &&
    forall j :: 0 <= j < |live| ==> live[j].addr == addrs[j] && live[j].bytes == finished[j]
  }

  /** One operation of the client. */
  method PlayOne(h: Obstack, op: Op, addrs0: seq<nat>, ghost c: Contents) returns (addrs: seq<nat>, ok: bool)
    requires h.Valid() && h.Growing() == c.growing && Agrees(h.live, addrs0, c.finished)
    requires OpOk(op)
    modifies h
    ensures h.Valid()
    ensures
      var c' := if ok then Apply(c, op) else c;
      h.Growing() == c'.growing && Agrees(h.live, addrs, c'.finished)
    ensures ok <==> old(Possible(h, h.calls, op))
    ensures !ok ==> !Possible(h, old(h.calls), op) && old(h.calls) <= h.calls <= old(h.calls) + 1
  {
    hide Honest, IsPow2, ShapeOk, Obstack.HasRoom, Read, Accounted;
    addrs, ok := addrs0, true;
    match op {
      case Append(bytes) => ok := h.Grow(bytes);
      case Append0(bytes) => ok := h.Grow0(bytes);
      case Reserve(bytes) =>
        ok := h.Blank(|bytes|);
        if ok {
          ghost var space := h.Growing();
          h.Fill(bytes);
          assert space[..|space| - |bytes|] == c.growing;
        } else {
          assert h.Growing() == c.growing;
        }
      case FinishObject =>
        var a := h.Finish();
        addrs := addrs + [a];
      case Undo(k) =>
        if k < |addrs| {
          h.Free(addrs[k], k);
          addrs := addrs[..k];
        }
    }
  }

  /** Every sequence of operations, however many chunks come and go: at the
      address returned for each object not undone, memory holds exactly the
      bytes appended to it. `done` is short of all operations only when the next
      one needed a chunk and the size wrapped or chunkfun refused it. */
  method Play(h: Obstack, ops: seq<Op>) returns (addrs: seq<nat>, done: nat)
    requires h.Valid() && h.live == [] && h.Growing() == []
    requires forall i :: 0 <= i < |ops| ==> OpOk(ops[i])
    modifies h
    ensures h.Valid() && done <= |ops|
    ensures
      var c := Exec(ops[..done]);
      && |addrs| == |c.finished| && h.Growing() == c.growing
      && forall j :: 0 <= j < |addrs| ==>
           Read(h.mem, addrs[j], |c.finished[j]|) == c.finished[j] && (c.finished[j] != [] ==> addrs[j] % h.align == 0)
    ensures done < |ops| ==> exists tick: nat :: h.calls - 1 <= tick <= h.calls && !Possible(h, tick, ops[done])
  {
    hide Honest, IsPow2, ChunksOk, LiveOk, TopOk, Read, Accounted, Apply;
    addrs, done := [], 0;
    ghost var c := Contents([], []);
    while done < |ops|
      modifies h
      invariant 0 <= done <= |ops| && h.Valid()
      invariant c == Exec(ops[..done]) && h.Growing() == c.growing && Agrees(h.live, addrs, c.finished)
    {
      ExecNext(ops, done);
      var ok;
      addrs, ok := PlayOne(h, ops[done], addrs, c);
      if !ok { break; }
      c := Apply(c, ops[done]);
      done := done + 1;
    }
    LiveHolds(h.live, h.chunks, h.mem, h.align);
  }

  lemma LiveHolds(live: seq<Object>, chunks: seq<Chunk>, mem: Memory, align: nat)
    requires 0 < align < WORD && LiveOk(live, chunks, mem, align)
    ensures forall j :: 0 <= j < |live| ==>
      Read(mem, live[j].addr, |live[j].bytes|) == live[j].bytes && (live[j].bytes != [] ==> live[j].addr % align == 0)
  {
    forall j | 0 <= j < |live|
      ensures Read(mem, live[j].addr, |live[j].bytes|) == live[j].bytes
      ensures live[j].bytes != [] ==> live[j].addr % align == 0
    {
      assert ObjectOk(live[j], chunks, mem, align);
    }
  }
}
