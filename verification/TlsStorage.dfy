/** Storage for TLS of libraries loaded at run time: the DTV rows and per-thread
    copies `load_library` carves out of the calloc block of a new DSO, and their
    installation into every thread by `install_new_tls`. */
module TlsStorage {
  import opened Bits
  import opened ByteMemory
  import opened TlsLayout

  /** The calloc block of a DSO with TLS: its address, the offset of `buf`,
      sizeof(struct dso), the length of the name, the number of threads, and
      tls_cnt before this DSO was counted. */
  datatype Block = Block(addr: nat, bufOff: nat, dsoSize: nat, nameLen: nat, threads: nat, cnt: nat, tls: Module)

  const SSIZE_MAX: nat := 0x7fff_ffff_ffff_ffff
  /** calloc refuses requests of this size or more. */
  const CALLOC_MAX: nat := 0x8000_0000_0000_0000 - 4096

  /** What one thread may need: a copy with padding, and a DTV row. */
  function PerThread(b: Block): nat {
    b.tls.size + b.tls.align + 8 * (b.cnt + 3)
  }

  /** per_th, the same sum in a size_t. */
  function PerTh(b: Block): nat {
    Wrap(PerThread(b))
  }

  function Product(n: nat, w: nat): nat {
    n * w
  }

  function AllocSize(b: Block): nat {
    b.dsoSize + b.nameLen + 1 + Product(b.threads, PerTh(b))
  }

  /** What the size check leads to: a division by zero, a request that cannot
      be met, or one for so many bytes. */
  datatype Request = DividesByZero | TooMany | Bytes(size: nat)

  function RequestOf(b: Block): Request {
    if PerTh(b) == 0 then DividesByZero
    else if b.threads > SSIZE_MAX / PerTh(b) then TooMany
    else Bytes(AllocSize(b))
  }

  /** The check by division lets exactly the products through that SSIZE_MAX bounds. */
  lemma RequestExact(b: Block)
    ensures RequestOf(b).Bytes? <==> PerTh(b) > 0 && Product(b.threads, PerTh(b)) <= SSIZE_MAX
    ensures RequestOf(b).DividesByZero? <==> PerTh(b) == 0
  {
    hide PerTh;
    var w := PerTh(b);
    if w > 0 {
      var q := SSIZE_MAX / w;
      assert SSIZE_MAX == w * q + SSIZE_MAX % w;
      if b.threads <= q {
        MulMono(b.threads, q, w);
      } else {
        MulMono(q + 1, b.threads, w);
        assert (q + 1) * w == q * w + w;
      }
    }
  }

  lemma MulMono(x: nat, y: nat, w: nat)
    requires x <= y
    ensures x * w <= y * w
  {
    assert y * w == x * w + (y - x) * w;
    assert (y - x) * w >= 0;
  }

  /** calloc has granted the request; tls_cnt counts modules that are in memory. */
  ghost predicate Granted(b: Block) {
    && ModuleOk(b.tls) && b.threads >= 1 && b.bufOff <= b.dsoSize && 8 * (b.cnt + 3) < 0x1000_0000_0000_0000
    && RequestOf(b).Bytes? && AllocSize(b) < CALLOC_MAX && b.addr + AllocSize(b) < WORD
  }

  /** The block is as large as it needs to be: per_th did not wrap. */
  ghost predicate BlockOk(b: Block) {
    Granted(b) && PerThread(b) < WORD
  }

  lemma NoWrap(b: Block)
    requires PerThread(b) < WORD
    ensures PerTh(b) == PerThread(b)
  {
    hide PerThread, Wrap;
    WrapSmall(PerThread(b));
  }

  /** The address of the name's terminator. */
  function NameEnd(b: Block): nat {
    b.addr + b.bufOff + b.nameLen
  }

  /** -sizeof(size_t) & (name + strlen(name) + sizeof(size_t)) */
  function NewDtv(b: Block): nat {
    And(Neg(8), (NameEnd(b) + 8) % WORD)
  }

  /** A row has one slot more than the tls_cnt that includes this DSO. */
  function RowSize(b: Block): nat {
    8 * (b.cnt + 2)
  }

  function Row(b: Block, j: nat): nat {
    NewDtv(b) + Product(j, RowSize(b))
  }

  function NewTls(b: Block): nat {
    NewDtv(b) + Product(b.threads, RowSize(b))
  }

  /** Where thread j's copy may begin. */
  function CopySpace(b: Block, j: nat): nat {
    NewTls(b) + Product(j, b.tls.size + b.tls.align)
  }

  /** Thread j's copy: moved up to the residue of the image. */
  function Copy(b: Block, j: nat): nat
    requires ModuleOk(b.tls)
  {
    Pow2Range(b.tls.align);
    CopySpace(b, j) + And(Wrap(b.tls.image - CopySpace(b, j)), b.tls.align - 1)
  }

  lemma NewDtvOk(b: Block)
    requires NameEnd(b) + 8 < WORD
    ensures NameEnd(b) < NewDtv(b) <= NameEnd(b) + 8 && NewDtv(b) % 8 == 0
  {
    EightIsPower();
    hide And, IsPow2, Product;
    var x := NameEnd(b) + 8;
    RoundDown(x, 8);
    AndComm(x, Neg(8));
    ModBelow(x, 8);
  }

  lemma EightIsPower()
    ensures IsPow2(8)
  {
    assert Pow2(3) == 8;
  }

  lemma NameFits(b: Block)
    requires BlockOk(b)
    ensures NameEnd(b) + 8 < WORD
  {
    hide Product, Wrap, IsPow2, RequestOf;
    NoWrap(b);
    ProductAtLeast(b.threads, PerTh(b));
  }

  lemma ProductAtLeast(n: nat, w: nat)
    ensures n >= 1 ==> Product(n, w) >= w
  {
    if n >= 1 { assert n * w == (n - 1) * w + w; assert (n - 1) * w >= 0; }
  }

  /** Row i ends before row j begins, and every row before the copies. */
  lemma StrideApart(i: nat, j: nat, w: nat)
    requires i < j
    ensures Product(i, w) + w <= Product(j, w)
  {
    assert j * w == i * w + (j - i) * w;
    ProductAtLeast(j - i, w);
  }

  lemma CopyOk(b: Block, j: nat)
    requires ModuleOk(b.tls)
    ensures b.tls.align > 0 && CopySpace(b, j) <= Copy(b, j) < CopySpace(b, j) + b.tls.align
    ensures Divisible(Copy(b, j) - b.tls.image, b.tls.align)
  {
    hide And, IsPow2, CopySpace, Divisible, Wrap;
    var m, a := CopySpace(b, j), b.tls.align;
    var w := Wrap(b.tls.image - m);
    MaskDivisible(w, a);
    WordDivisible(b.tls.image - m, a);
    var pad := And(w, a - 1);
    SumDivisible(b.tls.image - m - w, w - pad, a);
    var d := b.tls.image - m - w + (w - pad);
    SumDivisible(d, d, a);
    assert 0 - d == m + pad - b.tls.image;
  }

  /** Thread j's row lies after the name and before the copies, and its copy
      lies behind the rows and inside the block. */
  predicate ThreadFits(b: Block, j: nat)
    requires ModuleOk(b.tls)
  {
    && NameEnd(b) < Row(b, j) && Row(b, j) + RowSize(b) <= NewTls(b)
    && NewTls(b) <= Copy(b, j) && Copy(b, j) + b.tls.size <= b.addr + AllocSize(b)
  }

  /** In a granted block all rows and copies fit if and only if per_th did not wrap. */
  lemma CarveFitsIff(b: Block)
    requires Granted(b)
    ensures (forall j: nat :: j < b.threads ==> ThreadFits(b, j)) <==> PerThread(b) < WORD
  {
    hide ThreadFits, PerThread, Granted;
    GrantedThreads(b);
    if PerThread(b) < WORD {
      forall j: nat | j < b.threads ensures ThreadFits(b, j) { CarveFits(b, j); }
    } else {
      WrapOverruns(b);
      assert !ThreadFits(b, 0);
    }
  }

  lemma GrantedThreads(b: Block)
    requires Granted(b)
    ensures b.threads >= 1 && ModuleOk(b.tls)
  {}

  /** If per_th wrapped, already the first thread's row or copy leaves the block. */
  lemma WrapOverruns(b: Block)
    requires Granted(b) && PerThread(b) >= WORD
    ensures !ThreadFits(b, 0)
  {
    hide Copy, NewDtv, IsPow2, Wrap, Product, RequestOf;
    Pow2Range(b.tls.align);
    AlignSmall(b.tls.align);
    NoRows(RowSize(b), b.tls.size + b.tls.align);
    if NameEnd(b) + 8 >= WORD {
      NewDtvWraps(b);
    } else {
      NewDtvOk(b);
      CopyOk(b, 0);
      ProductAtLeast(b.threads, RowSize(b));
    }
  }

  lemma AlignSmall(a: nat)
    requires IsPow2(a)
    ensures a <= OBJECT_MAX
  {
    hide IsPow2;
    if a > OBJECT_MAX / 2 { LargestPower(a); }
  }

  lemma NoRows(w: nat, c: nat)
    ensures Product(0, w) == 0 && Product(0, c) == 0
  {}

  lemma NewDtvWraps(b: Block)
    requires WORD <= NameEnd(b) + 8 < WORD + 8
    ensures NewDtv(b) < 8
  {
    hide And, Neg;
    AndAtMost(Neg(8), (NameEnd(b) + 8) % WORD);
  }

  /** An input the size check lets through: per_th is 8, less than one row. */
  lemma SmallRequest()
    ensures
      var b := Block(4096, 600, 600, 7, 1, 0, Module(65536, WORD - 32, 16));
      Granted(b) && PerTh(b) == 8 < RowSize(b) && !ThreadFits(b, 0)
    ensures RequestOf(Block(4096, 600, 600, 7, 1, 0, Module(65536, WORD - 40, 16))) == DividesByZero
  {
    assert IsPow2(16) by { assert Pow2(4) == 16; }
    hide IsPow2, And;
    var b := Block(4096, 600, 600, 7, 1, 0, Module(65536, WORD - 32, 16));
    WrapOverruns(b);
  }

  /** All rows and copies lie inside the block, after the name. */
  lemma CarveFits(b: Block, j: nat)
    requires BlockOk(b) && j < b.threads
    ensures ThreadFits(b, j)
  {
    hide Copy, NewDtv, RowSize, Row, NewTls, CopySpace, AllocSize, Product, IsPow2, RequestOf;
    NameFits(b);
    NewDtvOk(b);
    CopyOk(b, j);
    RowFits(b, j);
    SpaceFits(b, j);
  }

  lemma RowFits(b: Block, j: nat)
    requires j < b.threads
    ensures NewDtv(b) <= Row(b, j) && Row(b, j) + RowSize(b) <= NewTls(b)
  {
    hide NewDtv, RowSize, Product;
    StrideApart(j, b.threads, RowSize(b));
  }

  lemma SpaceFits(b: Block, j: nat)
    requires BlockOk(b) && j < b.threads
    ensures NewTls(b) <= CopySpace(b, j)
    ensures CopySpace(b, j) + b.tls.size + b.tls.align <= b.addr + AllocSize(b)
  {
    hide NewDtv, RowSize, PerThread, PerTh, Product, IsPow2, RequestOf;
    NoWrap(b);
    NameFits(b);
    NewDtvOk(b);
    StrideApart(j, b.threads, b.tls.size + b.tls.align);
    AllThreads(b);
  }

  lemma AllThreads(b: Block)
    ensures Product(b.threads, PerThread(b)) ==
            Product(b.threads, RowSize(b)) + Product(b.threads, b.tls.size + b.tls.align) + 8 * b.threads
  {
    Distribute(b.threads, RowSize(b), b.tls.size + b.tls.align, 8);
    assert PerThread(b) == RowSize(b) + (b.tls.size + b.tls.align) + 8;
  }

  lemma Distribute(n: nat, x: nat, y: nat, z: nat)
    ensures n * (x + y + z) == n * x + n * y + n * z
  {}

  /** No two threads share a row or a copy. */
  lemma CarveApart(b: Block, i: nat, j: nat)
    requires ModuleOk(b.tls) && i < j
    ensures Row(b, i) + RowSize(b) <= Row(b, j)
    ensures Copy(b, i) + b.tls.size <= Copy(b, j)
  {
    hide Copy, NewDtv, Product;
    CopyOk(b, i);
    CopyOk(b, j);
    StrideApart(i, j, RowSize(b));
    StrideApart(i, j, b.tls.size + b.tls.align);
  }

  // ----- installing new modules into every thread

  /** A DSO of the chain: tls_id is 0 without TLS; `len` bytes of the image are initialised. */
  datatype Library = Library(tlsId: nat, block: Block, len: nat)

  /** What `install_new_tls` finds: the chain, the DSO that holds tls_tail, the
      addresses of the threads' vectors (the caller's first), the new tls_cnt,
      DTP_OFFSET, and memory. */
  datatype Upgrade = Upgrade(chain: seq<Library>, provider: Library, dtvs: seq<nat>, cnt: nat, dtp: nat, before: Memory)

  /** dtv[0] of the calling thread. */
  function OldCount(u: Upgrade): nat
    requires u.dtvs != []
  {
    ReadWord(u.before, u.dtvs[0])
  }

  /** The chain holds exactly the modules old + 1 .. cnt as new ones, in that
      order, at the positions `pos`: ids are handed out in load order. */
  ghost predicate NewModules(chain: seq<Library>, old_: nat, cnt: nat, pos: seq<nat>) {
    && old_ < cnt && |pos| == cnt - old_
    && (forall k :: 0 <= k < |pos| ==> pos[k] < |chain| && chain[pos[k]].tlsId == old_ + 1 + k)
    && (forall i :: 0 <= i < |chain| && chain[i].tlsId > old_ ==>
          chain[i].tlsId <= cnt && pos[chain[i].tlsId - old_ - 1] == i)
    && (forall k, m :: 0 <= k < m < |pos| ==> pos[k] < pos[m])
  }

  predicate Outside(a: nat, n: nat, b: Block) {
    a + n <= b.addr || b.addr + AllocSize(b) <= a
  }

  /** A new module's block was granted when tls_cnt was one less than its id,
      for at least the current threads. */
  ghost predicate LibraryOk(d: Library, threads: nat) {
    && BlockOk(d.block) && d.block.cnt + 1 == d.tlsId
    && threads <= d.block.threads && d.len <= d.block.tls.size
  }

  /** The blocks of the new modules lie apart from each other, from the images,
      and from the vectors in use. */
  ghost predicate StorageOk(u: Upgrade, old_: nat) {
    && (forall i :: 0 <= i < |u.chain| && u.chain[i].tlsId > old_ ==>
          && LibraryOk(u.chain[i], |u.dtvs|)
          && forall t :: 0 <= t < |u.dtvs| ==> Outside(u.dtvs[t], 8 * (old_ + 1), u.chain[i].block))
    && (forall i, k :: 0 <= i < |u.chain| && 0 <= k < |u.chain| &&
                       u.chain[i].tlsId > old_ && u.chain[k].tlsId > old_ ==>
          && Outside(u.chain[i].block.tls.image, u.chain[i].len, u.chain[k].block)
          && (i != k ==> Outside(u.chain[i].block.addr, AllocSize(u.chain[i].block), u.chain[k].block)))
  }

  ghost predicate UpgradeOk(u: Upgrade, pos: seq<nat>) {
    && u.dtvs != []
    && NewModules(u.chain, OldCount(u), u.cnt, pos) && StorageOk(u, OldCount(u))
    && u.provider == u.chain[pos[|pos| - 1]]
  }

  /** One thread without TLS so far, and one new module. */
  lemma SmallUpgrade()
    ensures
      var d := Library(1, Block(4096, 600, 600, 7, 1, 0, Module(0, 8, 8)), 8);
      UpgradeOk(Upgrade([d], d, [256], 1, 0, (a: nat) => 0), [0])
  {
    var mem: Memory := (a: nat) => 0;
    var d := Library(1, Block(4096, 600, 600, 7, 1, 0, Module(0, 8, 8)), 8);
    var u := Upgrade([d], d, [256], 1, 0, mem);
    NoCount(mem);
    EightIsPower();
    hide IsPow2, ReadWord;
    assert PerThread(d.block) == 40;
    assert LibraryOk(d, 1);
    assert StorageOk(u, 0);
  }

  lemma NoCount(mem: Memory)
    requires forall a: nat :: mem(a) == 0
    ensures ReadWord(mem, 256) == 0
  {
    ZeroValue(Read(mem, 256, 8));
  }

  lemma {:induction false} ZeroValue(bytes: seq<Byte>)
    requires forall i :: 0 <= i < |bytes| ==> bytes[i] == 0
    ensures Value(bytes) == 0
  {
    if bytes != [] { ZeroValue(bytes[1..]); }
  }

  /** Module number k. */
  ghost function Lib(u: Upgrade, pos: seq<nat>, k: nat): Library
    requires UpgradeOk(u, pos) && OldCount(u) < k <= u.cnt
  {
    u.chain[pos[k - OldCount(u) - 1]]
  }

  lemma LibFacts(u: Upgrade, pos: seq<nat>, k: nat)
    requires UpgradeOk(u, pos) && OldCount(u) < k <= u.cnt
    ensures LibraryOk(Lib(u, pos, k), |u.dtvs|) && Lib(u, pos, k).tlsId == k && ModuleOk(Lib(u, pos, k).block.tls)
    ensures Lib(u, pos, u.cnt) == u.provider
    ensures forall t :: 0 <= t < |u.dtvs| ==> Outside(u.dtvs[t], 8 * (OldCount(u) + 1), Lib(u, pos, k).block)
  {
    hide AllocSize, IsPow2, ReadWord;
  }

  lemma LibsApart(u: Upgrade, pos: seq<nat>, k: nat, m: nat)
    requires UpgradeOk(u, pos) && OldCount(u) < k <= u.cnt && OldCount(u) < m <= u.cnt
    ensures
      var d, e := Lib(u, pos, k), Lib(u, pos, m);
      && Outside(d.block.tls.image, d.len, e.block)
      && (k != m ==> Outside(d.block.addr, AllocSize(d.block), e.block))
  {
    hide AllocSize, BlockOk, ReadWord;
    LibFacts(u, pos, k);
    LibFacts(u, pos, m);
  }

  /** newdtv[j][k], a row being tls_cnt + 1 words at the provider's new_dtv. */
  function Slot(u: Upgrade, j: nat, k: nat): nat {
    NewDtv(u.provider.block) + Product(j, 8 * (u.cnt + 1)) + 8 * k
  }

  /** The slots are the rows that were carved out of the provider's block. */
  lemma SlotInRow(u: Upgrade, pos: seq<nat>, j: nat, k: nat)
    requires UpgradeOk(u, pos) && j < |u.dtvs| && k <= u.cnt
    ensures BlockOk(u.provider.block) && j < u.provider.block.threads
    ensures Slot(u, j, k) == Row(u.provider.block, j) + 8 * k && 8 * k + 8 <= RowSize(u.provider.block)
    ensures u.provider.block.addr <= Slot(u, j, k) && Slot(u, j, k) + 8 <= NewTls(u.provider.block)
    ensures Slot(u, j, 0) + 8 * (u.cnt + 1) <= NewTls(u.provider.block)
  {
    hide NewDtv, NewTls, AllocSize, BlockOk, UpgradeOk, PerThread, ReadWord, Product;
    OldBelow(u, pos);
    LibFacts(u, pos, u.cnt);
    CarveFits(u.provider.block, j);
    NameInside(u.provider.block);
  }

  lemma OldBelow(u: Upgrade, pos: seq<nat>)
    requires UpgradeOk(u, pos)
    ensures u.dtvs != [] && OldCount(u) < u.cnt
  {}

  lemma SlotsApart(u: Upgrade, pos: seq<nat>, j: nat, k: nat, m: nat, n: nat)
    requires UpgradeOk(u, pos) && j < |u.dtvs| && m < |u.dtvs| && k <= u.cnt && n <= u.cnt && (j != m || k != n)
    ensures Slot(u, j, k) + 8 <= Slot(u, m, n) || Slot(u, m, n) + 8 <= Slot(u, j, k)
    ensures j != m ==> Slot(u, j, k) + 8 <= Slot(u, m, 0) || Slot(u, m, 0) + 8 * (u.cnt + 1) <= Slot(u, j, k)
  {
    hide NewDtv, UpgradeOk, Product;
    var w := 8 * (u.cnt + 1);
    if j < m { StrideApart(j, m, w); } else if m < j { StrideApart(m, j, w); }
  }

  /** Slots, copies, images and the old vectors do not meet. */
  lemma SlotMeetsNothing(u: Upgrade, pos: seq<nat>, j: nat, k: nat, n: nat, m: nat)
    requires UpgradeOk(u, pos) && j < |u.dtvs| && k <= u.cnt && OldCount(u) < n <= u.cnt && m < |u.dtvs|
    ensures
      var d := Lib(u, pos, n);
      && ModuleOk(d.block.tls) && d.len <= d.block.tls.size
      && (Slot(u, j, k) + 8 <= Copy(d.block, m) || Copy(d.block, m) + d.len <= Slot(u, j, k))
      && (Slot(u, j, 0) + 8 * (u.cnt + 1) <= Copy(d.block, m) || Copy(d.block, m) + d.len <= Slot(u, j, 0))
      && (Slot(u, j, k) + 8 <= d.block.tls.image || d.block.tls.image + d.len <= Slot(u, j, k))
      && (Slot(u, j, 0) + 8 * (u.cnt + 1) <= d.block.tls.image || d.block.tls.image + d.len <= Slot(u, j, 0))
  {
    hide Copy, NewDtv, NewTls, AllocSize, BlockOk, Slot, UpgradeOk, ReadWord;
    LibFacts(u, pos, n);
    LibFacts(u, pos, u.cnt);
    LibsApart(u, pos, n, u.cnt);
    SlotInRow(u, pos, j, k);
    SlotInRow(u, pos, j, 0);
    CopyInside(u, pos, n, m);
    CopyInside(u, pos, u.cnt, m);
  }

  lemma CopyInside(u: Upgrade, pos: seq<nat>, n: nat, m: nat)
    requires UpgradeOk(u, pos) && OldCount(u) < n <= u.cnt && m < |u.dtvs|
    ensures
      var d := Lib(u, pos, n);
      && ModuleOk(d.block.tls) && d.block.addr <= NewTls(d.block) <= Copy(d.block, m)
      && Copy(d.block, m) + d.len <= d.block.addr + AllocSize(d.block)
  {
    hide Copy, NewDtv, NewTls, AllocSize, BlockOk, UpgradeOk, ReadWord;
    LibFacts(u, pos, n);
    CarveFits(Lib(u, pos, n).block, m);
    NameInside(Lib(u, pos, n).block);
  }

  lemma CopiesApart(u: Upgrade, pos: seq<nat>, k: nat, j: nat, n: nat, m: nat)
    requires UpgradeOk(u, pos) && OldCount(u) < k <= u.cnt && OldCount(u) < n <= u.cnt
    requires j < |u.dtvs| && m < |u.dtvs| && (j != m || k != n)
    ensures
      var d, e := Lib(u, pos, k), Lib(u, pos, n);
      && ModuleOk(d.block.tls) && ModuleOk(e.block.tls)
      && (Copy(d.block, j) + d.len <= Copy(e.block, m) || Copy(e.block, m) + e.len <= Copy(d.block, j))
  {
    hide Copy, NewDtv, NewTls, AllocSize, BlockOk, UpgradeOk, ReadWord;
    LibFacts(u, pos, k);
    LibFacts(u, pos, n);
    CopyInside(u, pos, k, j);
    CopyInside(u, pos, n, m);
    if k != n {
      LibsApart(u, pos, k, n);
    } else if j < m {
      CarveApart(Lib(u, pos, k).block, j, m);
    } else {
      CarveApart(Lib(u, pos, k).block, m, j);
    }
  }

  // ----- what a finished vector holds

  /** Thread j's copy of the module of d holds the initial image. */
  ghost predicate Initialised(d: Library, j: nat, mem: Memory, mem0: Memory) {
    ModuleOk(d.block.tls) && Read(mem, Copy(d.block, j), d.len) == Read(mem0, d.block.tls.image, d.len)
  }

  /** The word slot k of thread j must hold: the new count, the thread's old
      entry, or the address of the thread's own copy of module k. */
  ghost function Entry(u: Upgrade, pos: seq<nat>, j: nat, k: nat): nat
    requires UpgradeOk(u, pos) && j < |u.dtvs| && k <= u.cnt
  {
    if k == 0 then u.cnt
    else if k <= OldCount(u) then ReadWord(u.before, u.dtvs[j] + 8 * k)
    else LibFacts(u, pos, k); Wrap(Copy(Lib(u, pos, k).block, j) + u.dtp)
  }

  /** Slot k of thread j is right, and so is the copy it points at. */
  ghost predicate Cell(u: Upgrade, pos: seq<nat>, mem: Memory, j: nat, k: nat)
    requires UpgradeOk(u, pos) && j < |u.dtvs| && k <= u.cnt
  {
    && ReadWord(mem, Slot(u, j, k)) == Entry(u, pos, j, k)
    && (k > OldCount(u) ==> Initialised(Lib(u, pos, k), j, mem, u.before))
  }

  /** No image of a new module has been written to. */
  ghost predicate ImagesKept(u: Upgrade, pos: seq<nat>, mem: Memory)
    requires UpgradeOk(u, pos)
  {
    forall k :: OldCount(u) < k <= u.cnt ==> ImageKept(Lib(u, pos, k), mem, u.before)
  }

  ghost predicate ImageKept(d: Library, mem: Memory, mem0: Memory) {
    Read(mem, d.block.tls.image, d.len) == Read(mem0, d.block.tls.image, d.len)
  }

  /** Address a is in what was carved out of b, behind the name. */
  predicate Carved(a: nat, b: Block) {
    NewDtv(b) <= a < b.addr + AllocSize(b)
  }

  /** Address a is in no new module's carved storage. */
  ghost predicate Foreign(u: Upgrade, pos: seq<nat>, a: nat)
    requires UpgradeOk(u, pos)
  {
    forall k :: OldCount(u) < k <= u.cnt ==> !Carved(a, Lib(u, pos, k).block)
  }

  /** Nothing but the new modules' carved storage has been written to. */
  ghost predicate RestKept(u: Upgrade, pos: seq<nat>, mem: Memory)
    requires UpgradeOk(u, pos)
  {
    forall a: nat :: Foreign(u, pos, a) ==> mem(a) == u.before(a)
  }

  /** Modules up to n are in place for every thread, and module n + 1 for the
      first j threads. */
  ghost predicate Progress(u: Upgrade, pos: seq<nat>, mem: Memory, n: nat, j: nat)
    requires UpgradeOk(u, pos)
  {
    && ImagesKept(u, pos, mem) && RestKept(u, pos, mem)
    && forall m, k :: 0 <= m < |u.dtvs| && 0 <= k <= u.cnt && (k <= n || (k == n + 1 && m < j)) ==>
         Cell(u, pos, mem, m, k)
  }

  /** The vectors in use, and the first words of the first j rows. */
  ghost predicate RowsCopied(u: Upgrade, pos: seq<nat>, mem: Memory, j: nat)
    requires UpgradeOk(u, pos)
  {
    && ImagesKept(u, pos, mem) && RestKept(u, pos, mem)
    && (forall t :: 0 <= t < |u.dtvs| ==> VectorKept(u, mem, t))
    && forall m, k :: 0 <= m < j && m < |u.dtvs| && 0 <= k <= OldCount(u) && k <= u.cnt ==> Cell(u, pos, mem, m, k)
  }

  ghost predicate VectorKept(u: Upgrade, mem: Memory, t: nat)
    requires t < |u.dtvs|
  {
    Read(mem, u.dtvs[t], 8 * (OldCount(u) + 1)) == Read(u.before, u.dtvs[t], 8 * (OldCount(u) + 1))
  }

  // ----- every write keeps the rest

  /** A write inside a new module's carved storage. */
  lemma WriteKeepsRest(u: Upgrade, pos: seq<nat>, mem: Memory, k: nat, a: nat, bytes: seq<Byte>)
    requires UpgradeOk(u, pos) && OldCount(u) < k <= u.cnt && RestKept(u, pos, mem)
    requires
      var b := Lib(u, pos, k).block;
      NewDtv(b) <= a && a + |bytes| <= b.addr + AllocSize(b)
    ensures RestKept(u, pos, Write(mem, a, bytes))
  {
    hide UpgradeOk, ReadWord, AllocSize, NewDtv;
    forall x: nat | Foreign(u, pos, x) ensures Write(mem, a, bytes)(x) == u.before(x) {
      assert !Carved(x, Lib(u, pos, k).block);
    }
  }

  lemma CopyKeepsRest(u: Upgrade, pos: seq<nat>, mem: Memory, n: nat, j: nat)
    requires UpgradeOk(u, pos) && OldCount(u) < n <= u.cnt && j < |u.dtvs| && RestKept(u, pos, mem)
    ensures ModuleOk(Lib(u, pos, n).block.tls) && RestKept(u, pos, CopyImage(Lib(u, pos, n), j, mem))
  {
    hide UpgradeOk, ReadWord, AllocSize, NewDtv, Copy, RestKept, Read, Write, IsPow2, Product;
    CopyInside(u, pos, n, j);
    var d := Lib(u, pos, n);
    WriteKeepsRest(u, pos, mem, n, Copy(d.block, j), Read(mem, d.block.tls.image, d.len));
  }

  lemma SlotKeepsRest(u: Upgrade, pos: seq<nat>, mem: Memory, j: nat, n: nat, bytes: seq<Byte>)
    requires UpgradeOk(u, pos) && n <= u.cnt && j < |u.dtvs| && RestKept(u, pos, mem)
    requires |bytes| <= 8 || (n == 0 && |bytes| <= 8 * (u.cnt + 1))
    ensures RestKept(u, pos, Write(mem, Slot(u, j, n), bytes))
  {
    hide UpgradeOk, ReadWord, AllocSize, NewTls, Copy, NewDtv, RestKept, Read, Write, IsPow2;
    hide Row, RowSize, BlockOk, Product;
    OldBelow(u, pos);
    SlotInRow(u, pos, j, n);
    LibFacts(u, pos, u.cnt);
    CopyInside(u, pos, u.cnt, j);
    WriteKeepsRest(u, pos, mem, u.cnt, Slot(u, j, n), bytes);
  }

  /** memcpy(new, image, len) for thread j. */
  function CopyImage(d: Library, j: nat, mem: Memory): Memory
    requires ModuleOk(d.block.tls)
  {
    Write(mem, Copy(d.block, j), Read(mem, d.block.tls.image, d.len))
  }

  /** A copy disturbs no other slot or copy. */
  lemma CopyKeepsCell(u: Upgrade, pos: seq<nat>, mem: Memory, n: nat, j: nat, m: nat, k: nat)
    requires UpgradeOk(u, pos) && OldCount(u) < n <= u.cnt && j < |u.dtvs| && m < |u.dtvs| && k <= u.cnt
    requires Cell(u, pos, mem, m, k) && (m != j || k != n)
    ensures ModuleOk(Lib(u, pos, n).block.tls) && Cell(u, pos, CopyImage(Lib(u, pos, n), j, mem), m, k)
  {
    hide Copy, Slot, Read, Write, UpgradeOk, Entry, Value, IsPow2;
    var d := Lib(u, pos, n);
    SlotMeetsNothing(u, pos, m, k, n, j);
    var bytes := Read(mem, d.block.tls.image, d.len);
    ReadApart(mem, Copy(d.block, j), bytes, Slot(u, m, k), 8);
    if k > OldCount(u) {
      CopiesApart(u, pos, k, m, n, j);
      ReadApart(mem, Copy(d.block, j), bytes, Copy(Lib(u, pos, k).block, m), Lib(u, pos, k).len);
    }
  }

  lemma CopyKeepsImages(u: Upgrade, pos: seq<nat>, mem: Memory, n: nat, j: nat)
    requires UpgradeOk(u, pos) && OldCount(u) < n <= u.cnt && j < |u.dtvs| && ImagesKept(u, pos, mem)
    ensures ModuleOk(Lib(u, pos, n).block.tls) && ImagesKept(u, pos, CopyImage(Lib(u, pos, n), j, mem))
    ensures Initialised(Lib(u, pos, n), j, CopyImage(Lib(u, pos, n), j, mem), u.before)
  {
    hide Copy, Read, Write, UpgradeOk, NewTls, AllocSize, ReadWord, IsPow2;
    CopyInside(u, pos, n, j);
    var d := Lib(u, pos, n);
    var bytes := Read(mem, d.block.tls.image, d.len);
    ReadWritten(mem, Copy(d.block, j), bytes);
    assert ImageKept(d, mem, u.before);
    forall k | OldCount(u) < k <= u.cnt ensures ImageKept(Lib(u, pos, k), CopyImage(d, j, mem), u.before) {
      LibsApart(u, pos, k, n);
      assert ImageKept(Lib(u, pos, k), mem, u.before);
      ReadApart(mem, Copy(d.block, j), bytes, Lib(u, pos, k).block.tls.image, Lib(u, pos, k).len);
    }
  }

  /** Filling one slot disturbs no other slot and no copy. */
  lemma SlotKeepsCell(u: Upgrade, pos: seq<nat>, mem: Memory, j: nat, n: nat, v: nat, m: nat, k: nat)
    requires UpgradeOk(u, pos) && n <= u.cnt && j < |u.dtvs| && m < |u.dtvs| && k <= u.cnt
    requires Cell(u, pos, mem, m, k) && (m != j || k != n)
    ensures Cell(u, pos, WriteWord(mem, Slot(u, j, n), v), m, k)
  {
    hide Copy, Slot, Read, Write, UpgradeOk, Entry, Value, Digits, IsPow2;
    SlotsApart(u, pos, m, k, j, n);
    ReadApart(mem, Slot(u, j, n), Digits(v, 8), Slot(u, m, k), 8);
    if k > OldCount(u) {
      SlotMeetsNothing(u, pos, j, n, k, m);
      ReadApart(mem, Slot(u, j, n), Digits(v, 8), Copy(Lib(u, pos, k).block, m), Lib(u, pos, k).len);
    }
  }

  lemma SlotKeepsImages(u: Upgrade, pos: seq<nat>, mem: Memory, j: nat, n: nat, bytes: seq<Byte>)
    requires UpgradeOk(u, pos) && n <= u.cnt && j < |u.dtvs| && ImagesKept(u, pos, mem)
    requires |bytes| <= 8 || (n == 0 && |bytes| <= 8 * (u.cnt + 1))
    ensures ImagesKept(u, pos, Write(mem, Slot(u, j, n), bytes))
  {
    hide Copy, Slot, Read, Write, UpgradeOk, ReadWord, IsPow2;
    forall k | OldCount(u) < k <= u.cnt
      ensures ImageKept(Lib(u, pos, k), Write(mem, Slot(u, j, n), bytes), u.before)
    {
      SlotMeetsNothing(u, pos, j, n, k, j);
      assert ImageKept(Lib(u, pos, k), mem, u.before);
      ReadApart(mem, Slot(u, j, n), bytes, Lib(u, pos, k).block.tls.image, Lib(u, pos, k).len);
    }
  }

  /** The slot just filled. */
  lemma SlotFilled(u: Upgrade, pos: seq<nat>, mem: Memory, j: nat, n: nat)
    requires UpgradeOk(u, pos) && OldCount(u) < n <= u.cnt && j < |u.dtvs|
    requires Initialised(Lib(u, pos, n), j, mem, u.before)
    ensures ModuleOk(Lib(u, pos, n).block.tls)
    ensures Cell(u, pos, WriteWord(mem, Slot(u, j, n), Wrap(Copy(Lib(u, pos, n).block, j) + u.dtp)), j, n)
  {
    hide Copy, Slot, Read, Write, UpgradeOk, Value, Digits, IsPow2, Wrap;
    LibFacts(u, pos, n);
    var v := Wrap(Copy(Lib(u, pos, n).block, j) + u.dtp);
    SlotMeetsNothing(u, pos, j, n, n, j);
    WordWritten(mem, Slot(u, j, n), v);
    ReadApart(mem, Slot(u, j, n), Digits(v, 8), Copy(Lib(u, pos, n).block, j), Lib(u, pos, n).len);
  }

  /** One module for one thread: copy the image, then fill the slot. */
  function InstallOne(u: Upgrade, d: Library, j: nat, mem: Memory): Memory
    requires ModuleOk(d.block.tls)
  {
    WriteWord(CopyImage(d, j, mem), Slot(u, j, d.tlsId), Wrap(Copy(d.block, j) + u.dtp))
  }

  lemma InstallOneKeeps(u: Upgrade, pos: seq<nat>, mem: Memory, n: nat, j: nat)
    requires UpgradeOk(u, pos) && OldCount(u) <= n < u.cnt && j < |u.dtvs| && Progress(u, pos, mem, n, j)
    ensures ModuleOk(Lib(u, pos, n + 1).block.tls)
    ensures Progress(u, pos, InstallOne(u, Lib(u, pos, n + 1), j, mem), n, j + 1)
  {
    hide Copy, Slot, Read, Write, UpgradeOk, Cell, ImagesKept, RestKept, Initialised;
    hide IsPow2, Wrap, Digits, ReadWord, LibraryOk;
    LibFacts(u, pos, n + 1);
    var d := Lib(u, pos, n + 1);
    var v := Wrap(Copy(d.block, j) + u.dtp);
    var mem1 := CopyImage(d, j, mem);
    CopyKeepsImages(u, pos, mem, n + 1, j);
    SlotKeepsImages(u, pos, mem1, j, n + 1, Digits(v, 8));
    CopyKeepsRest(u, pos, mem, n + 1, j);
    SlotKeepsRest(u, pos, mem1, j, n + 1, Digits(v, 8));
    SlotFilled(u, pos, mem1, j, n + 1);
    forall m, k | 0 <= m < |u.dtvs| && 0 <= k <= u.cnt && (k <= n || (k == n + 1 && m < j + 1))
      ensures Cell(u, pos, InstallOne(u, d, j, mem), m, k)
    {
      if m != j || k != n + 1 {
        CopyKeepsCell(u, pos, mem, n + 1, j, m, k);
        SlotKeepsCell(u, pos, mem1, j, n + 1, v, m, k);
      }
    }
  }

  // ----- copying the old vectors

  /** The first loop's body for thread j: the old entries, then the new count. */
  function CopyRow(u: Upgrade, j: nat, mem: Memory): Memory
    requires j < |u.dtvs|
  {
    WriteWord(Write(mem, Slot(u, j, 0), Read(mem, u.dtvs[j], 8 * (OldCount(u) + 1))), Slot(u, j, 0), u.cnt)
  }

  lemma RowKeepsVector(u: Upgrade, pos: seq<nat>, mem: Memory, j: nat, bytes: seq<Byte>, t: nat)
    requires UpgradeOk(u, pos) && j < |u.dtvs| && t < |u.dtvs| && VectorKept(u, mem, t) && |bytes| <= 8 * (u.cnt + 1)
    ensures VectorKept(u, Write(mem, Slot(u, j, 0), bytes), t)
  {
    hide Copy, Slot, Read, Write, UpgradeOk, ReadWord, IsPow2, NewTls, AllocSize, Row, RowSize, BlockOk;
    OldBelow(u, pos);
    LibFacts(u, pos, u.cnt);
    SlotInRow(u, pos, j, 0);
    CopyInside(u, pos, u.cnt, j);
    ReadApart(mem, Slot(u, j, 0), bytes, u.dtvs[t], 8 * (OldCount(u) + 1));
  }

  /** Old entry k of thread j, in its row. */
  lemma EntryCopied(u: Upgrade, pos: seq<nat>, mem: Memory, j: nat, k: nat)
    requires UpgradeOk(u, pos) && j < |u.dtvs| && k <= OldCount(u) && VectorKept(u, mem, j)
    ensures k <= u.cnt && Cell(u, pos, CopyRow(u, j, mem), j, k)
  {
    hide Slot, Read, Write, UpgradeOk, Value, Digits;
    OldBelow(u, pos);
    CountIsWord(u, pos);
    var n := 8 * (OldCount(u) + 1);
    var bytes := Read(mem, u.dtvs[j], n);
    var mem1 := Write(mem, Slot(u, j, 0), bytes);
    if k == 0 {
      WordWritten(mem1, Slot(u, j, 0), u.cnt);
    } else {
      SlotsApart(u, pos, j, k, j, 0);
      SlotStep(u, j, k);
      ReadApart(mem1, Slot(u, j, 0), Digits(u.cnt, 8), Slot(u, j, k), 8);
      ReadInside(mem, Slot(u, j, 0), bytes, 8 * k, 8);
      ReadPart(u.before, u.dtvs[j], n, 8 * k, 8);
    }
  }

  lemma SlotStep(u: Upgrade, j: nat, k: nat)
    ensures Slot(u, j, k) == Slot(u, j, 0) + 8 * k
  {}

  lemma CountIsWord(u: Upgrade, pos: seq<nat>)
    requires UpgradeOk(u, pos)
    ensures u.cnt < WORD
  {
    hide UpgradeOk, AllocSize, ReadWord, Product;
    OldBelow(u, pos);
    LibFacts(u, pos, u.cnt);
  }

  /** A row disturbs no other row. */
  lemma RowKeepsRow(u: Upgrade, pos: seq<nat>, mem: Memory, j: nat, m: nat, k: nat)
    requires UpgradeOk(u, pos) && j < |u.dtvs| && m < |u.dtvs| && m != j && k <= OldCount(u) && k <= u.cnt
    requires Cell(u, pos, mem, m, k)
    ensures Cell(u, pos, CopyRow(u, j, mem), m, k)
  {
    hide Slot, Read, Write, UpgradeOk, Entry, Value, Digits;
    OldBelow(u, pos);
    SlotsApart(u, pos, m, k, j, 0);
    var bytes := Read(mem, u.dtvs[j], 8 * (OldCount(u) + 1));
    ReadApart(mem, Slot(u, j, 0), bytes, Slot(u, m, k), 8);
    SlotKeepsCell(u, pos, Write(mem, Slot(u, j, 0), bytes), j, 0, u.cnt, m, k);
  }

  lemma CopyRowKeeps(u: Upgrade, pos: seq<nat>, mem: Memory, j: nat)
    requires UpgradeOk(u, pos) && j < |u.dtvs| && RowsCopied(u, pos, mem, j)
    ensures RowsCopied(u, pos, CopyRow(u, j, mem), j + 1)
  {
    hide Slot, Read, Write, UpgradeOk, Cell, ImagesKept, RestKept, VectorKept, Digits, ReadWord;
    OldBelow(u, pos);
    var bytes := Read(mem, u.dtvs[j], 8 * (OldCount(u) + 1));
    var mem1 := Write(mem, Slot(u, j, 0), bytes);
    SlotKeepsImages(u, pos, mem, j, 0, bytes);
    SlotKeepsImages(u, pos, mem1, j, 0, Digits(u.cnt, 8));
    SlotKeepsRest(u, pos, mem, j, 0, bytes);
    SlotKeepsRest(u, pos, mem1, j, 0, Digits(u.cnt, 8));
    forall t | 0 <= t < |u.dtvs| ensures VectorKept(u, CopyRow(u, j, mem), t) {
      RowKeepsVector(u, pos, mem, j, bytes, t);
      RowKeepsVector(u, pos, mem1, j, Digits(u.cnt, 8), t);
    }
    forall m, k | 0 <= m < j + 1 && m < |u.dtvs| && 0 <= k <= OldCount(u) && k <= u.cnt
      ensures Cell(u, pos, CopyRow(u, j, mem), m, k)
    {
      if m == j { EntryCopied(u, pos, mem, j, k); } else { RowKeepsRow(u, pos, mem, j, m, k); }
    }
  }

  // ----- the code

  /** `install_new_tls`: the threads' new vectors, and memory. */
  method InstallNewTls(u: Upgrade, ghost pos: seq<nat>) returns (dtvs: seq<nat>, mem: Memory)
    requires UpgradeOk(u, pos)
    ensures |dtvs| == |u.dtvs| && forall j :: 0 <= j < |dtvs| ==> dtvs[j] == Row(u.provider.block, j)
    ensures forall j, k :: 0 <= j < |dtvs| && 0 <= k <= u.cnt ==> ReadWord(mem, dtvs[j] + 8 * k) == Entry(u, pos, j, k)
    ensures forall j, k :: 0 <= j < |dtvs| && OldCount(u) < k <= u.cnt ==> Initialised(Lib(u, pos, k), j, mem, u.before)
    ensures RestKept(u, pos, mem)
  {
    hide UpgradeOk, RowsCopied, Progress, Slot, Read, Write, ReadWord;
    hide Row, RowSize, BlockOk, NewTls, Entry, Initialised, RestKept;
    mem := u.before;
    NothingCopied(u, pos);
    var i := 0;
    while i < |u.dtvs|
      invariant 0 <= i <= |u.dtvs| && RowsCopied(u, pos, mem, i)
    {
      CopyRowKeeps(u, pos, mem, i);
      mem := CopyRow(u, i, mem);
      i := i + 1;
    }
    RowsDone(u, pos, mem);
    mem := InstallModules(u, mem, pos);
    dtvs := [];
    var j := 0;
    while j < |u.dtvs|
      invariant 0 <= j <= |u.dtvs| && |dtvs| == j
      invariant forall m :: 0 <= m < j ==> dtvs[m] == Slot(u, m, 0)
    {
      dtvs := dtvs + [Slot(u, j, 0)];
      j := j + 1;
    }
    forall m, k | 0 <= m < |dtvs| && 0 <= k <= u.cnt
      ensures ReadWord(mem, dtvs[m] + 8 * k) == Entry(u, pos, m, k)
    {
      AllDone(u, pos, mem, m, k);
    }
    forall m, k | 0 <= m < |dtvs| && OldCount(u) < k <= u.cnt ensures Initialised(Lib(u, pos, k), m, mem, u.before) {
      AllDone(u, pos, mem, m, k);
    }
    forall m | 0 <= m < |dtvs| ensures dtvs[m] == Row(u.provider.block, m) { SlotInRow(u, pos, m, 0); }
    OldBelow(u, pos);
    AllDone(u, pos, mem, 0, 0);
  }

  lemma NothingCopied(u: Upgrade, pos: seq<nat>)
    requires UpgradeOk(u, pos)
    ensures RowsCopied(u, pos, u.before, 0)
  {
    hide UpgradeOk, Read;
  }

  lemma RowsDone(u: Upgrade, pos: seq<nat>, mem: Memory)
    requires UpgradeOk(u, pos) && RowsCopied(u, pos, mem, |u.dtvs|)
    ensures Progress(u, pos, mem, OldCount(u), 0)
  {
    hide UpgradeOk, ImagesKept, RestKept, VectorKept, Cell;
  }

  lemma AllDone(u: Upgrade, pos: seq<nat>, mem: Memory, m: nat, k: nat)
    requires UpgradeOk(u, pos) && Progress(u, pos, mem, u.cnt, 0) && m < |u.dtvs| && k <= u.cnt
    ensures RestKept(u, pos, mem)
    ensures Slot(u, m, 0) == Row(u.provider.block, m) && ReadWord(mem, Slot(u, m, 0) + 8 * k) == Entry(u, pos, m, k)
    ensures k > OldCount(u) ==> Initialised(Lib(u, pos, k), m, mem, u.before)
  {
    hide UpgradeOk, Entry, Initialised, ReadWord, Slot, Row, RowSize, BlockOk, NewTls;
    SlotInRow(u, pos, m, 0);
    SlotStep(u, m, k);
    assert Cell(u, pos, mem, m, k);
  }

  /** The loop over the chain, ended by the module whose id is tls_cnt. */
  method InstallModules(u: Upgrade, mem0: Memory, ghost pos: seq<nat>) returns (mem: Memory)
    requires UpgradeOk(u, pos) && Progress(u, pos, mem0, OldCount(u), 0)
    ensures Progress(u, pos, mem, u.cnt, 0)
  {
    hide UpgradeOk, Progress, ReadWord, LibraryOk;
    FirstNew(u, pos);
    mem := mem0;
    var old_ := OldCount(u);
    var i := 0;
    ghost var n := old_;
    while true
      invariant old_ <= n < u.cnt && 0 <= i && Progress(u, pos, mem, n, 0)
      invariant Between(u, pos, n, i)
      decreases |u.chain| - i
    {
      NextNew(u, pos, n, i);
      if u.chain[i].tlsId <= old_ { i := i + 1; continue; }
      mem := InstallModule(u, i, mem, n, pos);
      n := n + 1;
      if u.chain[i].tlsId == u.cnt { break; }
      i := i + 1;
    }
  }

  /** Chain position i is past module n and not past module n + 1. */
  ghost predicate Between(u: Upgrade, pos: seq<nat>, n: nat, i: nat) {
    && UpgradeOk(u, pos) && OldCount(u) <= n < u.cnt
    && (n > OldCount(u) ==> pos[n - OldCount(u) - 1] < i) && i <= pos[n - OldCount(u)]
  }

  lemma FirstNew(u: Upgrade, pos: seq<nat>)
    requires UpgradeOk(u, pos)
    ensures u.dtvs != [] && OldCount(u) < u.cnt && Between(u, pos, OldCount(u), 0)
  {
    hide StorageOk, ReadWord;
  }

  /** Such a position holds module n + 1 or no new module, and the next position
      is again such a position. */
  lemma NextNew(u: Upgrade, pos: seq<nat>, n: nat, i: nat)
    requires Between(u, pos, n, i)
    ensures i < |u.chain|
    ensures u.chain[i].tlsId <= OldCount(u) ==> Between(u, pos, n, i + 1)
    ensures u.chain[i].tlsId > OldCount(u) ==> u.chain[i] == Lib(u, pos, n + 1) && u.chain[i].tlsId == n + 1
    ensures u.chain[i].tlsId > OldCount(u) && n + 1 < u.cnt ==> Between(u, pos, n + 1, i + 1)
  {
    hide StorageOk, ReadWord;
    var old_ := OldCount(u);
    var id := u.chain[i].tlsId;
    if id > old_ {
      assert pos[id - old_ - 1] == i;
    }
  }

  /** One new module: a copy for each thread, and a pointer to it. */
  method InstallModule(u: Upgrade, i: nat, mem0: Memory, ghost n: nat, ghost pos: seq<nat>) returns (mem: Memory)
    requires UpgradeOk(u, pos) && i < |u.chain| && OldCount(u) <= n < u.cnt && u.chain[i] == Lib(u, pos, n + 1)
    requires Progress(u, pos, mem0, n, 0)
    ensures Progress(u, pos, mem, n + 1, 0)
  {
    hide UpgradeOk, Progress, ReadWord, LibraryOk, InstallOne;
    mem := mem0;
    LibFacts(u, pos, n + 1);
    for j := 0 to |u.dtvs|
      invariant Progress(u, pos, mem, n, j)
    {
      InstallOneKeeps(u, pos, mem, n, j);
      mem := InstallOne(u, u.chain[i], j, mem);
    }
    ModuleDone(u, pos, mem, n);
  }

  lemma ModuleDone(u: Upgrade, pos: seq<nat>, mem: Memory, n: nat)
    requires UpgradeOk(u, pos) && n < u.cnt && Progress(u, pos, mem, n, |u.dtvs|)
    ensures Progress(u, pos, mem, n + 1, 0)
  {
    hide UpgradeOk, ImagesKept, RestKept, Cell;
  }

  lemma NameInside(b: Block)
    ensures b.addr <= NameEnd(b)
  {}
}
