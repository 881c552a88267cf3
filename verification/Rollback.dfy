/** The linker's lists across one `dlopen`: the DSO chain, the global symbol
    chain, the TLS module chain and the lazy-relocation list, their growth while
    a library is being loaded, and the clean-up when loading fails.
    A pointer field of every DSO is a map; a DSO without an entry has a null
    pointer there. Releasing a DSO removes its fields. */
module Rollback {
  import opened DependencyGraph
  import opened Sequences
  import opened Bits
  import opened TlsLayout
  import opened Options

  // ----- lists through pointer fields

  /** The pointer field when exactly the list s is threaded through it. */
  function Links(s: seq<Dso>): map<Dso, Dso> {
    if |s| < 2 then map[] else Links(s[..|s| - 1])[s[|s| - 2] := s[|s| - 1]]
  }

  function Elements(s: seq<Dso>): set<Dso> {
    set x | x in s
  }

  function Last(s: seq<Dso>): Dso
    requires s != []
  {
    s[|s| - 1]
  }

  function LastOrNull(s: seq<Dso>): Option<Dso> {
    if s == [] then None else Some(Last(s))
  }

  function OrNone(p: Option<Dso>): set<Dso> {
    if p.Some? then {p.value} else {}
  }

  function Follow(field: map<Dso, Dso>, p: Dso): Option<Dso> {
    if p in field then Some(field[p]) else None
  }

  lemma {:induction false} LinksAt(s: seq<Dso>, x: Dso)
    requires Distinct(s)
    ensures x in Links(s) <==> exists i :: 0 <= i < |s| - 1 && s[i] == x
    ensures forall i :: 0 <= i < |s| - 1 && s[i] == x ==> x in Links(s) && Links(s)[x] == s[i + 1]
  {
    if |s| >= 2 {
      var t := s[..|s| - 1];
      LinksAt(t, x);
      if x == s[|s| - 2] {
        assert s[|s| - 2] == x;
      } else if x in Links(t) {
        var i :| 0 <= i < |t| - 1 && t[i] == x;
        assert s[i] == x;
      }
      forall i | 0 <= i < |s| - 1 && s[i] == x ensures x in Links(s) && Links(s)[x] == s[i + 1] {
        if i < |t| - 1 { assert t[i] == x && t[i + 1] == s[i + 1]; }
      }
    }
  }

  lemma LinksAppend(s: seq<Dso>, x: Dso)
    requires s != []
    ensures Links(s + [x]) == Links(s)[Last(s) := x]
  {
    var t := s + [x];
    assert t[..|t| - 1] == s;
  }

  /** Dropping the pointers of everything from position k - 1 on leaves the list
      of the first k. */
  lemma LinksChop(s: seq<Dso>, k: nat, gone: set<Dso>)
    requires Distinct(s) && k <= |s|
    requires forall i :: 0 <= i < |s| ==> (s[i] in gone <==> i >= k - 1)
    ensures Links(s) - gone == Links(s[..k])
  {
    hide Links;
    var t := s[..k];
    forall x ensures x in Links(s) - gone <==> x in Links(t) { ChopMembers(s, k, gone, x); }
    forall x | x in Links(t) && x in Links(s) ensures Links(s)[x] == Links(t)[x] { ChopValues(s, k, x); }
  }

  lemma ChopValues(s: seq<Dso>, k: nat, x: Dso)
    requires Distinct(s) && k <= |s| && x in Links(s) && x in Links(s[..k])
    ensures Links(s)[x] == Links(s[..k])[x]
  {
    hide Links;
    var t := s[..k];
    LinksAt(t, x);
    LinksAt(s, x);
    var i :| 0 <= i < |t| - 1 && t[i] == x;
    assert s[i] == x && t[i + 1] == s[i + 1];
  }

  /** Taking the next element off a list whose elements k to i are gone. */
  lemma CutNext(field: map<Dso, Dso>, s: seq<Dso>, k: nat, i: nat)
    requires Distinct(s) && k <= i < |s| && field == Links(s) - Elements(s[k..i])
    ensures Follow(field, s[i]) == if i + 1 < |s| then Some(s[i + 1]) else None
    ensures field - {s[i]} == Links(s) - Elements(s[k..i + 1])
  {
    hide Links;
    LinksAt(s, s[i]);
    assert s[k..i + 1] == s[k..i] + [s[i]];
  }

  lemma ChopMembers(s: seq<Dso>, k: nat, gone: set<Dso>, x: Dso)
    requires Distinct(s) && k <= |s|
    requires forall i :: 0 <= i < |s| ==> (s[i] in gone <==> i >= k - 1)
    ensures x in Links(s) && x !in gone <==> x in Links(s[..k])
  {
    hide Links;
    var t := s[..k];
    LinksAt(t, x);
    LinksAt(s, x);
    if x in Links(t) {
      var i :| 0 <= i < |t| - 1 && t[i] == x;
      assert s[i] == x;
    }
    if x in Links(s) && x !in gone {
      var i :| 0 <= i < |s| - 1 && s[i] == x;
      assert t[i] == x;
    }
  }

  // ----- the state

  datatype State = State(
    next: map<Dso, Dso>, tail: Dso,
    symsNext: map<Dso, Dso>, symsTail: Dso,
    tlsHead: Option<Dso>, tlsTail: Option<Dso>, tlsNext: map<Dso, Dso>,
    tlsCnt: nat, tlsOffset: nat, tlsAlign: nat,
    lazyHead: Option<Dso>, lazyNext: map<Dso, Dso>,
    ldsoPrev: Option<Dso>, relocated: set<Dso>, places: map<Dso, Place>)

  /** p->tls_id and p->tls.offset of a DSO with TLS. */
  datatype Place = Place(id: nat, offset: nat)

  /** The lists a state holds; `mods` are the images of the DSOs on `tls`. */
  datatype Shape = Shape(chain: seq<Dso>, syms: seq<Dso>, tls: seq<Dso>, mods: seq<Module>)

  /** tls_offset, tls_align and every module's number and offset are those of
      the modules on the TLS chain, laid out one after another. */
  ghost predicate LaidOut(s: State, h: Shape, v: Variant, start: nat, minAlign: nat) {
    && start < WORD && IsPow2(minAlign) && AllOk(h.mods) && |h.mods| == |h.tls|
    && var l := Build(v, start, minAlign, h.mods);
    && s.tlsOffset == l.offset && s.tlsAlign == l.align && |l.offs| == |h.tls|
    && s.places.Keys == Elements(h.tls)
    && forall i :: 0 <= i < |h.tls| ==> h.tls[i] in s.places && s.places[h.tls[i]] == Place(i + 1, l.offs[i])
  }

  /** Placing one more module by the current offset and alignment alone. */
  lemma PlacedNext(s: State, h: Shape, v: Variant, start: nat, minAlign: nat, d: Dso, m: Module, l: Layout)
    requires LaidOut(s, h, v, start, minAlign) && ModuleOk(m) && d !in h.tls
    requires s.tlsOffset < WORD && IsPow2(s.tlsAlign) && l == Add(v, Layout([], [], s.tlsOffset, s.tlsAlign), m)
    ensures |l.offs| == 1
    ensures
      LaidOut(s.(tlsOffset := l.offset, tlsAlign := l.align, places := s.places[d := Place(|h.tls| + 1, l.offs[0])]),
              h.(tls := h.tls + [d], mods := h.mods + [m]), v, start, minAlign)
  {
    hide IsPow2;
    Pow2Range(m.align);
    var whole := Build(v, start, minAlign, h.mods);
    assert (h.mods + [m])[..|h.mods|] == h.mods;
    var next := Build(v, start, minAlign, h.mods + [m]);
    SamePlace(v, whole, Layout([], [], s.tlsOffset, s.tlsAlign), m);
    assert next == Add(v, whole, m);
    assert next.offs[..|h.tls|] == whole.offs;
    assert forall i :: 0 <= i < |h.tls| ==> next.offs[i] == whole.offs[i];
    assert Elements(h.tls + [d]) == Elements(h.tls) + {d};
  }

  /** Where a module with this offset starts, relative to the thread pointer. */
  function StartOf(v: Variant, offset: int): int {
    if v.Above? then offset else 0 - offset
  }

  /** So long as offsets fit a word, the offsets the loader has recorded keep any
      two modules on the TLS chain apart. */
  lemma ModulesApart(s: State, h: Shape, v: Variant, start: nat, minAlign: nat, i: nat, j: nat)
    requires LaidOut(s, h, v, start, minAlign) && IdealEnd(v, start, h.mods) < WORD && i < j < |h.tls|
    ensures h.tls[i] in s.places && h.tls[j] in s.places
    ensures
      var a, b := StartOf(v, s.places[h.tls[i]].offset), StartOf(v, s.places[h.tls[j]].offset);
      a + h.mods[i].size <= b || b + h.mods[j].size <= a
  {
    hide IsPow2, Build, IdealEnd, Climbs;
    LayoutSound(v, start, minAlign, h.mods);
    assert Apart(v, Build(v, start, minAlign, h.mods), i, j);
  }

  lemma SamePlace(v: Variant, l: Layout, k: Layout, m: Module)
    requires l.offset == k.offset < WORD && l.align == k.align && IsPow2(l.align) && ModuleOk(m)
    ensures
      var a, b := Add(v, l, m), Add(v, k, m);
      && a.offset == b.offset && a.align == b.align && |b.offs| == |k.offs| + 1
      && |a.offs| == |l.offs| + 1 && a.offs[|l.offs|] == b.offs[|k.offs|] && a.offs[..|l.offs|] == l.offs
  {
    hide IsPow2, OffsetAbove, OffsetBelow, MaxP2;
  }

  /** A chain through `field` that starts at `head`, is ended by `tail`, and has
      neither a cycle nor a duplicate. */
  ghost predicate IsList(field: map<Dso, Dso>, head: Option<Dso>, tail: Option<Dso>, s: seq<Dso>) {
    && Distinct(s)
    && field == Links(s)
    && head == (if s == [] then None else Some(s[0]))
    && tail == LastOrNull(s)
  }

  /** A DSO is on the list iff its pointer is set or it is the tail. */
  lemma OnList(field: map<Dso, Dso>, head: Option<Dso>, tail: Option<Dso>, s: seq<Dso>, x: Dso)
    requires IsList(field, head, tail, s) && tail.Some?
    ensures s != [] && (x in s <==> x in field || x == tail.value)
  {
    hide Links;
    LinksAt(s, x);
    if x in s {
      var i :| 0 <= i < |s| && s[i] == x;
      assert i < |s| - 1 ==> s[i] == x;
    }
  }

  lemma ListGrows(field: map<Dso, Dso>, head: Option<Dso>, tail: Option<Dso>, s: seq<Dso>, d: Dso)
    requires IsList(field, head, tail, s) && s != [] && d !in s
    ensures tail.Some? && IsList(field[tail.value := d], head, Some(d), s + [d])
  {
    hide Links;
    LinksAppend(s, d);
  }

  ghost predicate Linked(s: State, h: Shape, head: Dso, ldso: Dso) {
    && IsList(s.next, Some(head), Some(s.tail), h.chain)
    && IsList(s.symsNext, Some(head), Some(s.symsTail), h.syms)
    && IsList(s.tlsNext, s.tlsHead, s.tlsTail, h.tls)
    && (forall x :: x in h.syms ==> x in h.chain)
    && (forall x :: x in h.tls ==> x in h.chain)
    && s.tlsCnt == |h.tls| && s.tlsOffset < WORD && IsPow2(s.tlsAlign)
    && s.lazyNext.Keys <= Elements(h.chain)
    && s.relocated <= Elements(h.chain) && s.places.Keys <= Elements(h.chain)
    && (s.ldsoPrev.Some? <==> ldso in h.chain)
  }

  function New(h0: Shape, h: Shape): set<Dso> {
    Elements(h.chain) - Elements(h0.chain)
  }

  /** How the lists may have changed since a call began in (s0, h0). */
  ghost predicate Since(s0: State, h0: Shape, s: State, h: Shape) {
    && h0.chain <= h.chain && h0.syms <= h.syms && h0.tls <= h.tls
    && (forall i :: |h0.tls| <= i < |h.tls| ==> h.tls[i] !in h0.chain)
    && s.lazyNext - New(h0, h) == s0.lazyNext
    && s.relocated - New(h0, h) == s0.relocated
    && s.places - New(h0, h) == s0.places
    && (s0.ldsoPrev.Some? ==> s.ldsoPrev == s0.ldsoPrev)
  }

  /** What `dlopen` keeps in its locals for the failure path. */
  datatype Saved = Saved(
    tail: Dso, symsTail: Dso, tlsTail: Option<Dso>, tlsCnt: nat, tlsOffset: nat, tlsAlign: nat,
    lazyHead: Option<Dso>)

  function SavedFrom(s: State): Saved {
    Saved(s.tail, s.symsTail, s.tlsTail, s.tlsCnt, s.tlsOffset, s.tlsAlign, s.lazyHead)
  }

  /** One thing a call may do before it fails or succeeds. */
  datatype Action =
    | Load(dso: Dso, tls: Option<Module>)
    | LoadSelf
    | PrepareLazy(dso: Dso)
    | AddSyms(dso: Dso)
    | Relocate(dso: Dso)

  function Loaded(h: Shape, d: Dso, tls: Option<Module>): Shape {
    match tls
    case None => h.(chain := h.chain + [d])
    case Some(m) => h.(chain := h.chain + [d], tls := h.tls + [d], mods := h.mods + [m])
  }

  /** What a sequence of actions makes of the lists and the flags. */
  datatype View = View(shape: Shape, lazyHead: Option<Dso>, lazyNext: map<Dso, Dso>, relocated: set<Dso>)

  function After(v: View, ldso: Dso, a: Action): View {
    var h := v.shape;
    match a
    case Load(d, tls) => if d == ldso || d in h.chain then v else v.(shape := Loaded(h, d, tls))
    case LoadSelf => if ldso in h.chain then v else v.(shape := h.(chain := h.chain + [ldso]))
    case PrepareLazy(p) =>
      if p !in h.chain || p in v.relocated then v
      else v.(lazyHead := Some(p), lazyNext := Pushed(v.lazyNext, v.lazyHead, p))
    case AddSyms(p) => if p !in h.chain || p in h.syms then v else v.(shape := h.(syms := h.syms + [p]))
    case Relocate(p) => if p !in h.chain then v else v.(relocated := v.relocated + {p})
  }

  /** The lazy links with p in front of the list that starts at head. */
  function Pushed(field: map<Dso, Dso>, head: Option<Dso>, p: Dso): map<Dso, Dso> {
    if head.Some? then field[p := head.value] else field - {p}
  }

  function AfterAll(v: View, ldso: Dso, actions: seq<Action>): View {
    if actions == [] then v else After(AfterAll(v, ldso, actions[..|actions| - 1]), ldso, actions[|actions| - 1])
  }

  /** Every object loaded, or added to the symbols while on the chain, is there. */
  lemma {:induction false} AfterAllHas(v: View, ldso: Dso, actions: seq<Action>, i: nat)
    requires i < |actions|
    ensures
      var w := AfterAll(v, ldso, actions);
      && (actions[i].Load? && actions[i].dso != ldso ==> actions[i].dso in w.shape.chain)
      && (actions[i].LoadSelf? ==> ldso in w.shape.chain)
      && (actions[i].AddSyms? && actions[i].dso in AfterAll(v, ldso, actions[..i]).shape.chain ==>
            actions[i].dso in w.shape.syms)
    decreases |actions|
  {
    hide After;
    var n := |actions| - 1;
    AfterOne(AfterAll(v, ldso, actions[..n]), ldso, actions[n]);
    if i < n {
      AfterAllHas(v, ldso, actions[..n], i);
      assert actions[..n][..i] == actions[..i];
    }
  }

  lemma AfterOne(v: View, ldso: Dso, a: Action)
    ensures
      var w := After(v, ldso, a);
      && (forall x :: x in v.shape.chain ==> x in w.shape.chain)
      && (forall x :: x in v.shape.syms ==> x in w.shape.syms)
      && (a.Load? && a.dso != ldso ==> a.dso in w.shape.chain) && (a.LoadSelf? ==> ldso in w.shape.chain)
      && (a.AddSyms? && a.dso in v.shape.chain ==> a.dso in w.shape.syms)
  {}

  lemma SameLayout(a: State, g: Shape, b: State, h: Shape, v: Variant, start: nat, minAlign: nat)
    requires LaidOut(a, g, v, start, minAlign) && g.tls == h.tls && g.mods == h.mods
    requires a.tlsOffset == b.tlsOffset && a.tlsAlign == b.tlsAlign && a.places == b.places
    ensures LaidOut(b, h, v, start, minAlign)
  {}

  class Loader {
    const head: Dso
    const ldso: Dso
    const variant: Variant
    ghost const start: nat       // tls_offset and tls_align before any module
    ghost const minAlign: nat

    var next: map<Dso, Dso>
    var tail: Dso
    var symsNext: map<Dso, Dso>
    var symsTail: Dso
    var tlsHead: Option<Dso>
    var tlsTail: Option<Dso>
    var tlsNext: map<Dso, Dso>
    var tlsCnt: nat
    var tlsOffset: nat
    var tlsAlign: nat
    var lazyHead: Option<Dso>
    var lazyNext: map<Dso, Dso>
    var ldsoPrev: Option<Dso>
    var relocated: set<Dso>
    var places: map<Dso, Place>
    ghost var shape: Shape

    ghost function Now(): State
      reads this
    {
      State(next, tail, symsNext, symsTail, tlsHead, tlsTail, tlsNext, tlsCnt, tlsOffset, tlsAlign,
            lazyHead, lazyNext, ldsoPrev, relocated, places)
    }

    ghost function Seen(): View
      reads this
    {
      View(shape, lazyHead, lazyNext, relocated)
    }

    ghost predicate Valid()
      reads this
    {
      head != ldso && Linked(Now(), shape, head, ldso) && LaidOut(Now(), shape, variant, start, minAlign)
    }

    /** The state in which the main program starts, before anything is loaded. */
    constructor (head: Dso, ldso: Dso, variant: Variant, offset: nat, align: nat)
      requires head != ldso && offset < WORD && IsPow2(align)
      ensures Valid() && Seen() == View(Shape([head], [head], [], []), None, map[], {head}) && ldsoPrev.None?
      ensures this.head == head && this.ldso == ldso && tlsOffset == offset && tlsAlign == align
    {
      this.head, this.ldso, this.variant, this.start, this.minAlign := head, ldso, variant, offset, align;
      next, tail := map[], head;
      symsNext, symsTail := map[], head;
      tlsHead, tlsTail, tlsNext, tlsCnt := None, None, map[], 0;
      tlsOffset, tlsAlign := offset, align;
      lazyHead, lazyNext := None, map[];
      ldsoPrev, relocated, places := None, {head}, map[];
      shape := Shape([head], [head], [], []);
    }

    // ----- the symbol chain

    /** `add_syms`: the null test on the pointer and the test on the tail decide
        membership. */
    method AddSyms(p: Dso)
      requires Valid() && p in shape.chain
      modifies `symsNext, `symsTail, `shape
      ensures Valid()
      ensures shape == old(shape).(syms := if p in old(shape.syms) then old(shape.syms) else old(shape.syms) + [p])
    {
      hide Links, IsPow2, IsList, LaidOut;
      ghost var s, h := Now(), shape;
      OnList(symsNext, Some(head), Some(symsTail), shape.syms, p);
      if p !in symsNext && symsTail != p {
        ListGrows(symsNext, Some(head), Some(symsTail), shape.syms, p);
        symsNext := symsNext[symsTail := p];
        symsTail := p;
        shape := shape.(syms := shape.syms + [p]);
      }
      SameLayout(s, h, Now(), shape, variant, start, minAlign);
    }

    /** `revert_syms`: the chain is cut after old_tail. */
    method RevertSyms(oldTail: Dso, ghost k: nat)
      requires Valid() && k < |shape.syms| && shape.syms[k] == oldTail
      modifies `symsNext, `symsTail, `shape
      ensures Valid() && shape == old(shape).(syms := old(shape.syms)[..k + 1])
      ensures symsNext == Links(shape.syms) && symsTail == oldTail
    {
      hide Links, IsPow2, Follow, LaidOut, Linked;
      ghost var s, h := Now(), shape;
      LinkedParts(s, h, head, ldso);
      ghost var syms := shape.syms;
      ghost var i := k;
      var p := Some(oldTail);
      while p.Some?
        invariant k <= i <= |syms| && p == (if i < |syms| then Some(syms[i]) else None)
        invariant symsNext == Links(syms) - Elements(syms[k..i])
        decreases |syms| - i
        modifies `symsNext
      {
        CutNext(symsNext, syms, k, i);
        var rest := Follow(symsNext, p.value);
        symsNext := symsNext - {p.value};
        p := rest;
        i := i + 1;
      }
      symsTail := oldTail;
      assert syms[k..i] == syms[k..];
      LinksChop(syms, k + 1, Elements(syms[k..]));
      shape := shape.(syms := syms[..k + 1]);
      LinkedCut(s, h, head, ldso, k);
      SameLayout(s, h, Now(), shape, variant, start, minAlign);
    }

    // ----- loading

    /** The end of `load_library`, for a newly allocated DSO: append it to the
        chain and give its TLS image, if any, the next place. */
    method LoadLibrary(d: Dso, tls: Option<Module>)
      requires Valid() && d !in shape.chain && d != ldso && (tls.Some? ==> ModuleOk(tls.value))
      modifies `next, `tail, `tlsHead, `tlsTail, `tlsNext, `tlsCnt, `tlsOffset, `tlsAlign, `places, `shape
      ensures Valid() && shape == Loaded(old(shape), d, tls) && places - {d} == old(places) - {d}
      ensures tls.None? ==> tlsOffset == old(tlsOffset) && tlsAlign == old(tlsAlign)
      ensures tls.Some? && tls.value.align > 0 ==>
        tlsOffset == Wrap(End(variant, old(tlsOffset), tls.value)) &&
        tlsAlign == if old(tlsAlign) < tls.value.align then tls.value.align else old(tlsAlign)
    {
      hide Links, IsPow2, ModuleOk, IsList, End, Wrap, LaidOut, Linked;
      ghost var s, h := Now(), shape;
      LinkedParts(s, h, head, ldso);
      if tls.Some? {
        LinkTls(d);
        SameLayout(s, h, Now(), h, variant, start, minAlign);
        PlaceTls(d, tls.value);
      }
      ghost var s1, h1 := Now(), shape;
      next := next[tail := d];
      tail := d;
      shape := shape.(chain := shape.chain + [d]);
      SameLayout(s1, h1, Now(), shape, variant, start, minAlign);
      LinkedLoaded(s, h, Now(), shape, head, ldso, d);
    }

    /** Appending d to the TLS chain. */
    method LinkTls(d: Dso)
      requires IsList(tlsNext, tlsHead, tlsTail, shape.tls) && d !in shape.tls
      modifies `tlsHead, `tlsTail, `tlsNext
      ensures IsList(tlsNext, tlsHead, tlsTail, shape.tls + [d])
    {
      hide Links;
      if tlsTail.Some? {
        LinksAppend(shape.tls, d);
        tlsNext := tlsNext[tlsTail.value := d];
      } else {
        LinksOne(d);
        assert shape.tls + [d] == [d];
        tlsHead := Some(d);
      }
      tlsTail := Some(d);
    }

    /** The module's number and offset, and the new tls_offset and tls_align. */
    method PlaceTls(d: Dso, m: Module)
      requires LaidOut(Now(), shape, variant, start, minAlign) && ModuleOk(m)
      requires tlsOffset < WORD && IsPow2(tlsAlign) && tlsCnt == |shape.tls| && d !in shape.tls
      modifies `tlsCnt, `tlsOffset, `tlsAlign, `places, `shape
      ensures LaidOut(Now(), shape, variant, start, minAlign)
      ensures tlsCnt == |shape.tls| && tlsOffset < WORD && IsPow2(tlsAlign) && m.align > 0
      ensures tlsOffset == Wrap(End(variant, old(tlsOffset), m))
      ensures tlsAlign == if old(tlsAlign) < m.align then m.align else old(tlsAlign)
      ensures places.Keys == old(places.Keys) + {d} && places - {d} == old(places) - {d}
      ensures shape == old(shape).(tls := old(shape.tls) + [d], mods := old(shape.mods) + [m])
    {
      hide IsPow2, Add, ModuleOk, LaidOut, End, Wrap;
      var l := Add(variant, Layout([], [], tlsOffset, tlsAlign), m);
      AddOffset(variant, Layout([], [], tlsOffset, tlsAlign), m);
      AddAlign(variant, Layout([], [], tlsOffset, tlsAlign), m);
      PlacedNext(Now(), shape, variant, start, minAlign, d, m, l);
      places := places[d := Place(tlsCnt + 1, l.offs[0])];
      tlsCnt := tlsCnt + 1;
      tlsAlign := l.align;
      tlsOffset := l.offset;
      shape := shape.(tls := shape.tls + [d], mods := shape.mods + [m]);
      SameLayout(old(Now()).(tlsOffset := l.offset, tlsAlign := l.align, places := places), shape, Now(), shape,
                 variant, start, minAlign);
    }

    /** `load_library` of a name that means libc itself: link the linker's own
        DSO unless it has a predecessor already. */
    method LoadSelf() returns (p: Dso)
      requires Valid()
      modifies `next, `tail, `ldsoPrev, `shape
      ensures Valid() && p == ldso && ldso in shape.chain
      ensures shape == old(shape).(chain := if ldso in old(shape.chain) then old(shape.chain)
                                            else old(shape.chain) + [ldso])
      ensures ldsoPrev == if old(ldsoPrev).Some? then old(ldsoPrev) else Some(old(tail))
    {
      hide Links, IsPow2, IsList, LaidOut;
      ghost var s, h := Now(), shape;
      if ldsoPrev.None? {
        OnList(next, Some(head), Some(tail), shape.chain, ldso);
        ListGrows(next, Some(head), Some(tail), shape.chain, ldso);
        next := next[tail := ldso];
        ldsoPrev := Some(tail);
        tail := ldso;
        shape := shape.(chain := shape.chain + [ldso]);
      }
      SameLayout(s, h, Now(), shape, variant, start, minAlign);
      return ldso;
    }

    /** The end of `prepare_lazy`. */
    method PrepareLazy(p: Dso)
      requires Valid() && p in shape.chain
      modifies `lazyHead, `lazyNext
      ensures Valid() && lazyHead == Some(p) && lazyNext - {p} == old(lazyNext) - {p}
      ensures lazyNext == Pushed(old(lazyNext), old(lazyHead), p)
    {
      hide Links, IsPow2, IsList, LaidOut;
      ghost var s := Now();
      lazyNext := match lazyHead case Some(h) => lazyNext[p := h] case None => lazyNext - {p};
      lazyHead := Some(p);
      SameLayout(s, shape, Now(), shape, variant, start, minAlign);
    }

    /** `reloc_all` from p on: every DSO from there to the end is relocated. */
    method RelocAll(from: Option<Dso>, ghost k: nat)
      requires Valid() && k <= |shape.chain| && from == (if k < |shape.chain| then Some(shape.chain[k]) else None)
      modifies `relocated
      ensures Valid() && relocated == old(relocated) + Elements(shape.chain[k..])
    {
      hide Links, IsPow2, Follow, LaidOut, Linked;
      ghost var s := Now();
      LinkedParts(s, shape, head, ldso);
      ghost var i := k;
      var p := from;
      while p.Some?
        invariant k <= i <= |shape.chain| && p == (if i < |shape.chain| then Some(shape.chain[i]) else None)
        invariant relocated == old(relocated) + Elements(shape.chain[k..i])
        decreases |shape.chain| - i
      {
        assert shape.chain[k..i + 1] == shape.chain[k..i] + [shape.chain[i]];
        CutNext(next, shape.chain, i, i);
        relocated := relocated + {p.value};
        p := Follow(next, p.value);
        i := i + 1;
      }
      assert shape.chain[k..i] == shape.chain[k..];
      LinkedRelocated(s, shape, head, ldso, Elements(shape.chain[k..]));
      SameLayout(s, shape, Now(), shape, variant, start, minAlign);
    }

    // ----- failing

    /** The code after `setjmp` returns the second time. */
    method RollBack(saved: Saved, ghost s0: State, ghost h0: Shape) returns (freed: seq<Dso>)
      requires Valid() && Linked(s0, h0, head, ldso) && Since(s0, h0, Now(), shape) && saved == SavedFrom(s0)
      modifies this
      ensures Now() == s0.(ldsoPrev := old(ldsoPrev)) && shape == h0
      ensures freed == old(shape.chain)[|h0.chain|..]
    {
      ghost var h := shape;
      ghost var s := Now();
      hide Links, Follow, Elements, Linked, Since, Distinct, LaidOut;
      Prefixes(s0, h0, s, h, head, ldso);
      RevertSyms(saved.symsTail, |h0.syms| - 1);
      freed := Release(saved.tail, h0.chain, h.chain);
      ResetTails(saved);
      shape := h0;
      Restored(s0, h0, s, h, head, ldso);
    }

    method ResetTails(saved: Saved)
      modifies `next, `tail, `tlsHead, `tlsTail, `tlsNext, `tlsCnt, `tlsOffset, `tlsAlign, `lazyHead
      ensures tlsHead == if saved.tlsTail.None? then None else old(tlsHead)
      ensures tlsNext == old(tlsNext) - OrNone(saved.tlsTail)
      ensures next == old(next) - {saved.tail}
      ensures Saved(tail, symsTail, tlsTail, tlsCnt, tlsOffset, tlsAlign, lazyHead) == saved.(symsTail := symsTail)
    {
      if saved.tlsTail.None? { tlsHead := None; }
      tlsTail := saved.tlsTail;
      if tlsTail.Some? { tlsNext := tlsNext - {tlsTail.value}; }
      tlsCnt := saved.tlsCnt;
      tlsOffset := saved.tlsOffset;
      tlsAlign := saved.tlsAlign;
      lazyHead := saved.lazyHead;
      tail := saved.tail;
      next := next - {tail};
    }

    /** The loop that releases every DSO after orig_tail. */
    method Release(origTail: Dso, ghost kept: seq<Dso>, ghost chain: seq<Dso>) returns (freed: seq<Dso>)
      requires Distinct(chain) && kept <= chain && kept != [] && origTail == Last(kept)
      requires next == Links(chain)
      modifies `next, `tlsNext, `lazyNext, `relocated, `places
      ensures freed == chain[|kept|..]
      ensures next == old(next) - Elements(freed) && tlsNext == old(tlsNext) - Elements(freed)
      ensures lazyNext == old(lazyNext) - Elements(freed) && relocated == old(relocated) - Elements(freed)
      ensures places == old(places) - Elements(freed)
    {
      hide Links, Follow, Distinct;
      ghost var k := |kept|;
      ghost var i := k;
      NothingCut(next, chain);
      CutNext(next, chain, k - 1, k - 1);
      var p := Follow(next, origTail);
      freed := [];
      while p.Some?
        invariant k <= i <= |chain| && p == (if i < |chain| then Some(chain[i]) else None)
        invariant freed == chain[k..i]
        invariant next == old(next) - Elements(freed) && tlsNext == old(tlsNext) - Elements(freed)
        invariant lazyNext == old(lazyNext) - Elements(freed) && relocated == old(relocated) - Elements(freed)
        invariant places == old(places) - Elements(freed)
        decreases |chain| - i
      {
        CutNext(next, chain, k, i);
        var rest := Follow(next, p.value);
        next := next - {p.value};
        tlsNext := tlsNext - {p.value};
        lazyNext := lazyNext - {p.value};
        relocated := relocated - {p.value};
        places := places - {p.value};
        assert Elements(freed + [p.value]) == Elements(freed) + {p.value};
        freed := freed + [p.value];
        p := rest;
        i := i + 1;
      }
    }

    // ----- a whole call

    predicate OnChain(p: Dso)
      reads this
    {
      p in next || p == tail
    }

    /** One action. A library that is on the chain already is not loaded again,
        and only DSOs not yet relocated are prepared or relocated. */
    method Perform(a: Action, ghost s0: State, ghost h0: Shape)
      requires Valid() && Since(s0, h0, Now(), shape) && ActionOk(a) && Elements(h0.chain) <= s0.relocated
      modifies this
      ensures Valid() && Since(s0, h0, Now(), shape)
      ensures ldsoPrev.Some? <==> old(ldsoPrev).Some? || a.LoadSelf?
      ensures Seen() == After(old(Seen()), ldso, a)
    {
      hide Since, Elements, Linked, LaidOut, After, ActionOk;
      match a
      case Load(_, _) => Fetch(a, s0, h0);
      case LoadSelf => Fetch(a, s0, h0);
      case PrepareLazy(_) => Touch(a, s0, h0);
      case Relocate(_) => Touch(a, s0, h0);
      case AddSyms(_) => Publish(a, s0, h0);
    }

    method Fetch(a: Action, ghost s0: State, ghost h0: Shape)
      requires Valid() && Since(s0, h0, Now(), shape) && ActionOk(a) && (a.Load? || a.LoadSelf?)
      modifies this
      ensures Valid() && Since(s0, h0, Now(), shape)
      ensures ldsoPrev.Some? <==> old(ldsoPrev).Some? || a.LoadSelf?
      ensures Seen() == After(old(Seen()), ldso, a)
    {
      hide ModuleOk, Since, Elements, Linked, LaidOut, Loaded;
      ghost var s, h := Now(), shape;
      ChainTest(s, h, head, ldso);
      if a.LoadSelf? {
        var p := LoadSelf();
        SinceLoaded(s0, h0, s, h, Now(), shape, ldso, head, ldso);
      } else if a.dso != ldso && !OnChain(a.dso) {
        LoadLibrary(a.dso, a.tls);
        LoadedGrows(h, a.dso, a.tls);
        SinceLoaded(s0, h0, s, h, Now(), shape, a.dso, head, ldso);
      }
    }

    method Touch(a: Action, ghost s0: State, ghost h0: Shape)
      requires Valid() && Since(s0, h0, Now(), shape) && (a.PrepareLazy? || a.Relocate?)
      requires Elements(h0.chain) <= s0.relocated
      modifies this
      ensures Valid() && Since(s0, h0, Now(), shape) && ldsoPrev == old(ldsoPrev)
      ensures Seen() == After(old(Seen()), ldso, a)
    {
      hide Since, Elements, Linked, LaidOut, Pushed;
      ghost var s, h := Now(), shape;
      ChainTest(s, h, head, ldso);
      if !OnChain(a.dso) || a.dso in relocated { return; }
      if a.PrepareLazy? {
        PrepareLazy(a.dso);
      } else {
        relocated := relocated + {a.dso};
        LinkedTouched(s, h, a.dso, head, ldso);
        SameLayout(s, h, Now(), h, variant, start, minAlign);
      }
      SinceTouched(s0, h0, s, h, Now(), a.dso);
    }

    method Publish(a: Action, ghost s0: State, ghost h0: Shape)
      requires Valid() && Since(s0, h0, Now(), shape) && a.AddSyms?
      modifies this
      ensures Valid() && Since(s0, h0, Now(), shape) && ldsoPrev == old(ldsoPrev)
      ensures Seen() == After(old(Seen()), ldso, a)
    {
      hide Since, Linked, LaidOut;
      ghost var s, h := Now(), shape;
      ChainTest(s, h, head, ldso);
      if OnChain(a.dso) {
        AddSyms(a.dso);
        SinceAdded(s0, h0, s, h, Now(), shape);
      }
    }

    /** `dlopen`: any actions, in any order, and then the failure path or the
        success path. */
    method Dlopen(actions: seq<Action>, global: bool, fails: bool) returns (freed: seq<Dso>)
      requires Valid() && Elements(shape.chain) <= relocated && forall a :: a in actions ==> ActionOk(a)
      modifies this
      ensures fails ==> (ldso in freed <==> old(ldsoPrev).None? && Action.LoadSelf in actions)
      ensures fails ==>
        (ldso !in freed && Now() == old(Now()) <==> old(ldsoPrev).Some? || Action.LoadSelf !in actions)
      ensures fails && ldso !in freed ==> Valid() && shape == old(shape)
      ensures fails ==> Distinct(freed) && forall x :: x in freed ==> x !in old(shape.chain)
      ensures fails ==> forall a ::
        a in actions && a.Load? && a.dso != ldso && a.dso !in old(shape.chain) ==> a.dso in freed
      ensures !fails ==> Valid() && Elements(shape.chain) <= relocated && freed == []
      ensures !fails ==>
        var v := AfterAll(old(Seen()), ldso, actions);
        Seen() == v.(shape := if global then v.shape else v.shape.(syms := old(shape.syms)),
                     relocated := Elements(v.shape.chain))
    {
      hide Links, IsPow2, IsList, ModuleOk, Since, Linked, Follow, LaidOut, After;
      ghost var s0, h0, v0 := Now(), shape, Seen();
      var saved := Saved(tail, symsTail, tlsTail, tlsCnt, tlsOffset, tlsAlign, lazyHead);
      SinceStart(s0, h0, head, ldso);
      var i := 0;
      while i < |actions|
        invariant 0 <= i <= |actions|
        invariant Valid() && Since(s0, h0, Now(), shape)
        invariant ldsoPrev.Some? <==> s0.ldsoPrev.Some? || Action.LoadSelf in actions[..i]
        invariant Seen() == AfterAll(v0, ldso, actions[..i])
      {
        assert actions[..i + 1] == actions[..i] + [actions[i]] && actions[..i + 1][..i] == actions[..i];
        Perform(actions[i], s0, h0);
        i := i + 1;
      }
      assert actions[..i] == actions;
      ghost var h := shape;
      Prefixes(s0, h0, Now(), h, head, ldso);
      if fails {
        SinceSelf(s0, h0, Now(), h, head, ldso);
        freed := RollBack(saved, s0, h0);
        NotKept(h0.chain, h.chain);
        forall k | 0 <= k < |actions| && actions[k].Load? && actions[k].dso != ldso ensures actions[k].dso in h.chain {
          AfterAllHas(v0, ldso, actions, k);
        }
      } else {
        Committed(s0, h0, Now(), h, head, ldso);
        RelocAll(Follow(next, saved.tail), |h0.chain|);
        if !global { RevertSyms(saved.symsTail, |h0.syms| - 1); }
        freed := [];
      }
    }
  }

  /** A call that links libc for the first time and then fails releases the
      linker itself: the clean-up unmaps and frees its own static object. */
  method LinkerReleased(head: Dso, ldso: Dso) returns (l: Loader, freed: seq<Dso>)
    requires head != ldso
    ensures fresh(l) && l.head == head && l.ldso == ldso && ldso in freed
  {
    assert Pow2(0) == 1;
    l := new Loader(head, ldso, Above, 0, 1);
    assert l.ldso !in l.shape.chain;
    freed := l.Dlopen([LoadSelf], false, true);
  }

  /** Nothing has happened yet. */
  lemma SinceStart(s: State, h: Shape, head: Dso, ldso: Dso)
    requires Linked(s, h, head, ldso)
    ensures Since(s, h, s, h)
  {
    assert New(h, h) == {};
  }

  lemma SinceSelf(s0: State, h0: Shape, s: State, h: Shape, head: Dso, ldso: Dso)
    requires Linked(s0, h0, head, ldso) && Linked(s, h, head, ldso) && Since(s0, h0, s, h)
    ensures s0.ldsoPrev.Some? ==> s.ldsoPrev == s0.ldsoPrev
    ensures s.ldsoPrev.None? ==> s0.ldsoPrev.None?
    ensures s.ldsoPrev.Some? <==> ldso in h.chain
    ensures s0.ldsoPrev.Some? <==> ldso in h0.chain
  {
    hide Links, IsPow2, IsList, New;
  }

  lemma NotKept(kept: seq<Dso>, chain: seq<Dso>)
    requires Distinct(chain) && kept <= chain
    ensures forall x :: x in chain[|kept|..] ==> x !in kept
    ensures forall x :: x in chain && x !in kept ==> x in chain[|kept|..]
    ensures Distinct(chain[|kept|..])
  {
    assert chain == kept + chain[|kept|..];
  }

  /** On success the lists have grown, the first new DSO is next after the old
      tail, and relocating from there on leaves nothing unrelocated. */
  lemma Committed(s0: State, h0: Shape, s: State, h: Shape, head: Dso, ldso: Dso)
    requires Linked(s0, h0, head, ldso) && Linked(s, h, head, ldso) && Since(s0, h0, s, h)
    requires Elements(h0.chain) <= s0.relocated
    ensures Follow(s.next, s0.tail) == if |h0.chain| < |h.chain| then Some(h.chain[|h0.chain|]) else None
    ensures Elements(h.chain) == s.relocated + Elements(h.chain[|h0.chain|..])
    ensures h0.tls <= h.tls && h0.syms <= h.syms
  {
    hide Links, IsPow2, Follow;
    var k := |h0.chain|;
    NothingCut(s.next, h.chain);
    CutNext(s.next, h.chain, k - 1, k - 1);
    NewAreGone(h0, h);
  }

  predicate ActionOk(a: Action) {
    a.Load? && a.tls.Some? ==> ModuleOk(a.tls.value)
  }

  lemma LinkedParts(s: State, h: Shape, head: Dso, ldso: Dso)
    requires Linked(s, h, head, ldso)
    ensures Distinct(h.chain) && s.next == Links(h.chain) && Distinct(h.syms) && s.symsNext == Links(h.syms)
    ensures IsList(s.tlsNext, s.tlsHead, s.tlsTail, h.tls) && s.tlsCnt == |h.tls|
    ensures s.tlsOffset < WORD && IsPow2(s.tlsAlign) && (forall x :: x in h.tls ==> x in h.chain)
  {
    hide Links, IsPow2;
  }

  /** Appending d to the chain, with or without TLS. */
  lemma LinkedLoaded(s: State, h: Shape, s': State, h': Shape, head: Dso, ldso: Dso, d: Dso)
    requires Linked(s, h, head, ldso) && d !in h.chain && d != ldso
    requires h'.chain == h.chain + [d] && h'.syms == h.syms && (h'.tls == h.tls || h'.tls == h.tls + [d])
    requires s'.next == s.next[s.tail := d] && s'.tail == d
    requires s'.symsNext == s.symsNext && s'.symsTail == s.symsTail
    requires IsList(s'.tlsNext, s'.tlsHead, s'.tlsTail, h'.tls) && s'.tlsCnt == |h'.tls|
    requires s'.tlsOffset < WORD && IsPow2(s'.tlsAlign) && s'.places.Keys <= s.places.Keys + {d}
    requires s'.lazyNext == s.lazyNext && s'.relocated == s.relocated && s'.ldsoPrev == s.ldsoPrev
    ensures Linked(s', h', head, ldso)
  {
    hide Links, IsPow2, IsList;
    OnList(s.next, Some(head), Some(s.tail), h.chain, d);
    ListGrows(s.next, Some(head), Some(s.tail), h.chain, d);
  }

  lemma LinkedRelocated(s: State, h: Shape, head: Dso, ldso: Dso, r: set<Dso>)
    requires Linked(s, h, head, ldso) && r <= Elements(h.chain)
    ensures Linked(s.(relocated := s.relocated + r), h, head, ldso)
  {
    hide Links, IsPow2, IsList;
  }

  lemma LinkedCut(s: State, h: Shape, head: Dso, ldso: Dso, k: nat)
    requires Linked(s, h, head, ldso) && k < |h.syms|
    ensures Linked(s.(symsNext := Links(h.syms[..k + 1]), symsTail := h.syms[k]), h.(syms := h.syms[..k + 1]),
                   head, ldso)
  {
    hide Links, IsPow2;
  }

  lemma LinkedTouched(s: State, h: Shape, p: Dso, head: Dso, ldso: Dso)
    requires Linked(s, h, head, ldso) && p in h.chain
    ensures Linked(s.(relocated := s.relocated + {p}), h, head, ldso)
  {
    hide Links, IsPow2, IsList;
  }

  lemma ChainTest(s: State, h: Shape, head: Dso, ldso: Dso)
    requires Linked(s, h, head, ldso)
    ensures forall x :: x in h.chain <==> x in s.next || x == s.tail
    ensures s.ldsoPrev.Some? <==> ldso in h.chain
  {
    hide Links, IsPow2, IsList;
    forall x ensures x in h.chain <==> x in s.next || x == s.tail {
      OnList(s.next, Some(head), Some(s.tail), h.chain, x);
    }
  }

  /** Loading d, or finding it loaded, is a change `Since` allows. */
  lemma SinceLoaded(s0: State, h0: Shape, s: State, h: Shape, s': State, h': Shape, d: Dso, head: Dso, ldso: Dso)
    requires Since(s0, h0, s, h) && Linked(s, h, head, ldso)
    requires s'.lazyNext == s.lazyNext && s'.relocated == s.relocated && h'.syms == h.syms
    requires s.ldsoPrev.Some? ==> s'.ldsoPrev == s.ldsoPrev
    requires h'.chain == (if d in h.chain then h.chain else h.chain + [d])
    requires h'.tls == h.tls || (d !in h.chain && h'.tls == h.tls + [d])
    requires s'.places - {d} == s.places - {d} && (d in h.chain ==> s'.places == s.places)
    ensures Since(s0, h0, s', h')
  {
    hide Links, IsPow2, IsList, Distinct;
    NewGrows(h0, h, h', d);
    if d !in h.chain { PlacesGrow(s.places, s'.places, d, New(h0, h)); }
  }

  /** Entries of a new object do not count as changes. */
  lemma PlacesGrow(a: map<Dso, Place>, b: map<Dso, Place>, d: Dso, added: set<Dso>)
    requires b - {d} == a - {d} && d !in a
    ensures b - (added + {d}) == a - added
  {
    assert a - {d} == a;
    assert b - (added + {d}) == (b - {d}) - added;
  }

  lemma LoadedGrows(h: Shape, d: Dso, tls: Option<Module>)
    ensures
      var h' := Loaded(h, d, tls);
      && h'.chain == h.chain + [d] && h'.syms == h.syms
      && (h'.tls == h.tls || h'.tls == h.tls + [d])
  {}

  lemma NewGrows(h0: Shape, h: Shape, h': Shape, d: Dso)
    requires h0.chain <= h.chain && h'.chain == (if d in h.chain then h.chain else h.chain + [d])
    ensures New(h0, h') == if d in h.chain then New(h0, h) else New(h0, h) + {d}
    ensures d !in h.chain ==> d !in h0.chain
  {}

  lemma SinceAdded(s0: State, h0: Shape, s: State, h: Shape, s': State, h': Shape)
    requires Since(s0, h0, s, h) && h.syms <= h'.syms && h' == h.(syms := h'.syms)
    requires s' == s.(symsNext := s'.symsNext, symsTail := s'.symsTail)
    ensures Since(s0, h0, s', h')
  {}

  /** Changing the lazy link or the relocated flag of a DSO that was not
      relocated when the call began changes only new DSOs. */
  lemma SinceTouched(s0: State, h0: Shape, s: State, h: Shape, s': State, p: Dso)
    requires Since(s0, h0, s, h) && Elements(h0.chain) <= s0.relocated
    requires p in h.chain && p !in s.relocated
    requires s'.lazyNext - {p} == s.lazyNext - {p} && s'.relocated - {p} == s.relocated - {p}
    requires s' == s.(lazyNext := s'.lazyNext, lazyHead := s'.lazyHead, relocated := s'.relocated)
    ensures Since(s0, h0, s', h)
  {
    var added := New(h0, h);
    assert p in added;
    WithoutMore(s'.lazyNext, s.lazyNext, p, added);
    assert s'.relocated - added == (s'.relocated - {p}) - added == (s.relocated - {p}) - added == s.relocated - added;
  }

  lemma WithoutMore(a: map<Dso, Dso>, b: map<Dso, Dso>, p: Dso, gone: set<Dso>)
    requires a - {p} == b - {p} && p in gone
    ensures a - gone == b - gone
  {
    assert a - gone == (a - {p}) - gone;
    assert b - gone == (b - {p}) - gone;
  }

  lemma LinksOne(d: Dso)
    ensures Links([d]) == map[] && Links([]) == map[]
  {}

  lemma NothingCut(field: map<Dso, Dso>, s: seq<Dso>)
    ensures forall k :: 0 <= k <= |s| ==> field == field - Elements(s[k..k])
  {}

  lemma Prefixes(s0: State, h0: Shape, s: State, h: Shape, head: Dso, ldso: Dso)
    requires Linked(s0, h0, head, ldso) && Linked(s, h, head, ldso) && Since(s0, h0, s, h)
    ensures Distinct(h.chain) && s.next == Links(h.chain)
    ensures h0.chain <= h.chain && h0.chain != [] && s0.tail == Last(h0.chain)
    ensures h0.syms != [] && |h0.syms| <= |h.syms| && h.syms[|h0.syms| - 1] == s0.symsTail
    ensures h.syms[..|h0.syms|] == h0.syms && s0.symsNext == Links(h0.syms)
    ensures s0.tlsTail.None? ==> s0.tlsHead.None?
  {
    hide Links, IsPow2;
  }

  /** What releasing the new DSOs and resetting the tails leaves is the state the
      call began in. */
  lemma Restored(s0: State, h0: Shape, s: State, h: Shape, head: Dso, ldso: Dso)
    requires Linked(s0, h0, head, ldso) && Linked(s, h, head, ldso) && Since(s0, h0, s, h)
    ensures var gone := Elements(h.chain[|h0.chain|..]);
      && s.next - gone - {s0.tail} == s0.next
      && s.tlsNext - gone - OrNone(s0.tlsTail) == s0.tlsNext
      && s.lazyNext - gone == s0.lazyNext
      && s.relocated - gone == s0.relocated
      && s.places - gone == s0.places
      && (s0.tlsTail.Some? ==> s.tlsHead == s0.tlsHead)
  {
    hide Links, IsPow2, Distinct, OrNone;
    var gone := Elements(h.chain[|h0.chain|..]);
    NewAreGone(h0, h);
    ChainRestored(h0.chain, h.chain, gone);
    TlsGone(h0, h, gone);
    TlsRestored(s0, h0, s, h, gone);
  }

  lemma NewAreGone(h0: Shape, h: Shape)
    requires Distinct(h.chain) && h0.chain <= h.chain
    ensures New(h0, h) == Elements(h.chain[|h0.chain|..])
  {
    assert h.chain == h0.chain + h.chain[|h0.chain|..];
  }

  lemma ChainRestored(kept: seq<Dso>, chain: seq<Dso>, gone: set<Dso>)
    requires Distinct(chain) && kept <= chain && kept != [] && gone == Elements(chain[|kept|..])
    ensures Links(chain) - gone - {Last(kept)} == Links(kept)
  {
    hide Links;
    LinksChop(chain, |kept|, gone + {Last(kept)});
    assert chain[..|kept|] == kept;
  }

  lemma TlsGone(h0: Shape, h: Shape, gone: set<Dso>)
    requires Distinct(h.chain) && h0.chain <= h.chain && gone == New(h0, h) && h0.tls <= h.tls
    requires forall i :: 0 <= i < |h.tls| ==> h.tls[i] in h.chain
    requires forall i :: 0 <= i < |h0.tls| ==> h0.tls[i] in h0.chain
    requires forall i :: |h0.tls| <= i < |h.tls| ==> h.tls[i] !in h0.chain
    ensures forall i :: 0 <= i < |h.tls| ==> (h.tls[i] in gone <==> i >= |h0.tls|)
  {}

  lemma TlsRestored(s0: State, h0: Shape, s: State, h: Shape, gone: set<Dso>)
    requires IsList(s0.tlsNext, s0.tlsHead, s0.tlsTail, h0.tls) && IsList(s.tlsNext, s.tlsHead, s.tlsTail, h.tls)
    requires h0.tls <= h.tls
    requires forall i :: 0 <= i < |h.tls| ==> (h.tls[i] in gone <==> i >= |h0.tls|)
    ensures s.tlsNext - gone - OrNone(s0.tlsTail) == s0.tlsNext
    ensures s0.tlsTail.Some? ==> s.tlsHead == s0.tlsHead
  {
    hide Links;
    var m := |h0.tls|;
    var last := OrNone(s0.tlsTail);
    LinksChop(h.tls, m, gone + last);
    assert h.tls[..m] == h0.tls;
  }
}
