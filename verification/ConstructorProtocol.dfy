/** The constructor/destructor protocol of `do_init_fini` and `__libc_exit_fini`
    as a machine over every interleaving. One step is one stretch of code run
    while holding `init_fini_lock`; a thread waiting on `ctor_cond` takes no
    step. A thread owns a stack of `do_init_fini` activations, because a
    constructor may call dlopen. */
module ConstructorProtocol {
  import opened DependencyGraph
  import opened Sequences
  import opened Options

  type Thread = nat

  /** One activation of `do_init_fini(queue)`: `i` is the loop index, and
      `inCtor` says that the lock is released and the constructors of queue[i] run. */
  datatype Frame = Frame(queue: seq<Dso>, i: nat, inCtor: bool)

  datatype State = State(
    visitor: map<Dso, Thread>,        // ctor_visitor, where not null
    constructed: set<Dso>,
    fini: seq<Dso>,                   // the list from fini_head along fini_next
    frames: map<Thread, seq<Frame>>,  // innermost activation last
    exiter: Option<Thread>,           // the caller of __libc_exit_fini; shutting_down is exiter.Some?
    exitPos: nat,                     // its position in the fini list
    destroying: bool)                 // it is running the destructors of fini[exitPos]

  datatype Label =
    | Enter(t: Thread, queue: seq<Dso>)
    | Skip(t: Thread)
    | Claim(t: Thread, p: Dso)
    | Finish(t: Thread)
    | Return(t: Thread)
    | BeginExit(t: Thread)
    | Destroy(p: Dso)
    | EndDestroy
    | PassOver

  const Initial := State(map[], {}, [], map[], None, 0, false)

  function Stack(s: State, t: Thread): seq<Frame> {
    if t in s.frames then s.frames[t] else []
  }

  function Top(s: State, t: Thread): Frame
    requires Stack(s, t) != []
  {
    Stack(s, t)[|Stack(s, t)| - 1]
  }

  function WithTop(s: State, t: Thread, f: Frame): State
    requires Stack(s, t) != []
  {
    s.(frames := s.frames[t := Stack(s, t)[..|Stack(s, t)| - 1] + [f]])
  }

  /** The thread executes application code: outside any activation, or inside a constructor. */
  predicate InUserCode(s: State, t: Thread) {
    s.exiter != Some(t) && (Stack(s, t) == [] || Top(s, t).inCtor)
  }

  /** The thread holds the lock at queue[i] and the wait loop lets it through. */
  predicate AtEntry(s: State, t: Thread) {
    && s.exiter == None
    && Stack(s, t) != [] && !Top(s, t).inCtor && Top(s, t).i < |Top(s, t).queue|
    && var p := Top(s, t).queue[Top(s, t).i];
    !(p in s.visitor && s.visitor[p] != t)
  }

  /** The exiting thread is at fini[exitPos] and its wait loop lets it through. */
  predicate AtFini(s: State) {
    && s.exiter.Some? && !s.destroying && s.exitPos < |s.fini|
    && var p := s.fini[s.exitPos];
    !(p in s.visitor && s.visitor[p] != s.exiter.value)
  }

  predicate Enabled(s: State, l: Label) {
    match l
    case Enter(t, _) => InUserCode(s, t)
    case Skip(t) =>
      AtEntry(s, t) && var p := Top(s, t).queue[Top(s, t).i]; p in s.visitor || p in s.constructed
    case Claim(t, p) =>
      AtEntry(s, t) && p == Top(s, t).queue[Top(s, t).i] && p !in s.visitor && p !in s.constructed
    case Finish(t) => s.exiter != Some(t) && Stack(s, t) != [] && Top(s, t).inCtor && Top(s, t).i < |Top(s, t).queue|
    case Return(t) => s.exiter != Some(t) && Stack(s, t) != [] && !Top(s, t).inCtor && Top(s, t).i == |Top(s, t).queue|
    case BeginExit(t) => s.exiter == None && InUserCode(s, t)
    case Destroy(p) => AtFini(s) && p == s.fini[s.exitPos] && p in s.constructed
    case EndDestroy => s.destroying
    case PassOver => AtFini(s) && s.fini[s.exitPos] !in s.constructed
  }

  /** `hasFini` holds the objects with DT_FINI or DT_FINI_ARRAY. */
  function Step(hasFini: set<Dso>, s: State, l: Label): State
    requires Enabled(s, l)
  {
    match l
    case Enter(t, queue) => s.(frames := s.frames[t := Stack(s, t) + [Frame(queue, 0, false)]])
    case Skip(t) => WithTop(s, t, Top(s, t).(i := Top(s, t).i + 1))
    case Claim(t, p) =>
      WithTop(s, t, Top(s, t).(inCtor := true))
        .(visitor := s.visitor[p := t], fini := if p in hasFini then [p] + s.fini else s.fini)
    case Finish(t) =>
      var f := Top(s, t);
      WithTop(s, t, Frame(f.queue, f.i + 1, false))
        .(visitor := s.visitor - {f.queue[f.i]}, constructed := s.constructed + {f.queue[f.i]})
    case Return(t) => s.(frames := s.frames[t := Stack(s, t)[..|Stack(s, t)| - 1]])
    case BeginExit(t) => s.(exiter := Some(t))
    case Destroy(_) => s.(destroying := true)
    case EndDestroy => s.(destroying := false, exitPos := s.exitPos + 1)
    case PassOver => s.(exitPos := s.exitPos + 1)
  }

  /** The state after a schedule, if every step of it is enabled in turn. */
  function Run(hasFini: set<Dso>, run: seq<Label>): Option<State> {
    if run == [] then Some(Initial)
    else
      var s := Run(hasFini, run[..|run| - 1]);
      var l := run[|run| - 1];
      if s.Some? && Enabled(s.value, l) then Some(Step(hasFini, s.value, l)) else None
  }

  /** The objects claimed by a schedule, in order. */
  function Claims(run: seq<Label>): seq<Dso> {
    if run == [] then []
    else
      var l := run[|run| - 1];
      Claims(run[..|run| - 1]) + (if l.Claim? then [l.p] else [])
  }

  /** The objects whose destructors a schedule starts, in order. */
  function Destroyed(run: seq<Label>): seq<Dso> {
    if run == [] then []
    else
      var l := run[|run| - 1];
      Destroyed(run[..|run| - 1]) + (if l.Destroy? then [l.p] else [])
  }

  /** Members of `keep` among `list`, latest first. */
  function ReverseFilter(list: seq<Dso>, keep: set<Dso>): seq<Dso> {
    if list == [] then []
    else
      var d := list[|list| - 1];
      (if d in keep then [d] else []) + ReverseFilter(list[..|list| - 1], keep)
  }

  function Filter(list: seq<Dso>, keep: set<Dso>): seq<Dso> {
    if list == [] then []
    else
      var d := list[|list| - 1];
      Filter(list[..|list| - 1], keep) + (if d in keep then [d] else [])
  }

  // ----- the invariant

  /** A frame of thread t is consistent with the shared fields. */
  ghost predicate FrameOk(s: State, t: Thread, f: Frame) {
    && f.i <= |f.queue|
    && (f.inCtor ==> f.i < |f.queue| && f.queue[f.i] in s.visitor && s.visitor[f.queue[f.i]] == t)
    && (forall j :: 0 <= j < f.i ==> Done(s, t, f.queue[j]))
  }

  /** Constructed, or still being constructed by t itself. */
  ghost predicate Done(s: State, t: Thread, p: Dso) {
    p in s.constructed || (p in s.visitor && s.visitor[p] == t)
  }

  ghost predicate InCtorAt(f: Frame, p: Dso) {
    f.inCtor && f.i < |f.queue| && f.queue[f.i] == p
  }

  /** The activations of thread t: all but the innermost are inside a
      constructor, no two in the same one, and together they account for every
      object t is the visitor of. */
  ghost predicate StackOk(s: State, t: Thread, st: seq<Frame>) {
    && (forall k :: 0 <= k < |st| ==> FrameOk(s, t, st[k]))
    && (forall k :: 0 <= k < |st| - 1 ==> st[k].inCtor)
    && (forall k, m, p :: 0 <= k < m < |st| && InCtorAt(st[k], p) ==> !InCtorAt(st[m], p))
    && (forall p :: p in s.visitor && s.visitor[p] == t ==> Visiting(st, p))
  }

  ghost predicate Visiting(st: seq<Frame>, p: Dso) {
    exists k :: 0 <= k < |st| && InCtorAt(st[k], p)
  }

  ghost predicate StacksOk(s: State) {
    forall t :: StackOk(s, t, Stack(s, t))
  }

  ghost predicate SharedOk(s: State) {
    && s.visitor.Keys !! s.constructed
    && Distinct(s.fini) && (forall k :: 0 <= k < |s.fini| ==> s.fini[k] in s.visitor || s.fini[k] in s.constructed)
    && s.exitPos <= |s.fini| && (s.exiter == None ==> s.exitPos == 0 && !s.destroying)
    && (s.exiter.Some? ==> forall k :: 0 <= k < s.exitPos ==> Done(s, s.exiter.value, s.fini[k]))
    && (s.destroying ==> s.exitPos < |s.fini| && s.fini[s.exitPos] in s.constructed)
  }

  ghost predicate Inv(s: State) {
    StacksOk(s) && SharedOk(s)
  }

  // ----- every step keeps it

  lemma StacksKept(hasFini: set<Dso>, s: State, l: Label)
    requires Inv(s) && Enabled(s, l)
    ensures StacksOk(Step(hasFini, s, l))
  {
    hide StackOk, SharedOk;
    var s' := Step(hasFini, s, l);
    forall t ensures StackOk(s', t, Stack(s', t)) {
      assert StackOk(s, t, Stack(s, t));
      match l
      case Enter(u, queue) =>
        BystanderKeeps(s, s', t, Stack(s, t));
        if t == u { PushKeeps(s', t, Stack(s, t), Frame(queue, 0, false)); }
      case Skip(u) =>
        if t == u { SkipKeeps(s, s', t, Stack(s, t)); } else { BystanderKeeps(s, s', t, Stack(s, t)); }
      case Claim(u, p) =>
        if t == u { ClaimKeeps(s, s', t, Stack(s, t), p); } else { BystanderKeeps(s, s', t, Stack(s, t)); }
      case Finish(u) =>
        TopOk(s, u);
        if t == u { FinishKeeps(s, s', t, Stack(s, t)); } else { BystanderKeeps(s, s', t, Stack(s, t)); }
      case Return(u) =>
        BystanderKeeps(s, s', t, Stack(s, t));
        if t == u { PopKeeps(s', t, Stack(s, t)); }
      case _ => BystanderKeeps(s, s', t, Stack(s, t));
    }
  }

  lemma TopOk(s: State, t: Thread)
    requires StacksOk(s) && Stack(s, t) != []
    ensures FrameOk(s, t, Top(s, t))
  {
    assert StackOk(s, t, Stack(s, t));
  }

  /** A step that leaves t's own visits alone and un-constructs nothing keeps t's stack consistent. */
  lemma BystanderKeeps(s: State, s': State, t: Thread, st: seq<Frame>)
    requires StackOk(s, t, st) && s.constructed <= s'.constructed
    requires forall p :: (p in s'.visitor && s'.visitor[p] == t) <==> (p in s.visitor && s.visitor[p] == t)
    ensures StackOk(s', t, st)
  {
    forall k | 0 <= k < |st| ensures FrameOk(s', t, st[k]) {
      assert FrameOk(s, t, st[k]);
    }
  }

  lemma PushKeeps(s: State, t: Thread, st: seq<Frame>, f: Frame)
    requires StackOk(s, t, st) && (st == [] || st[|st| - 1].inCtor) && !f.inCtor && f.i == 0
    ensures StackOk(s, t, st + [f])
  {
    forall p | Visiting(st, p) ensures Visiting(st + [f], p) {
      var k :| 0 <= k < |st| && InCtorAt(st[k], p);
      assert InCtorAt((st + [f])[k], p);
    }
  }

  lemma PopKeeps(s: State, t: Thread, st: seq<Frame>)
    requires StackOk(s, t, st) && st != [] && !st[|st| - 1].inCtor
    ensures StackOk(s, t, st[..|st| - 1])
  {
    var st' := st[..|st| - 1];
    forall p | Visiting(st, p) ensures Visiting(st', p) {
      var k :| 0 <= k < |st| && InCtorAt(st[k], p);
      assert InCtorAt(st'[k], p);
    }
  }

  lemma SkipKeeps(s: State, s': State, t: Thread, st: seq<Frame>)
    requires StackOk(s, t, st) && st != [] && s'.visitor == s.visitor && s'.constructed == s.constructed
    requires var f := st[|st| - 1]; !f.inCtor && f.i < |f.queue| && Done(s, t, f.queue[f.i])
    ensures var n := |st| - 1; StackOk(s', t, st[..n] + [st[n].(i := st[n].i + 1)])
  {
    var n := |st| - 1;
    var st' := st[..n] + [st[n].(i := st[n].i + 1)];
    forall k | 0 <= k < |st'| ensures FrameOk(s', t, st'[k]) {
      assert FrameOk(s, t, st[k]);
    }
    forall p | Visiting(st, p) ensures Visiting(st', p) {
      var k :| 0 <= k < |st| && InCtorAt(st[k], p);
      assert InCtorAt(st'[k], p);
    }
  }

  lemma ClaimKeeps(s: State, s': State, t: Thread, st: seq<Frame>, p: Dso)
    requires StackOk(s, t, st) && st != [] && p !in s.visitor
    requires s'.visitor == s.visitor[p := t] && s'.constructed == s.constructed
    requires var f := st[|st| - 1]; !f.inCtor && f.i < |f.queue| && f.queue[f.i] == p
    ensures var n := |st| - 1; StackOk(s', t, st[..n] + [st[n].(inCtor := true)])
  {
    var n := |st| - 1;
    var st' := st[..n] + [st[n].(inCtor := true)];
    forall k | 0 <= k < |st'| ensures FrameOk(s', t, st'[k]) && (k < n ==> !InCtorAt(st'[k], p)) {
      assert FrameOk(s, t, st[k]);
    }
    assert InCtorAt(st'[n], p);
    forall d | Visiting(st, d) ensures Visiting(st', d) {
      var k :| 0 <= k < |st| && InCtorAt(st[k], d);
      assert InCtorAt(st'[k], d);
    }
  }

  lemma FinishKeeps(s: State, s': State, t: Thread, st: seq<Frame>)
    requires StackOk(s, t, st) && st != [] && st[|st| - 1].inCtor
    requires
      var d := st[|st| - 1].queue[st[|st| - 1].i];
      s'.visitor == s.visitor - {d} && s'.constructed == s.constructed + {d}
    ensures var n := |st| - 1; StackOk(s', t, st[..n] + [Frame(st[n].queue, st[n].i + 1, false)])
  {
    var n := |st| - 1;
    var f := st[n];
    var d := f.queue[f.i];
    var st' := st[..n] + [Frame(f.queue, f.i + 1, false)];
    assert FrameOk(s, t, f) && InCtorAt(f, d);
    forall k | 0 <= k < |st'| ensures FrameOk(s', t, st'[k]) {
      assert FrameOk(s, t, st[k]);
      if k < n { assert InCtorAt(st[k], st[k].queue[st[k].i]); }
    }
    forall p | p in s'.visitor && s'.visitor[p] == t ensures Visiting(st', p) {
      var k :| 0 <= k < |st| && InCtorAt(st[k], p);
      assert InCtorAt(st'[k], p);
    }
  }

  lemma SharedKept(hasFini: set<Dso>, s: State, l: Label)
    requires Inv(s) && Enabled(s, l)
    ensures SharedOk(Step(hasFini, s, l))
  {
    if l.Finish? { TopOk(s, l.t); }
  }

  /** What a schedule has claimed, read off the state. */
  ghost predicate ClaimHistory(hasFini: set<Dso>, run: seq<Label>, s: State) {
    && Distinct(Claims(run))
    && (forall p :: p in Claims(run) <==> p in s.visitor || p in s.constructed)
    && s.fini == ReverseFilter(Claims(run), hasFini)
  }

  /** How many entries of the fini list the exit has reached. */
  function Reached(s: State): nat {
    if s.destroying then s.exitPos + 1 else s.exitPos
  }

  /** What a schedule has destroyed, read off the state. */
  ghost predicate DestroyHistory(run: seq<Label>, s: State) {
    Reached(s) <= |s.fini| && Destroyed(run) == Filter(s.fini[..Reached(s)], s.constructed)
  }

  lemma {:induction false} FilterUnaffected(list: seq<Dso>, keep: set<Dso>, keep': set<Dso>)
    requires forall k :: 0 <= k < |list| ==> (list[k] in keep <==> list[k] in keep')
    ensures Filter(list, keep) == Filter(list, keep')
  {
    if list != [] { FilterUnaffected(list[..|list| - 1], keep, keep'); }
  }

  lemma FilterNext(list: seq<Dso>, n: nat, keep: set<Dso>)
    requires n < |list|
    ensures Filter(list[..n + 1], keep) == Filter(list[..n], keep) + if list[n] in keep then [list[n]] else []
  {
    assert list[..n + 1][..n] == list[..n];
  }

  lemma ReverseFilterNext(list: seq<Dso>, p: Dso, keep: set<Dso>)
    ensures ReverseFilter(list + [p], keep) == (if p in keep then [p] else []) + ReverseFilter(list, keep)
  {
    assert (list + [p])[..|list|] == list;
  }

  lemma ClaimHistoryKept(hasFini: set<Dso>, run: seq<Label>, s: State, l: Label)
    requires Inv(s) && Enabled(s, l) && ClaimHistory(hasFini, run, s)
    ensures ClaimHistory(hasFini, run + [l], Step(hasFini, s, l))
  {
    hide StackOk, SharedOk, ReverseFilter;
    var run', s' := run + [l], Step(hasFini, s, l);
    assert run'[..|run|] == run;
    var c, c' := Claims(run), Claims(run');
    if l.Claim? {
      hide Claims;
      assert c' == c + [l.p];
      assert forall d :: d in c' <==> d in c || d == l.p;
      ReverseFilterNext(c, l.p, hasFini);
    } else {
      assert c' == c && s'.fini == s.fini;
      if l.Finish? { TopOk(s, l.t); }
      assert forall p :: (p in s'.visitor || p in s'.constructed) <==> (p in s.visitor || p in s.constructed);
    }
  }

  lemma DestroyHistoryKept(hasFini: set<Dso>, run: seq<Label>, s: State, l: Label)
    requires Inv(s) && Enabled(s, l) && DestroyHistory(run, s)
    ensures DestroyHistory(run + [l], Step(hasFini, s, l))
  {
    hide StackOk;
    var run', s' := run + [l], Step(hasFini, s, l);
    assert run'[..|run|] == run;
    assert Destroyed(run') == Destroyed(run) + if l.Destroy? then [l.p] else [];
    if l.Destroy? || l.PassOver? {
      hide Filter;
      FilterNext(s.fini, s.exitPos, s.constructed);
      assert Reached(s') == s.exitPos + 1;
    } else {
      assert s'.fini[..Reached(s')] == s.fini[..Reached(s)];
      if l.Finish? {
        TopOk(s, l.t);
        FilterUnaffected(s.fini[..Reached(s)], s.constructed, s'.constructed);
      }
    }
  }

  /** Every reachable state, over every schedule of every number of threads. */
  lemma {:induction false} Reachable(hasFini: set<Dso>, run: seq<Label>)
    requires Run(hasFini, run).Some?
    ensures Inv(Run(hasFini, run).value)
    ensures ClaimHistory(hasFini, run, Run(hasFini, run).value) && DestroyHistory(run, Run(hasFini, run).value)
    decreases |run|
  {
    if run != [] {
      var n := |run| - 1;
      Reachable(hasFini, run[..n]);
      var s := Run(hasFini, run[..n]).value;
      StacksKept(hasFini, s, run[n]);
      SharedKept(hasFini, s, run[n]);
      ClaimHistoryKept(hasFini, run[..n], s, run[n]);
      DestroyHistoryKept(hasFini, run[..n], s, run[n]);
      assert run[..n] + [run[n]] == run;
    }
  }

  // ----- what the protocol promises

  lemma {:induction false} PrefixRuns(hasFini: set<Dso>, run: seq<Label>, k: nat)
    requires Run(hasFini, run).Some? && k <= |run|
    ensures Run(hasFini, run[..k]).Some?
    ensures k < |run| ==> Enabled(Run(hasFini, run[..k]).value, run[k]) &&
                          Run(hasFini, run[..k + 1]) == Some(Step(hasFini, Run(hasFini, run[..k]).value, run[k]))
    decreases |run|
  {
    hide Enabled, Step;
    if k == |run| {
      assert run[..k] == run;
    } else if k == |run| - 1 {
      assert run[..k + 1] == run;
    } else {
      PrefixRuns(hasFini, run[..|run| - 1], k);
      assert run[..|run| - 1][..k] == run[..k];
      assert run[..|run| - 1][..k + 1] == run[..k + 1];
    }
  }

  /** Nothing is ever un-constructed, and an exit in progress freezes the list. */
  lemma StepMonotone(hasFini: set<Dso>, s: State, l: Label)
    requires Enabled(s, l)
    ensures s.constructed <= Step(hasFini, s, l).constructed
    ensures l.BeginExit? ==> Step(hasFini, s, l).exiter == Some(l.t)
    ensures s.exiter.Some? ==>
      !l.Claim? && !l.BeginExit? && Step(hasFini, s, l).exiter == s.exiter && Step(hasFini, s, l).fini == s.fini
  {}

  /** An object is claimed at most once in a run. */
  lemma ClaimedOnce(hasFini: set<Dso>, run: seq<Label>, i: nat, j: nat)
    requires Run(hasFini, run).Some? && i < j < |run| && run[i].Claim? && run[j].Claim?
    ensures run[i].p != run[j].p
  {
    PrefixRuns(hasFini, run, j);
    Reachable(hasFini, run[..j]);
    ClaimRecorded(run[..j], i);
  }

  lemma {:induction false} ClaimRecorded(run: seq<Label>, i: nat)
    requires i < |run| && run[i].Claim?
    ensures run[i].p in Claims(run)
    decreases |run|
  {
    if i < |run| - 1 { ClaimRecorded(run[..|run| - 1], i); }
  }

  /** Once shutting_down is set it stays set, nothing more is claimed and the
      list the destructors are taken from no longer changes. */
  lemma {:induction false} FrozenAfterShutdown(hasFini: set<Dso>, run: seq<Label>, i: nat, j: nat)
    requires Run(hasFini, run).Some? && i < j <= |run| && run[i].BeginExit?
    ensures Run(hasFini, run[..j]).Some? && Run(hasFini, run[..i + 1]).Some?
    ensures Run(hasFini, run[..j]).value.exiter == Some(run[i].t)
    ensures Run(hasFini, run[..j]).value.fini == Run(hasFini, run[..i + 1]).value.fini
    ensures j < |run| ==> !run[j].Claim? && !run[j].BeginExit?
    decreases j
  {
    hide Run, Enabled, Step;
    PrefixRuns(hasFini, run, i);
    PrefixRuns(hasFini, run, j);
    StepMonotone(hasFini, Run(hasFini, run[..i]).value, run[i]);
    if i + 1 < j {
      FrozenAfterShutdown(hasFini, run, i, j - 1);
      PrefixRuns(hasFini, run, j - 1);
      StepMonotone(hasFini, Run(hasFini, run[..j - 1]).value, run[j - 1]);
    }
    if j < |run| { StepMonotone(hasFini, Run(hasFini, run[..j]).value, run[j]); }
  }

  /** At any moment at most one activation of one thread is inside the
      constructors of p, that thread is p's visitor, and p is not constructed yet. */
  lemma OneVisitor(hasFini: set<Dso>, run: seq<Label>, p: Dso, t: Thread, k: nat, u: Thread, m: nat)
    requires Run(hasFini, run).Some?
    requires
      var s := Run(hasFini, run).value;
      k < |Stack(s, t)| && m < |Stack(s, u)| && InCtorAt(Stack(s, t)[k], p) && InCtorAt(Stack(s, u)[m], p)
    ensures
      var s := Run(hasFini, run).value;
      t == u && k == m && p in s.visitor && s.visitor[p] == t && p !in s.constructed
  {
    Reachable(hasFini, run);
    var s := Run(hasFini, run).value;
    assert StackOk(s, t, Stack(s, t)) && StackOk(s, u, Stack(s, u));
    assert FrameOk(s, t, Stack(s, t)[k]) && FrameOk(s, u, Stack(s, u)[m]);
  }

  /** The queues of t's activations, from the calls and returns alone. */
  function Queues(run: seq<Label>, t: Thread): seq<seq<Dso>> {
    if run == [] then []
    else
      var l := run[|run| - 1];
      var before := Queues(run[..|run| - 1], t);
      match l
      case Enter(u, queue) => if u == t then before + [queue] else before
      case Return(u) => if u == t && before != [] then before[..|before| - 1] else before
      case _ => before
  }

  function QueuesOf(st: seq<Frame>): seq<seq<Dso>> {
    seq(|st|, k requires 0 <= k < |st| => st[k].queue)
  }

  /** Each activation still has the queue it was called with. */
  lemma {:induction false} QueuesMatch(hasFini: set<Dso>, run: seq<Label>, t: Thread)
    requires Run(hasFini, run).Some?
    ensures QueuesOf(Stack(Run(hasFini, run).value, t)) == Queues(run, t)
    decreases |run|
  {
    if run != [] {
      var n := |run| - 1;
      QueuesMatch(hasFini, run[..n], t);
      QueuesStep(hasFini, Run(hasFini, run[..n]).value, run[n], t);
    }
  }

  lemma QueuesStep(hasFini: set<Dso>, s: State, l: Label, t: Thread)
    requires Enabled(s, l)
    ensures
      var before, after := QueuesOf(Stack(s, t)), QueuesOf(Stack(Step(hasFini, s, l), t));
      match l
      case Enter(u, queue) => after == if u == t then before + [queue] else before
      case Return(u) => if u == t then before != [] && after == before[..|before| - 1] else after == before
      case _ => after == before
  {}

  /** The call that is label i of run has not returned. */
  ghost predicate OpenSince(run: seq<Label>, t: Thread, i: nat)
    requires i < |run|
  {
    forall k :: i < k <= |run| ==> |Queues(run[..k], t)| > |Queues(run[..i], t)|
  }

  lemma {:induction false} OpenKeepsQueue(run: seq<Label>, t: Thread, queue: seq<Dso>, i: nat)
    requires i < |run| && run[i] == Enter(t, queue) && OpenSince(run, t, i)
    ensures var d := |Queues(run[..i], t)|; |Queues(run, t)| > d && Queues(run, t)[d] == queue
    decreases |run|
  {
    var n := |run| - 1;
    assert run[..|run|] == run;
    if i < n {
      assert forall k :: 0 <= k <= n ==> run[..n][..k] == run[..k];
      OpenKeepsQueue(run[..n], t, queue, i);
    }
  }

  /** When `do_init_fini(queue)` returns, every object of that queue is
      constructed, or is still being constructed further up in the calling
      thread. The call is label i, and nothing called inside it is still open. */
  lemma ReturnGuarantee(hasFini: set<Dso>, run: seq<Label>, t: Thread, queue: seq<Dso>, i: nat, j: nat)
    requires Run(hasFini, run).Some? && Enabled(Run(hasFini, run).value, Return(t))
    requires i < |run| && run[i] == Enter(t, queue) && OpenSince(run, t, i)
    requires |Queues(run, t)| == |Queues(run[..i], t)| + 1 && j < |queue|
    ensures
      var s := Run(hasFini, run).value;
      queue[j] in s.constructed || exists k :: 0 <= k < |Stack(s, t)| - 1 && InCtorAt(Stack(s, t)[k], queue[j])
  {
    hide Run;
    QueuesMatch(hasFini, run, t);
    OpenKeepsQueue(run, t, queue, i);
    Reachable(hasFini, run);
    var s := Run(hasFini, run).value;
    var st := Stack(s, t);
    assert QueuesOf(st)[|st| - 1] == Top(s, t).queue == queue;
    ReturnedDone(s, t, j);
  }

  lemma ReturnedDone(s: State, t: Thread, j: nat)
    requires Inv(s) && Enabled(s, Return(t)) && j < |Top(s, t).queue|
    ensures
      var p := Top(s, t).queue[j];
      p in s.constructed || exists k :: 0 <= k < |Stack(s, t)| - 1 && InCtorAt(Stack(s, t)[k], p)
  {
    TopOk(s, t);
    var p := Top(s, t).queue[j];
    assert Done(s, t, p);
    if p !in s.constructed {
      var st := Stack(s, t);
      assert StackOk(s, t, st);
      var k :| 0 <= k < |st| && InCtorAt(st[k], p);
    }
  }

  /** Waiting on `ctor_cond`: at a queue entry another thread visits, or after
      shutting_down was set. */
  ghost predicate Waiting(s: State, t: Thread) {
    && Stack(s, t) != [] && !Top(s, t).inCtor && Top(s, t).i < |Top(s, t).queue|
    && var p := Top(s, t).queue[Top(s, t).i];
    s.exiter.Some? || (p in s.visitor && s.visitor[p] != t)
  }

  /** An activation is held up by nothing else: while it does not wait, exactly
      one of finishing a constructor, returning, skipping and claiming comes
      next, and it claims exactly what nobody has claimed. A constructor, and
      nothing else of it, may call dlopen again. */
  lemma OnlyWaitsHoldUp(hasFini: set<Dso>, run: seq<Label>, t: Thread, queue: seq<Dso>)
    requires Run(hasFini, run).Some?
    requires Stack(Run(hasFini, run).value, t) != [] && Run(hasFini, run).value.exiter != Some(t)
    ensures
      var s := Run(hasFini, run).value;
      var f := Top(s, t);
      && (Enabled(s, Finish(t)) <==> f.inCtor) && (Enabled(s, Enter(t, queue)) <==> f.inCtor)
      && (Enabled(s, Return(t)) <==> !f.inCtor && f.i == |f.queue|)
      && (!f.inCtor && f.i < |f.queue| ==>
            var p := f.queue[f.i];
            && (Enabled(s, Claim(t, p)) <==> !Waiting(s, t) && p !in Claims(run))
            && (Enabled(s, Skip(t)) <==> !Waiting(s, t) && p in Claims(run)))
  {
    hide Run, Claims;
    Reachable(hasFini, run);
    TopOk(Run(hasFini, run).value, t);
  }

  /** Any thread in application code, also inside a constructor, may be the one
      that exits. */
  lemma ExitExactly(hasFini: set<Dso>, run: seq<Label>, t: Thread)
    requires Run(hasFini, run).Some?
    ensures
      var s := Run(hasFini, run).value;
      Enabled(s, BeginExit(t)) <==> s.exiter == None && (Stack(s, t) == [] || Top(s, t).inCtor)
  {}

  /** The exiting thread is held up only by another thread's constructor, and
      destroys exactly what is constructed. */
  lemma OnlyWaitsHoldUpExit(hasFini: set<Dso>, run: seq<Label>, p: Dso)
    requires Run(hasFini, run).Some?
    requires var s := Run(hasFini, run).value; s.exiter.Some? && s.exitPos < |s.fini| && p == s.fini[s.exitPos]
    ensures
      var s := Run(hasFini, run).value;
      var waits := p in s.visitor && s.visitor[p] != s.exiter.value;
      && (Enabled(s, EndDestroy) <==> s.destroying)
      && (Enabled(s, Destroy(p)) <==> !s.destroying && !waits && p in s.constructed)
      && (Enabled(s, PassOver) <==> !s.destroying && !waits && p !in s.constructed)
  {}

  /** While the destructors of p run, and ever after they were started, no
      thread is inside the constructors of p. */
  lemma NoConstructorDuringDestructor(hasFini: set<Dso>, run: seq<Label>, i: nat, p: Dso, t: Thread, k: nat)
    requires Run(hasFini, run).Some? && i < |run| && run[i] == Destroy(p)
    requires k < |Stack(Run(hasFini, run).value, t)|
    ensures !InCtorAt(Stack(Run(hasFini, run).value, t)[k], p)
  {
    PrefixRuns(hasFini, run, i);
    ConstructedStays(hasFini, run, i, p);
    assert run[..|run|] == run;
    Reachable(hasFini, run);
    var s := Run(hasFini, run).value;
    assert StackOk(s, t, Stack(s, t));
    assert FrameOk(s, t, Stack(s, t)[k]);
  }

  lemma {:induction false} ConstructedStays(hasFini: set<Dso>, run: seq<Label>, i: nat, p: Dso)
    requires Run(hasFini, run).Some? && i <= |run| && Run(hasFini, run[..i]).Some?
    requires p in Run(hasFini, run[..i]).value.constructed
    ensures p in Run(hasFini, run).value.constructed
    decreases |run|
  {
    hide Enabled, Step;
    if i == |run| {
      assert run[..i] == run;
    } else {
      var n := |run| - 1;
      assert run[..n][..i] == run[..i];
      ConstructedStays(hasFini, run[..n], i, p);
      StepMonotone(hasFini, Run(hasFini, run[..n]).value, run[n]);
    }
  }

  /** The whole exit: when `__libc_exit_fini` has walked its list, the
      destructors that ran are those of exactly the constructed objects that
      have any, each once, in the reverse of the order of claiming. */
  lemma DestructorsComplete(hasFini: set<Dso>, run: seq<Label>)
    requires Run(hasFini, run).Some?
    requires var s := Run(hasFini, run).value; s.exiter.Some? && !s.destroying && s.exitPos == |s.fini|
    ensures
      var s := Run(hasFini, run).value;
      Destroyed(run) == Filter(ReverseFilter(Claims(run), hasFini), s.constructed)
    ensures forall p :: p in Destroyed(run) <==> p in hasFini && p in Run(hasFini, run).value.constructed
    ensures Distinct(Destroyed(run))
  {
    Reachable(hasFini, run);
    var s := Run(hasFini, run).value;
    assert s.fini[..|s.fini|] == s.fini;
    FilterMembers(s.fini, s.constructed);
    ReverseFilterMembers(Claims(run), hasFini);
  }

  lemma {:induction false} FilterMembers(list: seq<Dso>, keep: set<Dso>)
    ensures forall p :: p in Filter(list, keep) <==> p in list && p in keep
    ensures Distinct(list) ==> Distinct(Filter(list, keep))
  {
    if list != [] {
      var n := |list| - 1;
      FilterMembers(list[..n], keep);
      assert list == list[..n] + [list[n]];
    }
  }

  lemma {:induction false} ReverseFilterMembers(list: seq<Dso>, keep: set<Dso>)
    ensures forall p :: p in ReverseFilter(list, keep) <==> p in list && p in keep
  {
    if list != [] {
      var n := |list| - 1;
      ReverseFilterMembers(list[..n], keep);
      assert list == list[..n] + [list[n]];
    }
  }
}
