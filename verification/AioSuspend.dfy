/** The wait protocol between `aio_suspend` and the completion code of a worker
    (`cleanup`), over every interleaving. Each step is one atomic operation on a
    futex word, one read of a control block, or one futex system call. */
module AioSuspend {
  import opened Options

  type Cb = nat       // a control block
  type Worker = nat
  type Thread = nat   // a tid, non-zero for real threads

  /** `cb->__err`: EINPROGRESS, EINPROGRESS with the waiters bit, or a result. */
  datatype Word = InProgress | InProgressWaiters | Result

  datatype Stage =
    | Working(cb: Cb)
    | Stored(cb: Cb, wake: bool)   // __err swapped; `wake`: waiters must be woken
    | BeforeFut(cb: Cb)            // about to swap __aio_fut
    | FutWake(cb: Cb)              // __aio_fut was set; about to wake its waiters

  /** Where a caller of aio_suspend stands; `cbs` are the non-null entries. */
  datatype Phase =
    | Out
    | Check(cbs: seq<Cb>, i: nat)                          // testing cbs[i], no waiting announced yet
    | WaitOne(cb: Cb)                                      // announced on the control block itself
    | AsleepOne(cb: Cb)
    | Recheck(cbs: seq<Cb>, i: nat, seen: nat)           // announced on __aio_fut, testing again
    | AsleepList(cbs: seq<Cb>, seen: nat)

  datatype State = State(
    err: map<Cb, Word>,
    fut: nat,                        // __aio_fut
    workers: map<Worker, Stage>,
    threads: map<Thread, Phase>)

  const Initial := State(map[], 0, map[], map[])

  datatype Label =
    | Submit(cb: Cb, w: Worker)
    | Store(w: Worker)
    | WakeErr(w: Worker)
    | SwapFut(w: Worker)
    | WakeFut(w: Worker)
    | Begin(t: Thread, cbs: seq<Cb>)
    | Look(t: Thread)
    | Announce(t: Thread)
    | Sleep(t: Thread)
    | GiveUp(t: Thread)              // timeout, signal or cancellation
    | Spurious(t: Thread)

  function At(s: State, t: Thread): Phase {
    if t in s.threads then s.threads[t] else Out
  }

  function Goto(s: State, t: Thread, p: Phase): State {
    s.(threads := s.threads[t := p])
  }

  /** aio_error(cb) != EINPROGRESS */
  predicate Complete(s: State, cb: Cb) {
    cb !in s.err || s.err[cb] == Result
  }

  predicate Asleep(p: Phase) {
    p.AsleepOne? || p.AsleepList?
  }

  function Again(p: Phase): Phase
    requires Asleep(p)
  {
    if p.AsleepOne? then Check([p.cb], 0) else Check(p.cbs, 0)
  }

  predicate Enabled(s: State, l: Label) {
    match l
    case Submit(cb, w) => Complete(s, cb) && w !in s.workers
    case Store(w) => w in s.workers && s.workers[w].Working? && !Complete(s, s.workers[w].cb)
    case WakeErr(w) => w in s.workers && s.workers[w].Stored?
    case SwapFut(w) => w in s.workers && s.workers[w].BeforeFut?
    case WakeFut(w) => w in s.workers && s.workers[w].FutWake?
    case Begin(t, cbs) => At(s, t).Out? && t != 0 && cbs != []
    case Look(t) => (At(s, t).Check? || At(s, t).Recheck?) && At(s, t).i < |At(s, t).cbs|
    case Announce(t) => At(s, t).Check? && At(s, t).i == |At(s, t).cbs| && At(s, t).cbs != []
    case Sleep(t) => At(s, t).WaitOne? || (At(s, t).Recheck? && At(s, t).i == |At(s, t).cbs|)
    case GiveUp(t) => Asleep(At(s, t))
    case Spurious(t) => Asleep(At(s, t))
  }

  function WakeOn(threads: map<Thread, Phase>, cb: Cb): map<Thread, Phase> {
    map t | t in threads :: if threads[t] == AsleepOne(cb) then Again(threads[t]) else threads[t]
  }

  function WakeList(threads: map<Thread, Phase>): map<Thread, Phase> {
    map t | t in threads :: if threads[t].AsleepList? then Again(threads[t]) else threads[t]
  }

  function Step(s: State, l: Label): State
    requires Enabled(s, l)
  {
    match l
    case Submit(cb, w) => s.(err := s.err[cb := InProgress], workers := s.workers[w := Working(cb)])
    case Store(w) =>
      var cb := s.workers[w].cb;
      s.(err := s.err[cb := Result], workers := s.workers[w := Stored(cb, s.err[cb] != InProgress)])
    case WakeErr(w) =>
      var cb := s.workers[w].cb;
      s.(workers := s.workers[w := BeforeFut(cb)],
         threads := if s.workers[w].wake then WakeOn(s.threads, cb) else s.threads)
    case SwapFut(w) =>
      s.(fut := 0, workers := if s.fut != 0 then s.workers[w := FutWake(s.workers[w].cb)] else s.workers - {w})
    case WakeFut(w) => s.(workers := s.workers - {w}, threads := WakeList(s.threads))
    case Begin(t, cbs) => Goto(s, t, Check(cbs, 0))
    case Look(t) =>
      var p := At(s, t);
      Goto(s, t, if Complete(s, p.cbs[p.i]) then Out else p.(i := p.i + 1))
    case Announce(t) =>
      var cbs := At(s, t).cbs;
      if |cbs| == 1 then
        var s' := Goto(s, t, WaitOne(cbs[0]));
        if cbs[0] in s.err && s.err[cbs[0]] == InProgress then s'.(err := s.err[cbs[0] := InProgressWaiters]) else s'
      else if s.fut == 0 then Goto(s, t, Recheck(cbs, 0, t)).(fut := t)
      else Goto(s, t, Recheck(cbs, 0, s.fut))
    case Sleep(t) =>
      var p := At(s, t);
      if p.WaitOne? then
        Goto(s, t, if p.cb in s.err && s.err[p.cb] == InProgressWaiters then AsleepOne(p.cb) else Check([p.cb], 0))
      else
        Goto(s, t, if s.fut == p.seen then AsleepList(p.cbs, p.seen) else Check(p.cbs, 0))
    case GiveUp(t) => Goto(s, t, Out)
    case Spurious(t) => Goto(s, t, Again(At(s, t)))
  }

  function Run(run: seq<Label>): Option<State> {
    if run == [] then Some(Initial)
    else
      var s := Run(run[..|run| - 1]);
      var l := run[|run| - 1];
      if s.Some? && Enabled(s.value, l) then Some(Step(s.value, l)) else None
  }

  /** Some worker has stored a result for cb with waiters announced and not woken them yet. */
  ghost predicate ErrWakePending(s: State, cb: Cb) {
    exists w :: w in s.workers && s.workers[w] == Stored(cb, true)
  }

  /** Some worker has stored a result for cb and not come to __aio_fut yet. */
  ghost predicate FutSwapPending(s: State, cb: Cb) {
    exists w :: w in s.workers && (s.workers[w] == BeforeFut(cb) || (s.workers[w].Stored? && s.workers[w].cb == cb))
  }

  /** Some worker has cleared __aio_fut and not woken its waiters yet. */
  ghost predicate FutWakePending(s: State) {
    exists w :: w in s.workers && s.workers[w].FutWake?
  }

  // ----- the single-control-block form, any number of threads

  ghost predicate SingleOk(s: State) {
    forall t :: At(s, t).AsleepOne? ==>
      var cb := At(s, t).cb;
      (cb in s.err && s.err[cb] == InProgressWaiters) || ErrWakePending(s, cb)
  }

  lemma SingleKept(s: State, l: Label)
    requires SingleOk(s) && Enabled(s, l)
    ensures SingleOk(Step(s, l))
  {
    var s' := Step(s, l);
    forall t | At(s', t).AsleepOne?
      ensures var cb := At(s', t).cb; (cb in s'.err && s'.err[cb] == InProgressWaiters) || ErrWakePending(s', cb)
    {
      var cb := At(s', t).cb;
      if At(s, t) == AsleepOne(cb) && !(cb in s.err && s.err[cb] == InProgressWaiters) {
        var w :| w in s.workers && s.workers[w] == Stored(cb, true);
        assert s'.workers[w] == Stored(cb, true);
      } else if l.Store? && s.workers[l.w].cb == cb {
        assert s'.workers[l.w] == Stored(cb, true);
      }
    }
  }

  // ----- the list form, when t is the only thread using it

  ghost predicate SoleLister(run: seq<Label>, t: Thread) {
    forall i :: 0 <= i < |run| && run[i].Begin? && |run[i].cbs| > 1 ==> run[i].t == t
  }

  /** Nobody but t ever announces itself on __aio_fut. */
  ghost predicate FutOwned(s: State, t: Thread) {
    && t != 0 && (s.fut == 0 || s.fut == t)
    && (forall u :: u != t ==> !Listing(At(s, u)))
  }

  /** While t tests again after announcing itself, a control block already
      tested that completes either clears __aio_fut or is about to. */
  ghost predicate RecheckOk(s: State, t: Thread) {
    var p := At(s, t);
    p.Recheck? ==>
      && p.seen == t && p.i <= |p.cbs|
      && forall k :: 0 <= k < p.i && Complete(s, p.cbs[k]) ==> s.fut == 0 || FutSwapPending(s, p.cbs[k])
  }

  ghost predicate SleepOk(s: State, t: Thread) {
    var p := At(s, t);
    p.AsleepList? ==>
      && (s.fut == t || FutWakePending(s))
      && forall k :: 0 <= k < |p.cbs| && Complete(s, p.cbs[k]) ==> FutWakePending(s) || FutSwapPending(s, p.cbs[k])
  }

  ghost predicate ListOk(s: State, t: Thread) {
    FutOwned(s, t) && RecheckOk(s, t) && SleepOk(s, t)
  }

  predicate Listing(p: Phase) {
    p.Recheck? || p.AsleepList? || (p.Check? && |p.cbs| > 1)
  }

  /** How a step moves the pending work of the workers. */
  lemma PendingAfter(s: State, l: Label, cb: Cb)
    requires Enabled(s, l)
    ensures
      var s' := Step(s, l);
      && (FutSwapPending(s, cb) ==> FutSwapPending(s', cb) || l.SwapFut?)
      && (FutWakePending(s) ==> FutWakePending(s') || l.WakeFut?)
      && (Complete(s', cb) && !Complete(s, cb) ==> FutSwapPending(s', cb))
      && (l.SwapFut? ==> s'.fut == 0 && (s.fut != 0 ==> FutWakePending(s')))
  {
    var s' := Step(s, l);
    if FutSwapPending(s, cb) && !l.SwapFut? {
      var w :| w in s.workers && (s.workers[w] == BeforeFut(cb) || (s.workers[w].Stored? && s.workers[w].cb == cb));
      assert s'.workers[w] == BeforeFut(cb) || (s'.workers[w].Stored? && s'.workers[w].cb == cb);
    }
    if FutWakePending(s) && !l.WakeFut? {
      var w :| w in s.workers && s.workers[w].FutWake?;
      assert s'.workers[w].FutWake?;
    }
    if Complete(s', cb) && !Complete(s, cb) {
      assert s'.workers[l.w].Stored? && s'.workers[l.w].cb == cb;
    }
    if l.SwapFut? && s.fut != 0 {
      assert s'.workers[l.w].FutWake?;
    }
  }

  lemma ListKept(s: State, l: Label, t: Thread)
    requires ListOk(s, t) && Enabled(s, l)
    requires l.Begin? && |l.cbs| > 1 ==> l.t == t
    ensures ListOk(Step(s, l), t)
  {
    hide FutSwapPending, FutWakePending;
    var s' := Step(s, l);
    assert FutOwned(s', t) by {
      forall u | u != t ensures !Listing(At(s', u)) {
        assert !Listing(At(s, u));
      }
      assert l.Announce? && l.t != t ==> !Listing(At(s, l.t));
    }
    var p := At(s', t);
    if p.Recheck? {
      forall k | 0 <= k < p.i && Complete(s', p.cbs[k]) ensures s'.fut == 0 || FutSwapPending(s', p.cbs[k]) {
        PendingAfter(s, l, p.cbs[k]);
      }
    }
    if p.AsleepList? {
      PendingAfter(s, l, 0);
      forall k | 0 <= k < |p.cbs| && Complete(s', p.cbs[k])
        ensures FutWakePending(s') || FutSwapPending(s', p.cbs[k])
      {
        PendingAfter(s, l, p.cbs[k]);
      }
    }
  }

  lemma InitialOk(t: Thread)
    requires t != 0
    ensures SingleOk(Initial) && ListOk(Initial, t)
  {}

  lemma {:induction false} SingleReachable(run: seq<Label>)
    requires Run(run).Some?
    ensures SingleOk(Run(run).value)
    decreases |run|
  {
    hide Enabled, Step;
    if run == [] {
      InitialOk(1);
    } else {
      var n := |run| - 1;
      SingleReachable(run[..n]);
      SingleKept(Run(run[..n]).value, run[n]);
    }
  }

  lemma {:induction false} ListReachable(run: seq<Label>, t: Thread)
    requires Run(run).Some? && t != 0 && SoleLister(run, t)
    ensures ListOk(Run(run).value, t)
    decreases |run|
  {
    hide Enabled, Step;
    if run == [] {
      InitialOk(t);
    } else {
      var n := |run| - 1;
      assert forall i :: 0 <= i < n ==> run[..n][i] == run[i];
      ListReachable(run[..n], t);
      ListKept(Run(run[..n]).value, run[n], t);
    }
  }

  // ----- when aio_suspend returns

  /** The control blocks of t's last call, from the calls alone. */
  function Listed(run: seq<Label>, t: Thread): seq<Cb> {
    if run == [] then []
    else
      var l := run[|run| - 1];
      if l.Begin? && l.t == t then l.cbs else Listed(run[..|run| - 1], t)
  }

  /** What a phase says the call was about. */
  function About(p: Phase): seq<Cb> {
    match p
    case Out => []
    case Check(cbs, _) => cbs
    case WaitOne(cb) => [cb]
    case AsleepOne(cb) => [cb]
    case Recheck(cbs, _, _) => cbs
    case AsleepList(cbs, _) => cbs
  }

  ghost predicate PhaseOk(p: Phase, cbs: seq<Cb>) {
    && (!p.Out? ==> About(p) == cbs && cbs != [])
    && (p.Check? || p.Recheck? ==> p.i <= |p.cbs|)
    && (p.Recheck? || p.AsleepList? ==> |p.cbs| > 1)
  }

  lemma PhaseStep(s: State, l: Label, t: Thread, cbs: seq<Cb>)
    requires Enabled(s, l) && PhaseOk(At(s, t), cbs)
    ensures PhaseOk(At(Step(s, l), t), if l.Begin? && l.t == t then l.cbs else cbs)
  {}

  /** A thread is always about the control blocks it was called with. */
  lemma {:induction false} PhaseTold(run: seq<Label>, t: Thread)
    requires Run(run).Some?
    ensures PhaseOk(At(Run(run).value, t), Listed(run, t))
    decreases |run|
  {
    hide Enabled, Step, PhaseOk;
    if run == [] {
      OutOk([]);
    } else {
      var n := |run| - 1;
      PhaseTold(run[..n], t);
      PhaseStep(Run(run[..n]).value, run[n], t, Listed(run[..n], t));
    }
  }

  lemma OutOk(cbs: seq<Cb>)
    ensures PhaseOk(At(Initial, 0), cbs) && forall t: Thread :: At(Initial, t) == Out
  {}

  /** A call ends exactly by giving up while asleep, or by finding one of its own
      control blocks complete. */
  lemma ReturnsExactly(run: seq<Label>, l: Label, t: Thread)
    requires Run(run).Some? && Enabled(Run(run).value, l) && !At(Run(run).value, t).Out?
    ensures
      var s := Run(run).value;
      var p := At(s, t);
      At(Step(s, l), t).Out? <==>
        l == GiveUp(t) ||
        (l == Look(t) && (p.Check? || p.Recheck?) && p.i < |Listed(run, t)| && Complete(s, Listed(run, t)[p.i]))
  {
    hide Run;
    PhaseTold(run, t);
  }

  /** So a call that did not give up returns only when an operation it lists is complete. */
  lemma ReturnMeansComplete(run: seq<Label>, l: Label, t: Thread) returns (cb: Cb)
    requires Run(run).Some? && Enabled(Run(run).value, l) && l != GiveUp(t)
    requires !At(Run(run).value, t).Out? && At(Step(Run(run).value, l), t).Out?
    ensures cb in Listed(run, t) && Complete(Run(run).value, cb)
  {
    hide Run, Enabled, Step, Listed;
    ReturnsExactly(run, l, t);
    cb := Listed(run, t)[At(Run(run).value, t).i];
  }

  /** Label i of run is t's last call, and control block m of it has been
      complete ever since. */
  ghost predicate CompleteSince(run: seq<Label>, t: Thread, i: nat, m: nat) {
    && i < |run| && run[i].Begin? && run[i].t == t && m < |run[i].cbs|
    && (forall k :: i < k < |run| ==> !(run[k].Begin? && run[k].t == t))
    && forall k :: i <= k <= |run| && Run(run[..k]).Some? ==> Complete(Run(run[..k]).value, run[i].cbs[m])
  }

  /** A call one of whose operations is complete never announces itself and
      never sleeps: it returns, or is still testing the blocks up to that one. */
  lemma {:induction false} CompleteNeverSleeps(run: seq<Label>, t: Thread, i: nat, m: nat)
    requires Run(run).Some? && CompleteSince(run, t, i, m)
    ensures
      var p := At(Run(run).value, t);
      p.Out? || (p.Check? && p.cbs == run[i].cbs && p.i <= m)
    decreases |run|
  {
    hide Enabled, Step;
    var n := |run| - 1;
    var s := Run(run[..n]).value;
    assert run[..|run|] == run;
    if i == n {
      BeginStep(s, run[n]);
    } else {
      assert forall k :: 0 <= k <= n ==> run[..n][..k] == run[..k];
      CompleteNeverSleeps(run[..n], t, i, m);
      assert Complete(s, run[i].cbs[m]);
      TestingStep(s, run[n], t, run[i].cbs, m);
    }
  }

  lemma BeginStep(s: State, l: Label)
    requires Enabled(s, l) && l.Begin?
    ensures At(Step(s, l), l.t) == Check(l.cbs, 0)
  {}

  lemma TestingStep(s: State, l: Label, t: Thread, cbs: seq<Cb>, m: nat)
    requires Enabled(s, l) && m < |cbs| && Complete(s, cbs[m]) && !(l.Begin? && l.t == t)
    requires var p := At(s, t); p.Out? || (p.Check? && p.cbs == cbs && p.i <= m)
    ensures var p := At(Step(s, l), t); p.Out? || (p.Check? && p.cbs == cbs && p.i <= m)
  {}

  /** What comes next for a caller in every reachable state: it tests every block
      in turn, then announces itself, then sleeps exactly if the futex word still
      has the value it announced or found. */
  lemma CallerSteps(run: seq<Label>, t: Thread)
    requires Run(run).Some?
    ensures
      var s := Run(run).value;
      var p := At(s, t);
      && (Enabled(s, Look(t)) <==> (p.Check? || p.Recheck?) && p.i < |Listed(run, t)|)
      && (Enabled(s, Announce(t)) <==> p.Check? && p.i == |Listed(run, t)|)
      && (Enabled(s, Sleep(t)) <==> p.WaitOne? || (p.Recheck? && p.i == |Listed(run, t)|))
      && (p.WaitOne? ==>
            (At(Step(s, Sleep(t)), t).AsleepOne? <==> p.cb in s.err && s.err[p.cb] == InProgressWaiters))
      && (p.Recheck? && p.i == |p.cbs| ==> (At(Step(s, Sleep(t)), t).AsleepList? <==> s.fut == p.seen))
  {
    hide Run;
    PhaseTold(run, t);
  }

  /** Announcing: for one control block, the waiters bit is set if the operation
      is pending; for a list, __aio_fut holds a tid, the caller's if there was none. */
  lemma AnnounceExactly(run: seq<Label>, t: Thread)
    requires Run(run).Some? && Enabled(Run(run).value, Announce(t))
    ensures
      var s := Run(run).value;
      var s' := Step(s, Announce(t));
      var cbs := Listed(run, t);
      && cbs != [] && s'.workers == s.workers
      && (|cbs| == 1 ==> At(s', t) == WaitOne(cbs[0]) && s'.fut == s.fut &&
                         (!Complete(s, cbs[0]) ==> s'.err == s.err[cbs[0] := InProgressWaiters]) &&
                         (Complete(s, cbs[0]) ==> s'.err == s.err))
      && (|cbs| > 1 ==> s'.err == s.err && s'.fut == (if s.fut == 0 then t else s.fut) &&
                        At(s', t) == Recheck(cbs, 0, s'.fut))
  {
    hide Run;
    PhaseTold(run, t);
    var s := Run(run).value;
    var cbs := Listed(run, t);
    if |cbs| == 1 && !Complete(s, cbs[0]) && s.err[cbs[0]] == InProgressWaiters {
      assert s.err[cbs[0] := InProgressWaiters] == s.err;
    }
  }

  /** Only a sleeping call times out, is interrupted or wakes spuriously. */
  lemma SleepersExactly(s: State, t: Thread)
    ensures Enabled(s, GiveUp(t)) <==> At(s, t).AsleepOne? || At(s, t).AsleepList?
    ensures Enabled(s, Spurious(t)) <==> At(s, t).AsleepOne? || At(s, t).AsleepList?
  {}

  /** A worker wakes the control block's waiters exactly if it found the waiters
      bit, and the list waiters exactly if it found a tid in __aio_fut; and it
      wakes all of them and nobody else. */
  lemma WorkerExactly(s: State, w: Worker, t: Thread)
    requires w in s.workers
    ensures
      var st := s.workers[w];
      && (Enabled(s, Store(w)) <==> st.Working? && !Complete(s, st.cb)) && (Enabled(s, WakeErr(w)) <==> st.Stored?)
      && (Enabled(s, SwapFut(w)) <==> st.BeforeFut?) && (Enabled(s, WakeFut(w)) <==> st.FutWake?)
      && (st.Working? && !Complete(s, st.cb) ==>
            Step(s, Store(w)).workers == s.workers[w := Stored(st.cb, s.err[st.cb] == InProgressWaiters)])
      && (st.Stored? ==>
            At(Step(s, WakeErr(w)), t) ==
              if st.wake && At(s, t) == AsleepOne(st.cb) then Check([st.cb], 0) else At(s, t))
      && (st.BeforeFut? ==> (w in Step(s, SwapFut(w)).workers <==> s.fut != 0) && Step(s, SwapFut(w)).fut == 0)
      && (st.FutWake? ==>
            At(Step(s, WakeFut(w)), t) == if At(s, t).AsleepList? then Check(At(s, t).cbs, 0) else At(s, t))
  {}

  /** The control block a worker was last created for. */
  function WorksFor(run: seq<Label>, w: Worker): Option<Cb> {
    if run == [] then None
    else
      var l := run[|run| - 1];
      if l.Submit? && l.w == w then Some(l.cb) else WorksFor(run[..|run| - 1], w)
  }

  lemma {:induction false} WorkerTold(run: seq<Label>, w: Worker)
    requires Run(run).Some? && w in Run(run).value.workers
    ensures WorksFor(run, w) == Some(Run(run).value.workers[w].cb)
    decreases |run|
  {
    hide Enabled, Step;
    var n := |run| - 1;
    WorkerStep(Run(run[..n]).value, run[n], w);
    if !(run[n].Submit? && run[n].w == w) { WorkerTold(run[..n], w); }
  }

  lemma WorkerStep(s: State, l: Label, w: Worker)
    requires Enabled(s, l) && w in Step(s, l).workers
    ensures if l.Submit? && l.w == w then Step(s, l).workers[w] == Working(l.cb)
            else w in s.workers && Step(s, l).workers[w].cb == s.workers[w].cb
  {}

  /** An operation becomes complete exactly when its worker stores the result,
      and pending exactly when it is submitted. */
  lemma CompletesExactly(run: seq<Label>, l: Label, cb: Cb)
    requires Run(run).Some? && Enabled(Run(run).value, l)
    ensures
      var s := Run(run).value;
      && (!Complete(s, cb) ==> (Complete(Step(s, l), cb) <==> l.Store? && WorksFor(run, l.w) == Some(cb)))
      && (Complete(s, cb) ==> (!Complete(Step(s, l), cb) <==> l.Submit? && l.cb == cb))
  {
    hide Run;
    if l.Store? { WorkerTold(run, l.w); }
  }

  // ----- no wakeup is lost

  /** A thread asleep on its only control block: if the operation is complete,
      a worker is between storing that result and waking the control block's waiters. */
  lemma NoLostWakeupSingle(run: seq<Label>, t: Thread)
    requires Run(run).Some? && At(Run(run).value, t).AsleepOne?
    ensures var s := Run(run).value; Complete(s, At(s, t).cb) ==> ErrWakePending(s, At(s, t).cb)
  {
    SingleReachable(run);
  }

  /** The only thread using the list form, asleep: if a listed operation is
      complete, a worker is between storing that result and clearing
      __aio_fut, or has cleared it and is about to wake its waiters. */
  lemma NoLostWakeupList(run: seq<Label>, t: Thread, k: nat)
    requires Run(run).Some? && t != 0 && SoleLister(run, t)
    requires var p := At(Run(run).value, t); p.AsleepList? && k < |p.cbs|
    ensures
      var s := Run(run).value;
      var cb := At(s, t).cbs[k];
      Complete(s, cb) ==> FutSwapPending(s, cb) || FutWakePending(s)
  {
    ListReachable(run, t);
  }

  // ----- with two threads using the list form, one can be lost

  /** Only threads of `listers` use the list form. */
  ghost predicate ListersWithin(run: seq<Label>, listers: set<Thread>) {
    forall i :: 0 <= i < |run| && run[i].Begin? && |run[i].cbs| > 1 ==> run[i].t in listers
  }

  /** A run to s in which only t and u use the list form. */
  ghost predicate Leads(run: seq<Label>, t: Thread, u: Thread, s: State) {
    Run(run) == Some(s) && ListersWithin(run, {t, u})
  }

  lemma Then(run: seq<Label>, t: Thread, u: Thread, s: State, l: Label) returns (run': seq<Label>, s': State)
    requires Leads(run, t, u, s) && Enabled(s, l) && (l.Begin? ==> l.t == t || l.t == u)
    ensures s' == Step(s, l) && Leads(run', t, u, s')
  {
    hide Enabled, Step, Run;
    run', s' := run + [l], Step(s, l);
    RunNext(run, l, s);
    assert forall i :: 0 <= i < |run| ==> run'[i] == run[i];
  }

  lemma RunNext(run: seq<Label>, l: Label, s: State)
    requires Run(run) == Some(s) && Enabled(s, l)
    ensures Run(run + [l]) == Some(Step(s, l))
  {
    hide Enabled, Step;
    assert (run + [l])[..|run|] == run;
  }

  const FOUR_RUNNING: map<Worker, Stage> := map[1 := Working(1), 2 := Working(2), 3 := Working(3), 4 := Working(4)]
  const THREE_RUNNING: map<Worker, Stage> := map[1 := Working(1), 2 := Working(2), 4 := Working(4)]
  const FOUR_PENDING: map<Cb, Word> := map[1 := InProgress, 2 := InProgress, 3 := InProgress, 4 := InProgress]
  const THIRD_DONE: map<Cb, Word> := map[1 := InProgress, 2 := InProgress, 3 := Result, 4 := InProgress]

  lemma FourSubmitted(t: Thread, u: Thread) returns (run: seq<Label>)
    ensures Leads(run, t, u, State(FOUR_PENDING, 0, FOUR_RUNNING, map[]))
  {
    NothingYet(t, u);
    hide Leads;
    var s: State;
    run, s := Then([], t, u, Initial, Submit(1, 1));
    run, s := Then(run, t, u, s, Submit(2, 2));
    run, s := Then(run, t, u, s, Submit(3, 3));
    run, s := Then(run, t, u, s, Submit(4, 4));
    assert s == State(FOUR_PENDING, 0, FOUR_RUNNING, map[]);
  }

  lemma NothingYet(t: Thread, u: Thread)
    ensures Leads([], t, u, Initial)
  {}

  /** Thread t announces itself for {1, 2}. */
  lemma FirstAnnounces(t: Thread, u: Thread) returns (run: seq<Label>)
    requires t != 0
    ensures Leads(run, t, u, State(FOUR_PENDING, t, FOUR_RUNNING, map[t := Recheck([1, 2], 0, t)]))
  {
    hide Leads;
    run := FourSubmitted(t, u);
    var s := State(FOUR_PENDING, 0, FOUR_RUNNING, map[]);
    run, s := Then(run, t, u, s, Begin(t, [1, 2]));
    run, s := Then(run, t, u, s, Look(t));
    run, s := Then(run, t, u, s, Look(t));
    run, s := Then(run, t, u, s, Announce(t));
    assert s == State(FOUR_PENDING, t, FOUR_RUNNING, map[t := Recheck([1, 2], 0, t)]);
  }

  /** It falls asleep. */
  lemma FirstSleeps(t: Thread, u: Thread) returns (run: seq<Label>)
    requires t != 0
    ensures Leads(run, t, u, State(FOUR_PENDING, t, FOUR_RUNNING, map[t := AsleepList([1, 2], t)]))
  {
    hide Leads;
    run := FirstAnnounces(t, u);
    var s := State(FOUR_PENDING, t, FOUR_RUNNING, map[t := Recheck([1, 2], 0, t)]);
    run, s := Then(run, t, u, s, Look(t));
    run, s := Then(run, t, u, s, Look(t));
    run, s := Then(run, t, u, s, Sleep(t));
    assert s == State(FOUR_PENDING, t, FOUR_RUNNING, map[t := AsleepList([1, 2], t)]);
  }

  function Both(t: Thread, p: Phase, u: Thread, q: Phase): map<Thread, Phase> {
    map[t := p, u := q]
  }

  /** Thread u, waiting for {3, 4}, finds t's tid in __aio_fut. */
  lemma SecondAnnounces(t: Thread, u: Thread) returns (run: seq<Label>)
    requires t != 0 && u != 0 && t != u
    ensures Leads(run, t, u, State(FOUR_PENDING, t, FOUR_RUNNING,
                                   Both(t, AsleepList([1, 2], t), u, Recheck([3, 4], 0, t))))
  {
    hide Leads;
    run := FirstSleeps(t, u);
    var s := State(FOUR_PENDING, t, FOUR_RUNNING, map[t := AsleepList([1, 2], t)]);
    run, s := Then(run, t, u, s, Begin(u, [3, 4]));
    run, s := Then(run, t, u, s, Look(u));
    run, s := Then(run, t, u, s, Look(u));
    run, s := Then(run, t, u, s, Announce(u));
    assert s == State(FOUR_PENDING, t, FOUR_RUNNING, Both(t, AsleepList([1, 2], t), u, Recheck([3, 4], 0, t)));
  }

  /** It tests again and finds nothing complete. */
  lemma SecondRechecks(t: Thread, u: Thread) returns (run: seq<Label>)
    requires t != 0 && u != 0 && t != u
    ensures Leads(run, t, u, State(FOUR_PENDING, t, FOUR_RUNNING,
                                   Both(t, AsleepList([1, 2], t), u, Recheck([3, 4], 2, t))))
  {
    hide Leads;
    run := SecondAnnounces(t, u);
    var s := State(FOUR_PENDING, t, FOUR_RUNNING, Both(t, AsleepList([1, 2], t), u, Recheck([3, 4], 0, t)));
    run, s := Then(run, t, u, s, Look(u));
    run, s := Then(run, t, u, s, Look(u));
    assert s == State(FOUR_PENDING, t, FOUR_RUNNING, Both(t, AsleepList([1, 2], t), u, Recheck([3, 4], 2, t)));
  }

  /** Operation 3 completes and its worker clears __aio_fut. */
  lemma ThirdSwaps(t: Thread, u: Thread) returns (run: seq<Label>)
    requires t != 0 && u != 0 && t != u
    ensures Leads(run, t, u, State(THIRD_DONE, 0, FOUR_RUNNING[3 := FutWake(3)],
                                   Both(t, AsleepList([1, 2], t), u, Recheck([3, 4], 2, t))))
  {
    hide Leads;
    run := SecondRechecks(t, u);
    var threads := Both(t, AsleepList([1, 2], t), u, Recheck([3, 4], 2, t));
    var s := State(FOUR_PENDING, t, FOUR_RUNNING, threads);
    run, s := Then(run, t, u, s, Store(3));
    run, s := Then(run, t, u, s, WakeErr(3));
    run, s := Then(run, t, u, s, SwapFut(3));
    assert s == State(THIRD_DONE, 0, FOUR_RUNNING[3 := FutWake(3)], threads);
  }

  /** The worker wakes t and is gone. */
  lemma ThirdCompletes(t: Thread, u: Thread) returns (run: seq<Label>)
    requires t != 0 && u != 0 && t != u
    ensures Leads(run, t, u, State(THIRD_DONE, 0, THREE_RUNNING, Both(t, Check([1, 2], 0), u, Recheck([3, 4], 2, t))))
  {
    hide Leads;
    run := ThirdSwaps(t, u);
    var s := State(THIRD_DONE, 0, FOUR_RUNNING[3 := FutWake(3)],
                   Both(t, AsleepList([1, 2], t), u, Recheck([3, 4], 2, t)));
    run, s := Then(run, t, u, s, WakeFut(3));
    assert s == State(THIRD_DONE, 0, THREE_RUNNING, Both(t, Check([1, 2], 0), u, Recheck([3, 4], 2, t)));
  }

  /** Thread t looks at its operations again. */
  lemma FirstLooksAgain(t: Thread, u: Thread) returns (run: seq<Label>)
    requires t != 0 && u != 0 && t != u
    ensures Leads(run, t, u, State(THIRD_DONE, 0, THREE_RUNNING, Both(t, Check([1, 2], 2), u, Recheck([3, 4], 2, t))))
  {
    hide Leads;
    run := ThirdCompletes(t, u);
    var s := State(THIRD_DONE, 0, THREE_RUNNING, Both(t, Check([1, 2], 0), u, Recheck([3, 4], 2, t)));
    run, s := Then(run, t, u, s, Look(t));
    run, s := Then(run, t, u, s, Look(t));
    assert s == State(THIRD_DONE, 0, THREE_RUNNING, Both(t, Check([1, 2], 2), u, Recheck([3, 4], 2, t)));
  }

  /** Thread t announces itself again; thread u then sees the value it expects
      and sleeps, although operation 3 is complete and no worker is left to wake it. */
  lemma TwoListersLoseWakeup(t: Thread, u: Thread) returns (run: seq<Label>)
    requires t != 0 && u != 0 && t != u
    ensures Run(run).Some? && ListersWithin(run, {t, u})
    ensures
      var s := Run(run).value;
      At(s, u) == AsleepList([3, 4], t) && Complete(s, 3) && !FutSwapPending(s, 3) && !FutWakePending(s)
  {
    hide Run, ListersWithin, Enabled, Step;
    run := SecondSleeps(t, u);
  }

  lemma SecondSleeps(t: Thread, u: Thread) returns (run: seq<Label>)
    requires t != 0 && u != 0 && t != u
    ensures Leads(run, t, u, State(THIRD_DONE, t, THREE_RUNNING,
                                   Both(t, Recheck([1, 2], 0, t), u, AsleepList([3, 4], t))))
  {
    hide Leads;
    run := FirstLooksAgain(t, u);
    var s := State(THIRD_DONE, 0, THREE_RUNNING, Both(t, Check([1, 2], 2), u, Recheck([3, 4], 2, t)));
    run, s := Then(run, t, u, s, Announce(t));
    run, s := Then(run, t, u, s, Sleep(u));
    assert s == State(THIRD_DONE, t, THREE_RUNNING, Both(t, Recheck([1, 2], 0, t), u, AsleepList([3, 4], t)));
  }

  /** If t sleeps in the list form and a listed operation is complete, a worker
      is still going to wake it. */
  ghost predicate WakeupOwed(s: State, t: Thread) {
    var p := At(s, t);
    p.AsleepList? ==>
      forall k :: 0 <= k < |p.cbs| && Complete(s, p.cbs[k]) ==> FutSwapPending(s, p.cbs[k]) || FutWakePending(s)
  }

  /** The list form loses no wakeup in any run in which only `listers` use it. */
  ghost predicate ListFormSafe(listers: set<Thread>) {
    forall run: seq<Label>, t: Thread ::
      Run(run).Some? && ListersWithin(run, listers) ==> WakeupOwed(Run(run).value, t)
  }

  /** Exactly when that is so: at most one thread uses the list form. */
  lemma ListFormSafeIff(listers: set<Thread>)
    requires 0 !in listers
    ensures ListFormSafe(listers) <==> |listers| <= 1
  {
    if |listers| <= 1 {
      OneListerSafe(listers);
    } else {
      var t :| t in listers;
      assert |listers - {t}| == |listers| - 1;
      var u :| u in listers - {t};
      var run := TwoListersLoseWakeup(t, u);
      hide Run;
      assert At(Run(run).value, u).cbs[0] == 3;
      assert ListersWithin(run, listers) && !WakeupOwed(Run(run).value, u);
    }
  }

  lemma OneListerSafe(listers: set<Thread>)
    requires 0 !in listers && |listers| <= 1
    ensures ListFormSafe(listers)
  {
    var only: Thread := 1;
    if listers != {} {
      only :| only in listers;
      assert |listers - {only}| == 0;
    }
    assert listers <= {only};
    forall run: seq<Label>, t: Thread | Run(run).Some? && ListersWithin(run, listers)
      ensures WakeupOwed(Run(run).value, t)
    {
      assert SoleLister(run, only);
      ListReachable(run, only);
      assert t != only ==> !Listing(At(Run(run).value, t));
    }
  }
}
