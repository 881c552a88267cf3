/** Lifetime of the per-descriptor queues of musl's POSIX AIO: `__aio_get_queue`,
    `__aio_unref_queue` and their callers `submit`, `io_thread_func`, `cleanup`
    and `aio_cancel`, as a machine over every interleaving. A step ends where a
    lock is taken or released. */
module AioQueues {
  import opened Options

  type Thread = nat
  type QueueId = nat   // the address calloc returned; may be reused after free
  type Fd = nat

  /** Indices into the four-level table. */
  type Slot = (nat, nat, nat, nat)

  /** fd>>24 and the three low bytes. */
  function SlotOf(fd: Fd): Slot {
    (fd / 0x100_0000, fd / 0x1_0000 % 256, fd / 256 % 256, fd % 256)
  }

  /** The split loses nothing, and for non-negative ints stays inside the allocated levels. */
  lemma SlotInjective(fd: Fd, fd': Fd)
    ensures SlotOf(fd) == SlotOf(fd') ==> fd == fd'
    ensures fd < 0x8000_0000 ==> var (a, b, c, d) := SlotOf(fd); a < 128 && b < 256 && c < 256 && d < 256
  {
    Recombine(fd);
    Recombine(fd');
  }

  lemma Recombine(fd: Fd)
    ensures var (a, b, c, d) := SlotOf(fd); fd == ((a * 256 + b) * 256 + c) * 256 + d
  {
    assert fd / 256 / 256 == fd / 0x1_0000;
    assert fd / 0x1_0000 / 256 == fd / 0x100_0000;
  }

  /** `owner` is the holder of q->lock. */
  datatype Queue = Queue(fd: Fd, ref: int, owner: Option<Thread>)

  /** Where a thread that knows a queue q stands. */
  datatype Stage =
    | Locking(need: bool, write: bool)    // map lock held, waiting for q->lock
    | Got(need: bool, write: bool)        // map lock and q->lock held
    | Locked(need: bool)                  // q->lock held, map lock released
    | Counted                             // submit, after ref++
    | Referenced                          // submit, q->lock released, before pthread_create
    | WorkerStart                         // worker waiting for q->lock (also in cond_wait)
    | WorkerLocked
    | WorkerIo
    | WantUnref                           // about to lock q for __aio_unref_queue
    | Unref                               // in __aio_unref_queue, q->lock held
    | LastRef                             // lock dropped, waiting for the write lock
    | LastWrite                           // write lock held, waiting for q->lock
    | LastBoth                            // both held again
    | Leaving                             // reference given up, q->lock still held
    | Detached                            // entry removed, q->lock still held
    | Freeing                             // about to free

  datatype Pc =
    | Idle
    | Reading(fd: Fd, need: bool)         // read lock held, about to look at the map
    | WantWrite(fd: Fd)                   // no entry, one is needed
    | Writing(fd: Fd)                     // write lock held
    | On(q: QueueId, at: Stage)

  datatype State = State(
    slots: map<Slot, QueueId>,      // the non-null entries of the table
    heap: map<QueueId, Queue>,
    cnt: int,                       // aio_fd_cnt
    writer: Option<Thread>,         // maplock
    readers: set<Thread>,
    pcs: map<Thread, Pc>)

  const Initial := State(map[], map[], 0, None, {}, map[])

  datatype Label =
    | BeginGet(t: Thread, fd: Fd, need: bool)
    | Found(t: Thread)
    | Miss(t: Thread)
    | Proceed(t: Thread)                       // a step that touches no shared state
    | TakeWrite(t: Thread)
    | Alloc(t: Thread, q: QueueId)
    | AllocFails(t: Thread)
    | LockQueue(t: Thread)
    | ReleaseMap(t: Thread)
    | AddRef(t: Thread)
    | UnlockQueue(t: Thread, to: Pc)
    | Create(t: Thread, worker: Thread)
    | UnrefFast(t: Thread)
    | Remove(t: Thread)
    | NotLast(t: Thread)
    | Free(t: Thread)

  function At(s: State, t: Thread): Pc {
    if t in s.pcs then s.pcs[t] else Idle
  }

  function Goto(s: State, t: Thread, pc: Pc): State {
    s.(pcs := s.pcs[t := pc])
  }

  function SetOwner(s: State, q: QueueId, owner: Option<Thread>): State
    requires q in s.heap
  {
    s.(heap := s.heap[q := s.heap[q].(owner := owner)])
  }

  function AddToRef(s: State, q: QueueId, delta: int): State
    requires q in s.heap
  {
    s.(heap := s.heap[q := s.heap[q].(ref := s.heap[q].ref + delta)])
  }

  /** fcntl rejects the descriptor, pthread_create fails, or a worker's I/O is over. */
  predicate CanProceed(pc: Pc) {
    pc.WantWrite? || (pc.On? && (pc.at.Referenced? || pc.at.WorkerIo?))
  }

  predicate WantsQueue(at: Stage) {
    at.Locking? || at.WorkerStart? || at.WantUnref? || at.LastWrite?
  }

  function WithQueue(at: Stage): Stage
    requires WantsQueue(at)
  {
    match at
    case Locking(need, write) => Got(need, write)
    case WorkerStart => WorkerLocked
    case WantUnref => Unref
    case LastWrite => LastBoth
  }

  /** Where a holder of q->lock may go by releasing it. */
  predicate Releases(ref: int, q: QueueId, at: Stage, to: Pc) {
    match at
    case Locked(need) => !need && to == Idle                                   // aio_cancel is done
    case Counted => to == On(q, Referenced)
    case WorkerLocked => to == On(q, WorkerStart) || to == On(q, WorkerIo)     // cond_wait, or start the I/O
    case Unref => ref <= 1 && to == On(q, LastRef)
    case Leaving => to == Idle
    case Detached => to == On(q, Freeing)
    case _ => false
  }

  /** The thread stands at stage `at` of some queue in the heap. */
  predicate Stands(s: State, t: Thread, at: Stage) {
    At(s, t).On? && At(s, t).at == at && At(s, t).q in s.heap
  }

  predicate Enabled(s: State, l: Label) {
    var pc := At(s, l.t);
    match l
    case BeginGet(t, fd, need) => pc == Idle && fd < 0x8000_0000 && s.writer == None
    case Found(t) => (pc.Reading? || pc.Writing?) && SlotOf(pc.fd) in s.slots
    case Miss(t) => pc.Reading? && SlotOf(pc.fd) !in s.slots
    case Proceed(t) => CanProceed(pc)
    case TakeWrite(t) => (pc.WantWrite? || (pc.On? && pc.at.LastRef?)) && s.writer == None && s.readers == {}
    case Alloc(t, q) => pc.Writing? && SlotOf(pc.fd) !in s.slots && q !in s.heap
    case AllocFails(t) => pc.Writing? && SlotOf(pc.fd) !in s.slots
    case LockQueue(t) => pc.On? && WantsQueue(pc.at) && pc.q in s.heap && s.heap[pc.q].owner == None
    case ReleaseMap(t) => pc.On? && pc.at.Got?
    case AddRef(t) => Stands(s, t, Locked(true))
    case UnlockQueue(t, to) => pc.On? && pc.q in s.heap && Releases(s.heap[pc.q].ref, pc.q, pc.at, to)
    case Create(t, w) => pc.On? && pc.at.Referenced? && w != t && At(s, w) == Idle
    case UnrefFast(t) => Stands(s, t, Unref) && s.heap[pc.q].ref > 1
    case Remove(t) => Stands(s, t, LastBoth) && s.heap[pc.q].ref == 1
    case NotLast(t) => Stands(s, t, LastBoth) && s.heap[pc.q].ref != 1
    case Free(t) => Stands(s, t, Freeing)
  }

  function Step(s: State, l: Label): State
    requires Enabled(s, l)
  {
    var pc := At(s, l.t);
    match l
    case BeginGet(t, fd, need) => Goto(s, t, Reading(fd, need)).(readers := s.readers + {t})
    case Found(t) =>
      var q := s.slots[SlotOf(pc.fd)];
      Goto(s, t, On(q, if pc.Reading? then Locking(pc.need, false) else Locking(true, true)))
    case Miss(t) => Goto(s, t, if pc.need then WantWrite(pc.fd) else Idle).(readers := s.readers - {t})
    case Proceed(t) => Goto(s, t, if pc.WantWrite? then Idle else On(pc.q, WantUnref))
    case TakeWrite(t) => Goto(s, t, if pc.WantWrite? then Writing(pc.fd) else On(pc.q, LastWrite)).(writer := Some(t))
    case Alloc(t, q) =>
      Goto(s, t, On(q, Locking(true, true)))
        .(heap := s.heap[q := Queue(pc.fd, 0, None)], slots := s.slots[SlotOf(pc.fd) := q], cnt := s.cnt + 1)
    case AllocFails(t) => Goto(s, t, Idle).(writer := None)
    case LockQueue(t) => Goto(SetOwner(s, pc.q, Some(t)), t, On(pc.q, WithQueue(pc.at)))
    case ReleaseMap(t) =>
      var s' := Goto(s, t, On(pc.q, Locked(pc.at.need)));
      if pc.at.write then s'.(writer := None) else s'.(readers := s.readers - {t})
    case AddRef(t) => Goto(AddToRef(s, pc.q, 1), t, On(pc.q, Counted))
    case UnlockQueue(t, to) => Goto(SetOwner(s, pc.q, None), t, to)
    case Create(t, w) => Goto(Goto(s, t, Idle), w, On(pc.q, WorkerStart))
    case UnrefFast(t) => Goto(AddToRef(s, pc.q, -1), t, On(pc.q, Leaving))
    case Remove(t) =>
      Goto(s, t, On(pc.q, Detached)).(writer := None, slots := s.slots - {SlotOf(s.heap[pc.q].fd)}, cnt := s.cnt - 1)
    case NotLast(t) => Goto(AddToRef(s, pc.q, -1), t, On(pc.q, Leaving)).(writer := None)
    case Free(t) => Goto(s, t, Idle).(heap := s.heap - {pc.q})
  }

  function Run(run: seq<Label>): Option<State> {
    if run == [] then Some(Initial)
    else
      var s := Run(run[..|run| - 1]);
      var l := run[|run| - 1];
      if s.Some? && Enabled(s.value, l) then Some(Step(s.value, l)) else None
  }

  // ----- what a program counter implies

  /** The thread may still lock, unlock or free q. */
  predicate Touches(pc: Pc, q: QueueId) {
    pc.On? && pc.q == q
  }

  predicate HoldsRead(pc: Pc) {
    pc.Reading? || (pc.On? && (pc.at.Locking? || pc.at.Got?) && !pc.at.write)
  }

  predicate HoldsWrite(pc: Pc) {
    pc.Writing? ||
    (pc.On? && (pc.at.LastWrite? || pc.at.LastBoth? || ((pc.at.Locking? || pc.at.Got?) && pc.at.write)))
  }

  predicate HoldsQueue(pc: Pc, q: QueueId) {
    Touches(pc, q) && LockedAt(pc.at)
  }

  predicate LockedAt(at: Stage) {
    at.Got? || at.Locked? || at.Counted? || at.WorkerLocked? || at.Unref? || at.LastBoth? || at.Leaving? || at.Detached?
  }

  predicate HoldsRef(pc: Pc, q: QueueId) {
    Touches(pc, q) && !pc.at.Locking? && !pc.at.Got? && !pc.at.Locked? && !pc.at.Leaving?
  }

  predicate Removing(pc: Pc, q: QueueId) {
    Touches(pc, q) && (pc.at.Detached? || pc.at.Freeing?)
  }

  /** The outstanding references to q. */
  function RefHolders(s: State, q: QueueId): set<Thread> {
    set t | t in s.pcs && HoldsRef(s.pcs[t], q)
  }

  // ----- the invariant

  /** The map lock is held by exactly the threads whose program counter says so. */
  ghost predicate MapLockOk(s: State) {
    && (forall t: Thread :: t in s.readers <==> HoldsRead(At(s, t)))
    && (forall t: Thread :: s.writer == Some(t) <==> HoldsWrite(At(s, t)))
    && (s.writer == None || s.readers == {})
  }

  /** So is each queue's lock. */
  ghost predicate QueueLockOk(s: State) {
    forall q: QueueId, t: Thread :: q in s.heap ==> (s.heap[q].owner == Some(t) <==> HoldsQueue(At(s, t), q))
  }

  /** `ref` counts the outstanding references. */
  ghost predicate RefsOk(s: State) {
    forall q :: q in s.heap ==> s.heap[q].ref == |RefHolders(s, q)|
  }

  /** No thread can still use a queue that has been freed. */
  ghost predicate NoDangling(s: State) {
    forall t :: At(s, t).On? ==> At(s, t).q in s.heap
  }

  ghost predicate InMap(s: State, q: QueueId) {
    q in s.heap && SlotOf(s.heap[q].fd) in s.slots && s.slots[SlotOf(s.heap[q].fd)] == q
  }

  /** Every table entry is a live queue for its own descriptor, and `aio_fd_cnt` counts the entries. */
  ghost predicate SlotsOk(s: State) {
    && (forall sl :: sl in s.slots ==> s.slots[sl] in s.heap && SlotOf(s.heap[s.slots[sl]].fd) == sl)
    && s.cnt == |s.slots|
  }

  /** A queue in the heap is in the table or about to be freed by one thread, which alone can reach it. */
  ghost predicate Placed(s: State) {
    && (forall q :: q in s.heap && !InMap(s, q) ==> exists t :: Removing(At(s, t), q))
    && (forall t: Thread, q: QueueId :: Removing(At(s, t), q) ==>
          !InMap(s, q) && forall u :: u != t ==> !Touches(At(s, u), q))
  }

  ghost predicate Inv(s: State) {
    MapLockOk(s) && QueueLockOk(s) && RefsOk(s) && NoDangling(s) && SlotsOk(s) && Placed(s)
  }

  // ----- every step keeps it

  /** Threads other than the one (or two) moving keep their place. */
  lemma OthersStay(s: State, l: Label)
    requires Enabled(s, l)
    ensures forall u :: u != l.t && (l.Create? ==> u != l.worker) ==> At(Step(s, l), u) == At(s, u)
    ensures l.Create? ==>
      At(s, l.t).On? && At(Step(s, l), l.worker) == On(At(s, l.t).q, WorkerStart) && At(Step(s, l), l.t) == Idle
  {}

  /** Which queues exist, and for which descriptors, after a step. */
  lemma HeapAfter(s: State, l: Label)
    requires Enabled(s, l)
    ensures
      var s' := Step(s, l);
      && (l.Alloc? ==> At(s, l.t).Writing? && At(s', l.t) == On(l.q, Locking(true, true)) &&
                       s'.heap.Keys == s.heap.Keys + {l.q} && l.q !in s.heap &&
                       s'.heap[l.q] == Queue(At(s, l.t).fd, 0, None))
      && (l.Free? ==> Stands(s, l.t, Freeing) && At(s', l.t) == Idle && s'.heap == s.heap - {At(s, l.t).q})
      && (!l.Alloc? && !l.Free? ==> s'.heap.Keys == s.heap.Keys)
      && (forall q :: q in s.heap && q in s'.heap ==> s'.heap[q].fd == s.heap[q].fd)
  {}

  /** Where a moving thread's queue comes from. */
  lemma QueueAfter(s: State, l: Label)
    requires Enabled(s, l) && At(Step(s, l), l.t).On?
    ensures
      var q := At(Step(s, l), l.t).q;
      || (At(s, l.t).On? && At(s, l.t).q == q)
      || (l.Found? && InSlot(s, q))
      || (l.Alloc? && q == l.q)
  {}

  predicate InSlot(s: State, q: QueueId) {
    exists sl :: sl in s.slots && s.slots[sl] == q
  }

  function Held(pc: Pc, q: QueueId): int {
    if HoldsRef(pc, q) then 1 else 0
  }

  /** Outside pthread_create, a step changes ref by what it changes of the moving thread's claim. */
  lemma RefAfter(s: State, l: Label, q: QueueId)
    requires Enabled(s, l) && q in s.heap && q in Step(s, l).heap
    ensures
      var delta := Step(s, l).heap[q].ref - s.heap[q].ref;
      delta == if l.Create? then 0 else Held(At(Step(s, l), l.t), q) - Held(At(s, l.t), q)
  {}

  lemma SlotsAfter(s: State, l: Label)
    requires Enabled(s, l)
    ensures
      var s' := Step(s, l);
      && (l.Alloc? ==> At(s, l.t).Writing? && SlotOf(At(s, l.t).fd) !in s.slots &&
                       s'.slots == s.slots[SlotOf(At(s, l.t).fd) := l.q] && s'.cnt == s.cnt + 1)
      && (l.Remove? ==> Stands(s, l.t, LastBoth) && s.heap[At(s, l.t).q].ref == 1 &&
                        At(s', l.t) == On(At(s, l.t).q, Detached) &&
                        s'.slots == s.slots - {SlotOf(s.heap[At(s, l.t).q].fd)} && s'.cnt == s.cnt - 1)
      && (!l.Alloc? && !l.Remove? ==> s'.slots == s.slots && s'.cnt == s.cnt)
  {}

  lemma MapLockKept(s: State, l: Label)
    requires MapLockOk(s) && Enabled(s, l)
    ensures MapLockOk(Step(s, l))
  {
    OthersStay(s, l);
    assert HoldsRead(At(s, l.t)) <==> l.t in s.readers;
    assert HoldsWrite(At(s, l.t)) <==> s.writer == Some(l.t);
  }

  lemma QueueLockKept(s: State, l: Label)
    requires QueueLockOk(s) && NoDangling(s) && Enabled(s, l)
    ensures QueueLockOk(Step(s, l))
  {
    OthersStay(s, l);
    var s' := Step(s, l);
    forall q: QueueId, t: Thread | q in s'.heap ensures s'.heap[q].owner == Some(t) <==> HoldsQueue(At(s', t), q) {
      if q in s.heap {
        assert s.heap[q].owner == Some(t) <==> HoldsQueue(At(s, t), q);
        assert s.heap[q].owner == Some(l.t) <==> HoldsQueue(At(s, l.t), q);
      }
    }
  }

  lemma NoDanglingKept(s: State, l: Label)
    requires NoDangling(s) && SlotsOk(s) && Placed(s) && Enabled(s, l)
    ensures NoDangling(Step(s, l))
  {
    OthersStay(s, l);
    HeapAfter(s, l);
    var s' := Step(s, l);
    var pc := At(s, l.t);
    forall u | At(s', u).On? ensures At(s', u).q in s'.heap {
      hide Step, Enabled;
      hide Placed, SlotOf;
      if u == l.t { QueueAfter(s, l); }
      if l.Free? { PlacedAt(s, l.t, pc.q); }
    }
  }

  lemma IdleHoldsNothing(q: QueueId)
    ensures !HoldsRef(Idle, q)
  {}

  /** Changing one program counter changes the reference holders by at most that thread. */
  lemma HoldersAfter(s: State, s': State, t: Thread, q: QueueId)
    requires forall u :: u != t ==> At(s', u) == At(s, u)
    ensures |RefHolders(s', q)| - |RefHolders(s, q)| == Held(At(s', t), q) - Held(At(s, t), q)
  {
    hide HoldsRef;
    IdleHoldsNothing(q);
    var a, b := RefHolders(s, q), RefHolders(s', q);
    forall u: Thread ensures (u in a <==> HoldsRef(At(s, u), q)) && (u in b <==> HoldsRef(At(s', u), q)) {}
    SizesDifferBy(a, b, t);
  }

  lemma SizesDifferBy(a: set<Thread>, b: set<Thread>, t: Thread)
    requires forall u: Thread :: u != t ==> (u in a <==> u in b)
    ensures |b| - |a| == (if t in b then 1 else 0) - (if t in a then 1 else 0)
  {
    assert a - {t} == b - {t};
    assert |a - {t}| == |a| - if t in a then 1 else 0;
    assert |b - {t}| == |b| - if t in b then 1 else 0;
  }

  lemma RefsKept(s: State, l: Label)
    requires RefsOk(s) && NoDangling(s) && Enabled(s, l)
    ensures RefsOk(Step(s, l))
  {
    OthersStay(s, l);
    HeapAfter(s, l);
    var s' := Step(s, l);
    forall q | q in s'.heap ensures s'.heap[q].ref == |RefHolders(s', q)| {
      hide Step, Enabled, RefHolders;
      if q in s.heap {
        RefAfter(s, l, q);
      } else {
        FreshHasNoHolders(s, q);
      }
      if l.Create? {
        CreateMovesReference(s, l, q);
      } else {
        HoldersAfter(s, s', l.t, q);
      }
    }
  }

  /** pthread_create hands the submitter's reference to the worker. */
  lemma CreateMovesReference(s: State, l: Label, q: QueueId)
    requires l.Create? && Enabled(s, l)
    ensures |RefHolders(Step(s, l), q)| == |RefHolders(s, q)|
  {
    var mid := Goto(s, l.t, Idle);
    HoldersAfter(s, mid, l.t, q);
    HoldersAfter(mid, Step(s, l), l.worker, q);
  }

  lemma FreshHasNoHolders(s: State, q: QueueId)
    requires NoDangling(s) && q !in s.heap
    ensures RefHolders(s, q) == {} && forall u :: !Touches(At(s, u), q)
  {
    forall t | t in s.pcs ensures !HoldsRef(s.pcs[t], q) {
      assert At(s, t) == s.pcs[t];
    }
  }

  /** The last-reference path: with both locks held and ref == 1, no other thread has any hold on q. */
  lemma LastHolder(s: State, t: Thread, q: QueueId, u: Thread)
    requires MapLockOk(s) && QueueLockOk(s) && RefsOk(s)
    requires At(s, t) == On(q, LastBoth) && q in s.heap && s.heap[q].ref == 1 && u != t
    ensures !Touches(At(s, u), q)
  {
    assert s.writer == Some(t) && s.heap[q].owner == Some(t);
    assert !HoldsRead(At(s, u)) && !HoldsWrite(At(s, u)) && !HoldsQueue(At(s, u), q);
    if HoldsRef(At(s, u), q) {
      TwoElements(RefHolders(s, q), t, u);
    }
  }

  lemma TwoElements(s: set<Thread>, a: Thread, b: Thread)
    requires a in s && b in s && a != b
    ensures |s| >= 2
  {
    assert b in s - {a};
    assert |s - {a}| >= 1;
  }

  lemma SlotsKept(s: State, l: Label)
    requires Inv(s) && Enabled(s, l)
    ensures SlotsOk(Step(s, l))
  {
    hide Step, Enabled, SlotOf, MapLockOk, QueueLockOk, RefsOk, Placed, NoDangling, At;
    HeapAfter(s, l);
    SlotsAfter(s, l);
    SlotsCounted(s, l);
    var s' := Step(s, l);
    if l.Remove? {
      RemovedWasPlaced(s, l);
    } else if l.Free? {
      PlacedAt(s, l.t, At(s, l.t).q);
    }
    forall sl | sl in s'.slots ensures s'.slots[sl] in s'.heap && SlotOf(s'.heap[s'.slots[sl]].fd) == sl {
      if sl in s.slots {
        assert s.slots[sl] in s.heap && SlotOf(s.heap[s.slots[sl]].fd) == sl;
        assert s'.slots[sl] == s.slots[sl];
      }
    }
  }

  lemma SlotsCounted(s: State, l: Label)
    requires Inv(s) && Enabled(s, l)
    ensures Step(s, l).cnt == |Step(s, l).slots|
  {
    hide Step, Enabled, SlotOf, MapLockOk, QueueLockOk, RefsOk, Placed, NoDangling, At;
    SlotsAfter(s, l);
    var pc := At(s, l.t);
    if l.Remove? {
      RemovedWasPlaced(s, l);
      SizeWithout(s.slots, SlotOf(s.heap[pc.q].fd));
    } else if l.Alloc? {
      SizeWith(s.slots, SlotOf(pc.fd), l.q);
    }
  }

  lemma SizeWithout(m: map<Slot, QueueId>, k: Slot)
    requires k in m
    ensures |m - {k}| == |m| - 1
  {
    assert (m - {k}).Keys == m.Keys - {k};
  }

  lemma SizeWith(m: map<Slot, QueueId>, k: Slot, q: QueueId)
    requires k !in m
    ensures |m[k := q]| == |m| + 1
  {
    assert m[k := q].Keys == m.Keys + {k};
  }

  /** A queue whose last reference is being dropped is still in the table. */
  lemma RemovedWasPlaced(s: State, l: Label)
    requires Inv(s) && l.Remove? && Enabled(s, l)
    ensures InMap(s, At(s, l.t).q) && forall u :: u != l.t ==> !Touches(At(s, u), At(s, l.t).q)
  {
    var q := At(s, l.t).q;
    forall u | u != l.t ensures !Touches(At(s, u), q) { LastHolder(s, l.t, q, u); }
  }

  /** A thread gets to free a queue only by removing it from the table first. */
  lemma RemovingAfter(s: State, l: Label, q: QueueId)
    requires Enabled(s, l)
    ensures Removing(At(Step(s, l), l.t), q) ==> Removing(At(s, l.t), q) || (l.Remove? && At(s, l.t) == On(q, LastBoth))
    ensures Removing(At(s, l.t), q) ==> Removing(At(Step(s, l), l.t), q) || l.Free?
    ensures l.Create? ==> At(s, l.t).On? && At(s, l.t).at.Referenced? && At(s, l.worker) == Idle
  {}

  lemma PlacedKept(s: State, l: Label)
    requires Inv(s) && Enabled(s, l)
    ensures Placed(Step(s, l))
  {
    hide Step, Enabled, InMap, Inv;
    var s' := Step(s, l);
    forall q | q in s'.heap && !InMap(s', q) ensures exists t :: Removing(At(s', t), q) {
      StillRemoved(s, l, q);
    }
    forall t: Thread, q: QueueId | Removing(At(s', t), q)
      ensures !InMap(s', q) && forall u :: u != t ==> !Touches(At(s', u), q)
    {
      RemovedAlone(s, l, t, q);
    }
  }

  lemma StillRemoved(s: State, l: Label, q: QueueId)
    requires Inv(s) && Enabled(s, l) && q in Step(s, l).heap && !InMap(Step(s, l), q)
    ensures exists t :: Removing(At(Step(s, l), t), q)
  {
    var s' := Step(s, l);
    hide Step, Enabled, SlotOf, InMap, MapLockOk, QueueLockOk, RefsOk, NoDangling, SlotsOk, At;
    LeavesTable(s, l, q);
    if InMap(s, q) {
      assert Removing(At(s', l.t), q);
    } else {
      OthersStay(s, l);
      RemovingAfter(s, l, q);
      var t :| Removing(At(s, t), q);
      assert Removing(At(s', t), q);
    }
  }

  /** Only `Remove` takes a queue out of the table and leaves it allocated. */
  lemma LeavesTable(s: State, l: Label, q: QueueId)
    requires Inv(s) && Enabled(s, l) && q in Step(s, l).heap && !InMap(Step(s, l), q)
    ensures q in s.heap
    ensures InMap(s, q) ==> Removing(At(Step(s, l), l.t), q)
    ensures l.Free? ==> !Touches(At(s, l.t), q)
  {
    hide Step, Enabled, SlotOf, MapLockOk, QueueLockOk, RefsOk, NoDangling, Placed, At;
    HeapAfter(s, l);
    SlotsAfter(s, l);
    if l.Remove? { RemovedWasPlaced(s, l); }
  }

  lemma RemovedAlone(s: State, l: Label, t: Thread, q: QueueId)
    requires Inv(s) && Enabled(s, l) && Removing(At(Step(s, l), t), q)
    ensures !InMap(Step(s, l), q) && forall u :: u != t ==> !Touches(At(Step(s, l), u), q)
  {
    hide Step, Enabled, SlotOf, MapLockOk, QueueLockOk, RefsOk, Placed, SlotsOk;
    var s' := Step(s, l);
    HeapAfter(s, l);
    SlotsAfter(s, l);
    OthersStay(s, l);
    RemovingAfter(s, l, q);
    if t == l.t && l.Remove? {
      RemovedWasPlaced(s, l);
    } else {
      assert Removing(At(s, t), q);
      PlacedAt(s, t, q);
      assert !InMap(s', q);
      forall u | u != t ensures !Touches(At(s', u), q) {
        if u == l.t && At(s', u).On? { QueueAfter(s, l); }
      }
    }
  }

  lemma PlacedAt(s: State, t: Thread, q: QueueId)
    requires Placed(s) && SlotsOk(s) && Removing(At(s, t), q)
    ensures !InMap(s, q) && !InSlot(s, q) && forall u :: u != t ==> !Touches(At(s, u), q)
  {
    hide SlotOf;
    forall sl | sl in s.slots ensures s.slots[sl] != q {
      assert InMap(s, s.slots[sl]);
    }
  }

  /** Every reachable state, over every schedule of any number of threads. */
  lemma {:induction false} Reachable(run: seq<Label>)
    requires Run(run).Some?
    ensures Inv(Run(run).value)
    decreases |run|
  {
    hide Step, Enabled;
    if run == [] {
      InitialOk();
    } else {
      var n := |run| - 1;
      Reachable(run[..n]);
      var s, l := Run(run[..n]).value, run[n];
      MapLockKept(s, l);
      QueueLockKept(s, l);
      RefsKept(s, l);
      NoDanglingKept(s, l);
      SlotsKept(s, l);
      PlacedKept(s, l);
    }
  }

  lemma InitialOk()
    ensures Inv(Initial)
  {}

  // ----- what the protocol promises

  /** `ref` is the number of outstanding references; every thread that can
      still reach a queue reaches an allocated one; and `aio_fd_cnt` is the
      number of table entries, each for its own descriptor. */
  lemma QueueLifetime(run: seq<Label>, t: Thread, q: QueueId)
    requires Run(run).Some?
    ensures
      var s := Run(run).value;
      && (q in s.heap ==> s.heap[q].ref == |RefHolders(s, q)|)
      && (Touches(At(s, t), q) ==> q in s.heap)
      && s.cnt == |s.slots|
      && (forall sl :: sl in s.slots ==> s.slots[sl] in s.heap && SlotOf(s.heap[s.slots[sl]].fd) == sl)
  {
    Reachable(run);
  }

  /** A descriptor never finds another descriptor's queue. */
  lemma FoundQueueMatches(run: seq<Label>, t: Thread)
    requires Run(run).Some? && Enabled(Run(run).value, Found(t))
    ensures
      var s := Run(run).value;
      var q := s.slots[SlotOf(At(s, t).fd)];
      q in s.heap && s.heap[q].fd == At(s, t).fd
  {
    hide SlotOf;
    Reachable(run);
    var s := Run(run).value;
    var q := s.slots[SlotOf(At(s, t).fd)];
    SlotInjective(At(s, t).fd, s.heap[q].fd);
  }

  /** At the moment a queue is freed, the freeing thread is the only one that
      can reach it and no table entry leads to it. */
  lemma FreeIsSafe(run: seq<Label>, t: Thread, u: Thread, fd: Fd)
    requires Run(run).Some? && At(Run(run).value, t).On? && At(Run(run).value, t).at.Freeing? && u != t
    ensures
      var s := Run(run).value;
      var q := At(s, t).q;
      && q in s.heap && s.heap[q].owner == None && Enabled(s, Free(t))
      && !Touches(At(s, u), q)
      && (SlotOf(fd) in s.slots ==> s.slots[SlotOf(fd)] != q)
  {
    hide SlotOf, Run, Step, RefsOk, MapLockOk;
    Reachable(run);
    var s := Run(run).value;
    var q := At(s, t).q;
    assert Removing(At(s, t), q) && !HoldsQueue(At(s, t), q);
    PlacedAt(s, t, q);
    assert forall w :: !HoldsQueue(At(s, w), q);
  }

  function Allocs(run: seq<Label>, q: QueueId): nat {
    if run == [] then 0
    else
      var l := run[|run| - 1];
      Allocs(run[..|run| - 1], q) + (if l.Alloc? && l.q == q then 1 else 0)
  }

  function Frees(run: seq<Label>, q: QueueId): nat {
    if run == [] then 0
    else
      var n := |run| - 1;
      var s := Run(run[..n]);
      Frees(run[..n], q) + (if run[n].Free? && s.Some? && At(s.value, run[n].t) == On(q, Freeing) then 1 else 0)
  }

  /** Each allocation is freed at most once, and exactly once when the queue is gone. */
  lemma {:induction false} FreedOnce(run: seq<Label>, q: QueueId)
    requires Run(run).Some?
    ensures Allocs(run, q) == Frees(run, q) + if q in Run(run).value.heap then 1 else 0
    decreases |run|
  {
    if run != [] {
      hide Step, Enabled;
      var n := |run| - 1;
      FreedOnce(run[..n], q);
      Reachable(run[..n]);
      HeapAfter(Run(run[..n]).value, run[n]);
    }
  }

  // ----- what a caller gets

  /** The descriptor of t's last call of __aio_get_queue, and whether it needs a queue. */
  function Asked(run: seq<Label>, t: Thread): Option<(Fd, bool)> {
    if run == [] then None
    else
      var l := run[|run| - 1];
      if l.BeginGet? && l.t == t then Some((l.fd, l.need)) else Asked(run[..|run| - 1], t)
  }

  /** From the call until the reference is taken, the thread is about the
      descriptor it asked for, and about a queue of that descriptor once it has one. */
  ghost predicate GetOk(s: State, t: Thread, asked: Option<(Fd, bool)>) {
    match At(s, t)
    case Idle => true
    case Reading(fd, need) => asked == Some((fd, need))
    case WantWrite(fd) => asked == Some((fd, true))
    case Writing(fd) => asked == Some((fd, true))
    case On(q, at) =>
      q in s.heap && (Getting(at) ==> asked.Some? && s.heap[q].fd == asked.value.0 && Needs(at) == asked.value.1)
  }

  predicate Getting(at: Stage) {
    at.Locking? || at.Got? || at.Locked? || at.Counted? || at.Referenced?
  }

  predicate Needs(at: Stage) {
    match at
    case Locking(need, _) => need
    case Got(need, _) => need
    case Locked(need) => need
    case _ => true
  }

  lemma GetStep(s: State, l: Label, t: Thread, asked: Option<(Fd, bool)>)
    requires Inv(s) && Enabled(s, l) && GetOk(s, t, asked)
    ensures GetOk(Step(s, l), t, if l.BeginGet? && l.t == t then Some((l.fd, l.need)) else asked)
  {
    hide SlotOf, Placed, MapLockOk, QueueLockOk, RefsOk;
    HeapAfter(s, l);
    NoDanglingKept(s, l);
    if l.t == t {
      OwnGetStep(s, l, asked);
    } else {
      hide Step, Enabled;
      OthersStay(s, l);
      assert l.Create? && t == l.worker ==> At(Step(s, l), t).at.WorkerStart?;
    }
  }

  lemma OwnGetStep(s: State, l: Label, asked: Option<(Fd, bool)>)
    requires Inv(s) && Enabled(s, l) && GetOk(s, l.t, asked)
    requires At(Step(s, l), l.t).On? ==> At(Step(s, l), l.t).q in Step(s, l).heap
    ensures GetOk(Step(s, l), l.t, if l.BeginGet? then Some((l.fd, l.need)) else asked)
  {
    hide Step, Enabled, SlotOf, Placed, MapLockOk, QueueLockOk, RefsOk, NoDangling, At;
    HeapAfter(s, l);
    GetPcAfter(s, l);
    if l.Found? {
      var fd := At(s, l.t).fd;
      SlotInjective(fd, s.heap[s.slots[SlotOf(fd)]].fd);
    }
  }

  /** Where a thread on its way to a queue comes from. */
  lemma GetPcAfter(s: State, l: Label)
    requires Enabled(s, l)
    ensures
      var pc, pc' := At(s, l.t), At(Step(s, l), l.t);
      && (l.Found? ==> (pc.Reading? || pc.Writing?) && SlotOf(pc.fd) in s.slots)
      && (l.BeginGet? ==> pc' == Reading(l.fd, l.need))
      && (pc'.Reading? ==> l.BeginGet?)
      && (pc'.WantWrite? ==> pc == Reading(pc'.fd, true))
      && (pc'.Writing? ==> pc == WantWrite(pc'.fd))
      && (pc'.On? && Getting(pc'.at) ==>
            || (l.Found? && pc'.q == s.slots[SlotOf(pc.fd)] && Needs(pc'.at) == (pc.Writing? || pc.need))
            || (l.Alloc? && pc'.q == l.q && Needs(pc'.at))
            || (pc.On? && pc.q == pc'.q && Getting(pc.at) && Needs(pc.at) == Needs(pc'.at)))
  {
    hide SlotOf;
  }

  lemma {:induction false} GetTold(run: seq<Label>, t: Thread)
    requires Run(run).Some?
    ensures GetOk(Run(run).value, t, Asked(run, t))
    decreases |run|
  {
    hide Enabled, Step, GetOk;
    if run == [] {
      NothingAsked(t);
    } else {
      var n := |run| - 1;
      GetTold(run[..n], t);
      Reachable(run[..n]);
      GetStep(Run(run[..n]).value, run[n], t, Asked(run[..n], t));
    }
  }

  lemma NothingAsked(t: Thread)
    ensures GetOk(Initial, t, None)
  {}

  /** A caller comes away with a queue of the descriptor it asked for, which it
      references exactly if it needs one. */
  lemma GotOwnQueue(run: seq<Label>, t: Thread, q: QueueId, need: bool)
    requires Run(run).Some? && At(Run(run).value, t) == On(q, Locked(need))
    ensures
      var s := Run(run).value;
      && q in s.heap && Asked(run, t) == Some((s.heap[q].fd, need))
      && (Enabled(s, AddRef(t)) <==> need) && (Enabled(s, UnlockQueue(t, Idle)) <==> !need)
  {
    hide Run, SlotOf;
    GetTold(run, t);
    Reachable(run);
  }

  /** A descriptor has an entry if some queue in the table is for it. */
  ghost predicate HasEntry(s: State, fd: Fd) {
    exists q :: q in s.heap && InMap(s, q) && s.heap[q].fd == fd
  }

  lemma EntryIffSlot(s: State, fd: Fd)
    requires SlotsOk(s)
    ensures SlotOf(fd) in s.slots <==> HasEntry(s, fd)
  {
    hide SlotOf;
    if SlotOf(fd) in s.slots {
      var q := s.slots[SlotOf(fd)];
      SlotInjective(fd, s.heap[q].fd);
      assert InMap(s, q);
    }
  }

  /** A missing entry leads to an allocation exactly for callers that need a
      queue: first the table is looked at under the read lock, */
  lemma MissLeadsToAlloc(run: seq<Label>, t: Thread, fd: Fd, need: bool)
    requires Run(run).Some? && At(Run(run).value, t).Reading? && Asked(run, t) == Some((fd, need))
    ensures
      var s := Run(run).value;
      && (Enabled(s, Found(t)) <==> HasEntry(s, fd)) && (Enabled(s, Miss(t)) <==> !HasEntry(s, fd))
      && (!HasEntry(s, fd) ==> At(Step(s, Miss(t)), t) == if need then WantWrite(fd) else Idle)
  {
    hide Run, SlotOf, Inv, HasEntry;
    GetTold(run, t);
    Reachable(run);
    EntryOf(Run(run).value, fd);
  }

  /** then only the map lock holds the caller up, and then it allocates exactly
      if there is still no entry. */
  lemma AllocExactly(run: seq<Label>, t: Thread, q: QueueId)
    requires Run(run).Some?
    ensures
      var s := Run(run).value;
      At(s, t).WantWrite? ==>
        (Enabled(s, TakeWrite(t)) <==> forall u :: !HoldsRead(At(s, u)) && !HoldsWrite(At(s, u)))
    ensures
      var s := Run(run).value;
      At(s, t).Writing? ==>
        Asked(run, t).Some? &&
        (Enabled(s, Alloc(t, q)) <==> !HasEntry(s, Asked(run, t).value.0) && q !in s.heap)
  {
    hide Run, SlotOf, Inv, HasEntry, HoldsRead, HoldsWrite;
    GetTold(run, t);
    Reachable(run);
    var s := Run(run).value;
    if At(s, t).Writing? { EntryOf(s, At(s, t).fd); }
    LocksFree(s);
  }

  lemma EntryOf(s: State, fd: Fd)
    requires Inv(s)
    ensures SlotOf(fd) in s.slots <==> HasEntry(s, fd)
  {
    hide SlotOf, HasEntry, MapLockOk, QueueLockOk, RefsOk, Placed, NoDangling;
    EntryIffSlot(s, fd);
  }

  lemma LocksFree(s: State)
    requires Inv(s)
    ensures s.writer == None && s.readers == {} <==> forall u :: !HoldsRead(At(s, u)) && !HoldsWrite(At(s, u))
  {
    if s.readers != {} { var u :| u in s.readers; assert HoldsRead(At(s, u)); }
    if s.writer.Some? { assert HoldsWrite(At(s, s.writer.value)); }
  }

  /** Giving up a reference: the queue's lock is the only thing waited for, and
      the entry is removed exactly by a thread that holds the only reference. */
  lemma UnrefExactly(run: seq<Label>, t: Thread, q: QueueId)
    requires Run(run).Some? && Touches(At(Run(run).value, t), q)
    ensures
      var s := Run(run).value;
      var at := At(s, t).at;
      && (Enabled(s, LockQueue(t)) <==> WantsQueue(at) && forall u :: !HoldsQueue(At(s, u), q))
      && (Enabled(s, UnrefFast(t)) <==> at.Unref? && |RefHolders(s, q)| > 1)
      && (Enabled(s, Remove(t)) <==> at.LastBoth? && RefHolders(s, q) == {t})
      && (Enabled(s, NotLast(t)) <==> at.LastBoth? && RefHolders(s, q) != {t})
      && (Enabled(s, Free(t)) <==> at.Freeing?)
  {
    hide Run, SlotOf, SlotsOk, Placed, MapLockOk;
    Reachable(run);
    var s := Run(run).value;
    QueueFree(s, q);
    if At(s, t).at.LastBoth? { OnlyHolder(s, t, q); }
  }

  /** Where a thread that stands at a queue may go next; apart from the locks,
      nothing holds it up. */
  lemma MovesExactly(run: seq<Label>, t: Thread, q: QueueId, w: Thread, to: Pc)
    requires Run(run).Some? && Touches(At(Run(run).value, t), q)
    ensures
      var s := Run(run).value;
      var at := At(s, t).at;
      && (Enabled(s, ReleaseMap(t)) <==> at.Got?)
      && (Enabled(s, Create(t, w)) <==> at.Referenced? && w != t && At(s, w) == Idle)
      && (Enabled(s, Proceed(t)) <==> at.Referenced? || at.WorkerIo?)
      && (Enabled(s, TakeWrite(t)) <==> at.LastRef? && forall u :: !HoldsRead(At(s, u)) && !HoldsWrite(At(s, u)))
      && (Enabled(s, UnlockQueue(t, to)) <==>
            || (at == Locked(false) && to == Idle)
            || (at.Counted? && to == On(q, Referenced))
            || (at.WorkerLocked? && (to == On(q, WorkerStart) || to == On(q, WorkerIo)))
            || (at.Unref? && to == On(q, LastRef) && |RefHolders(s, q)| <= 1)
            || (at.Leaving? && to == Idle)
            || (at.Detached? && to == On(q, Freeing)))
  {
    hide Run, SlotOf, SlotsOk, Placed, MapLockOk, HoldsRead, HoldsWrite;
    Reachable(run);
    LocksFree(Run(run).value);
  }

  lemma QueueFree(s: State, q: QueueId)
    requires QueueLockOk(s) && q in s.heap
    ensures s.heap[q].owner == None <==> forall u :: !HoldsQueue(At(s, u), q)
  {
    if s.heap[q].owner.Some? { assert HoldsQueue(At(s, s.heap[q].owner.value), q); }
  }

  lemma OnlyHolder(s: State, t: Thread, q: QueueId)
    requires At(s, t) == On(q, LastBoth)
    ensures |RefHolders(s, q)| == 1 <==> RefHolders(s, q) == {t}
  {
    var r := RefHolders(s, q);
    assert t in r;
    if |r| == 1 { forall u | u in r ensures u == t { if u != t { TwoElements(r, t, u); } } }
  }
}
