/** Ordering of operations on one descriptor in musl's POSIX AIO: the list of
    active workers that `io_thread_func` links into and `cleanup` unlinks from,
    and the wait for sequenced operations. */
module AioSequencing {
  import opened Options
  import opened Sequences

  /** A submitted operation together with its worker; 0 is the null pointer. */
  type Op = nat

  datatype Kind = Read | Write | Sync

  /** The neighbours of position k in the list that `s` describes. */
  ghost function After(s: seq<Op>, k: int): Op
    requires k >= -1
  {
    if k + 1 < |s| then s[k + 1] else 0
  }

  ghost function Before(s: seq<Op>, k: nat): Op
    requires k < |s|
  {
    if k > 0 then s[k - 1] else 0
  }

  ghost predicate NextOk(s: seq<Op>, next: map<Op, Op>) {
    forall k :: 0 <= k < |s| ==> s[k] in next && next[s[k]] == After(s, k)
  }

  ghost predicate PrevOk(s: seq<Op>, prev: map<Op, Op>) {
    forall k :: 0 <= k < |s| ==> s[k] in prev && prev[s[k]] == Before(s, k)
  }

  ghost function Without(s: seq<Op>, i: nat): (r: seq<Op>)
    requires i < |s|
    ensures |r| == |s| - 1 && forall k :: 0 <= k < |r| ==> r[k] == s[if k < i then k else k + 1]
  {
    s[..i] + s[i + 1..]
  }

  lemma Neighbours(s: seq<Op>, i: nat, next: map<Op, Op>, prev: map<Op, Op>)
    requires Distinct(s) && NextOk(s, next) && PrevOk(s, prev) && i < |s|
    requires forall k :: 0 <= k < |s| ==> s[k] != 0
    ensures s[i] in next && next[s[i]] == After(s, i) != s[i]
    ensures s[i] in prev && prev[s[i]] == Before(s, i) != s[i]
  {}

  lemma DistinctWithout(s: seq<Op>, i: nat)
    requires Distinct(s) && i < |s|
    ensures Distinct(Without(s, i))
  {}

  lemma NextWithout(s: seq<Op>, i: nat, next: map<Op, Op>)
    requires Distinct(s) && NextOk(s, next) && i < |s|
    ensures NextOk(Without(s, i), if i > 0 then next[s[i - 1] := next[s[i]]] else next)
  {
    hide Without, Distinct;
    var r := Without(s, i);
    var next' := if i > 0 then next[s[i - 1] := next[s[i]]] else next;
    forall k | 0 <= k < |r| ensures r[k] in next' && next'[r[k]] == After(r, k) { NextWithoutAt(s, i, next, k); }
  }

  lemma NextWithoutAt(s: seq<Op>, i: nat, next: map<Op, Op>, k: nat)
    requires Distinct(s) && NextOk(s, next) && i < |s| && k < |s| - 1
    ensures
      var next' := if i > 0 then next[s[i - 1] := next[s[i]]] else next;
      Without(s, i)[k] in next' && next'[Without(s, i)[k]] == After(Without(s, i), k)
  {
    hide Without;
    var m := if k < i then k else k + 1;
    assert next[s[m]] == After(s, m) && next[s[i]] == After(s, i);
    if i > 0 && m != i - 1 { assert s[m] != s[i - 1]; }
  }

  lemma PrevWithout(s: seq<Op>, i: nat, prev: map<Op, Op>)
    requires Distinct(s) && PrevOk(s, prev) && i < |s|
    ensures PrevOk(Without(s, i), if i + 1 < |s| then prev[s[i + 1] := prev[s[i]]] else prev)
  {
    var r := Without(s, i);
    var prev' := if i + 1 < |s| then prev[s[i + 1] := prev[s[i]]] else prev;
    forall k | 0 <= k < |r| ensures r[k] in prev' && prev'[r[k]] == Before(r, k) {
      var m := if k < i then k else k + 1;
      assert r[k] == s[m] && prev[s[m]] == Before(s, m);
      assert prev[s[i]] == Before(s, i);
    }
  }

  /** The pointers of a doubly linked list of s. */
  ghost predicate Threaded(head: Op, next: map<Op, Op>, prev: map<Op, Op>, s: seq<Op>) {
    && Distinct(s) && (forall k :: 0 <= k < |s| ==> s[k] != 0)
    && head == After(s, -1)
    && NextOk(s, next) && PrevOk(s, prev)
  }

  lemma LinkThreads(head: Op, next: map<Op, Op>, prev: map<Op, Op>, s: seq<Op>, at: Op)
    requires Threaded(head, next, prev, s) && at != 0 && at !in s
    ensures
      var prev' := if head != 0 then prev[at := 0][head := at] else prev[at := 0];
      Threaded(at, next[at := head], prev', [at] + s)
  {
    var t := [at] + s;
    var next' := next[at := head];
    var prev' := if head != 0 then prev[at := 0][head := at] else prev[at := 0];
    assert forall k :: 0 < k < |t| ==> t[k] == s[k - 1];
    forall k | 0 <= k < |t|
      ensures t[k] in next' && next'[t[k]] == After(t, k) && t[k] in prev' && prev'[t[k]] == Before(t, k)
    {
      if k > 0 { assert s[k - 1] != at && next[s[k - 1]] == After(s, k - 1) && prev[s[k - 1]] == Before(s, k - 1); }
    }
  }

  lemma UnlinkThreads(head: Op, next: map<Op, Op>, prev: map<Op, Op>, s: seq<Op>, i: nat)
    requires Threaded(head, next, prev, s) && i < |s|
    ensures s[i] in next && s[i] in prev
    ensures
      var at := s[i];
      var prev' := if next[at] != 0 then prev[next[at] := prev[at]] else prev;
      var next' := if prev[at] != 0 then next[prev[at] := next[at]] else next;
      && at in prev' && prev'[at] == prev[at]
      && Threaded(if prev[at] != 0 then head else next[at], next', prev', Remove(s, at))
  {
    hide NextOk, PrevOk, Distinct, Without, Remove;
    Neighbours(s, i, next, prev);
    NextWithout(s, i, next);
    PrevWithout(s, i, prev);
    DistinctWithout(s, i);
    RemoveAt(s, i);
  }

  /** The doubly linked list of active operations, newest first. */
  class WorkerList {
    var head: Op
    var next: map<Op, Op>
    var prev: map<Op, Op>
    ghost var contents: seq<Op>

    ghost predicate Valid()
      reads this
    {
      Threaded(head, next, prev, contents)
    }

    constructor ()
      ensures Valid() && contents == []
    {
      head, next, prev, contents := 0, map[], map[], [];
    }

    /** A worker links itself at the head. */
    method Link(at: Op)
      requires Valid() && at != 0 && at !in contents
      modifies this
      ensures Valid() && contents == [at] + old(contents)
    {
      hide Threaded;
      LinkThreads(head, next, prev, contents, at);
      prev := prev[at := 0];
      next := next[at := head];
      if head != 0 { prev := prev[head := at]; }
      head := at;
      contents := [at] + contents;
    }

    /** A finished worker takes itself out, wherever it is. */
    method Unlink(at: Op)
      requires Valid() && at in contents
      modifies this
      ensures Valid() && contents == Remove(old(contents), at)
    {
      hide Threaded, Remove;
      ghost var i :| 0 <= i < |contents| && contents[i] == at;
      UnlinkThreads(head, next, prev, contents, i);
      if next[at] != 0 { prev := prev[next[at] := prev[at]]; }
      if prev[at] != 0 { next := next[prev[at] := next[at]]; } else { head := next[at]; }
      contents := Remove(contents, at);
    }

    /** The scan for an earlier write: p walks from at.next until a write or the end. */
    method EarlierWrite(kind: map<Op, Kind>, at: Op) returns (found: bool)
      requires Valid() && at in contents
      requires forall k :: 0 <= k < |contents| ==> contents[k] in kind
      ensures found <==> HasWrite(kind, Earlier(contents, at))
    {
      hide Distinct, Earlier, NextOk, PrevOk, HasWrite;
      ghost var i :| 0 <= i < |contents| && contents[i] == at;
      EarlierAt(contents, i);
      NextAt(contents, next, i);
      var p := next[at];
      ghost var k := i + 1;
      while p != 0 && kind[p] != Write
        invariant i < k <= |contents|
        invariant p == After(contents, k - 1)
        invariant forall m :: i < m < k ==> kind[contents[m]] != Write
        decreases |contents| - k
      {
        NextAt(contents, next, k);
        p := next[p];
        k := k + 1;
      }
      found := p != 0;
      WriteAt(kind, contents, i + 1, k);
    }
  }

  /** The operations on op's `next` chain. */
  function Earlier(list: seq<Op>, op: Op): seq<Op> {
    if list == [] then [] else if list[0] == op then list[1..] else Earlier(list[1..], op)
  }

  function Remove(list: seq<Op>, op: Op): seq<Op> {
    if list == [] then [] else if list[0] == op then list[1..] else [list[0]] + Remove(list[1..], op)
  }

  predicate HasWrite(kind: map<Op, Kind>, list: seq<Op>) {
    exists k :: 0 <= k < |list| && list[k] in kind && kind[list[k]] == Write
  }

  lemma NextAt(s: seq<Op>, next: map<Op, Op>, k: nat)
    requires NextOk(s, next) && k < |s|
    ensures s[k] in next && next[s[k]] == After(s, k)
  {}

  /** A list without writes up to k has one exactly if there is one at or after k. */
  lemma WriteAt(kind: map<Op, Kind>, s: seq<Op>, i: nat, k: nat)
    requires i <= k <= |s| && forall m :: 0 <= m < |s| ==> s[m] in kind
    requires forall m :: i <= m < k ==> kind[s[m]] != Write
    ensures k < |s| && kind[s[k]] == Write ==> HasWrite(kind, s[i..])
    ensures k == |s| ==> !HasWrite(kind, s[i..])
  {
    var t := s[i..];
    assert forall m :: 0 <= m < |t| ==> t[m] == s[i + m];
    if k < |s| && kind[s[k]] == Write { assert t[k - i] in kind && kind[t[k - i]] == Write; }
  }

  lemma {:induction false} EarlierAt(s: seq<Op>, i: nat)
    requires Distinct(s) && i < |s|
    ensures Earlier(s, s[i]) == s[i + 1..]
  {
    if i > 0 {
      EarlierAt(s[1..], i - 1);
      assert s[1..][i..] == s[i + 1..];
    }
  }

  lemma WithoutTail(s: seq<Op>, i: nat)
    requires 0 < i < |s|
    ensures [s[0]] + Without(s[1..], i - 1) == Without(s, i)
  {}

  lemma {:induction false} RemoveAt(s: seq<Op>, i: nat)
    requires Distinct(s) && i < |s|
    ensures Remove(s, s[i]) == Without(s, i)
  {
    if i > 0 {
      RemoveAt(s[1..], i - 1);
      hide Distinct, Without;
      WithoutTail(s, i);
    }
  }

  // ----- the protocol over all interleavings of submitters and workers

  datatype Status =
    | Called      // the aio function has been entered
    | Created     // a worker thread exists
    | Posted      // the worker holds q->lock and has posted the semaphore
    | Linked      // the worker holds q->lock and is in the list
    | Waiting     // in pthread_cond_wait, lock released
    | Running     // lock released, performing the I/O
    | Done        // I/O over
    | Published   // __ret and __err stored in the control block
    | Removed     // out of the list

  function Rank(st: Status): nat {
    match st
    case Called => 0
    case Created => 1
    case Posted => 2
    case Linked => 3
    case Waiting => 3
    case Running => 4
    case Done => 5
    case Published => 6
    case Removed => 7
  }

  /** Linked into the list and not yet removed. */
  predicate InList(st: Status) {
    3 <= Rank(st) <= 6
  }

  /** The queue of one descriptor. `links` and `prior` only record history:
      every operation ever linked, in order, and for each call the operations
      whose calls had already returned. */
  datatype State = State(
    kind: map<Op, Kind>,
    status: map<Op, Status>,
    lock: Option<Op>,          // the worker holding q->lock
    active: seq<Op>,           // the list from q->head
    init: bool,
    append: bool,
    returned: set<Op>,
    links: seq<Op>,
    prior: map<Op, set<Op>>)

  const Initial := State(map[], map[], None, [], false, false, {}, [], map[])

  datatype Label =
    | Call(op: Op, kind: Kind)
    | Create(op: Op)
    | Post(op: Op)
    | Return(op: Op)
    | Link(op: Op, append: bool)   // append: what fcntl and lseek say, consulted if the queue is new
    | Wait(op: Op)
    | Wake(op: Op)
    | Start(op: Op)
    | Finish(op: Op)
    | Publish(op: Op)
    | Unlink(op: Op)
    | Destroy                      // the last reference is gone; a later call gets a fresh queue

  predicate Is(s: State, op: Op, st: Status) {
    op in s.status && s.status[op] == st
  }

  /** Operations that wait for earlier writes. */
  predicate Sequenced(s: State, op: Op) {
    op in s.kind && s.kind[op] != Read && (s.kind[op] != Write || s.append)
  }

  predicate MustWait(s: State, op: Op) {
    Sequenced(s, op) && HasWrite(s.kind, Earlier(s.active, op))
  }

  predicate Enabled(s: State, l: Label) {
    match l
    case Call(op, _) => op !in s.status
    case Create(op) => Is(s, op, Called)
    case Post(op) => Is(s, op, Created) && s.lock == None
    case Return(op) => op in s.status && Rank(s.status[op]) >= 2 && op !in s.returned
    case Link(op, _) => Is(s, op, Posted)
    case Wait(op) => Is(s, op, Linked) && MustWait(s, op)
    case Wake(op) => Is(s, op, Waiting) && s.lock == None
    case Start(op) => Is(s, op, Linked) && !MustWait(s, op)
    case Finish(op) => Is(s, op, Running)
    case Publish(op) => Is(s, op, Done)
    case Unlink(op) => Is(s, op, Published) && s.lock == None
    case Destroy => forall op :: op in s.status ==> s.status[op].Called? || s.status[op].Removed?
  }

  function Move(s: State, op: Op, st: Status): State {
    s.(status := s.status[op := st])
  }

  function Step(s: State, l: Label): State
    requires Enabled(s, l)
  {
    match l
    case Call(op, kind) =>
      Move(s, op, Called).(kind := s.kind[op := kind], prior := s.prior[op := s.returned])
    case Create(op) => Move(s, op, Created)
    case Post(op) => Move(s, op, Posted).(lock := Some(op))
    case Return(op) => s.(returned := s.returned + {op})
    case Link(op, append) =>
      Move(s, op, Linked).(active := [op] + s.active, links := s.links + [op],
                           init := true, append := if s.init then s.append else append)
    case Wait(op) => Move(s, op, Waiting).(lock := None)
    case Wake(op) => Move(s, op, Linked).(lock := Some(op))
    case Start(op) => Move(s, op, Running).(lock := None)
    case Finish(op) => Move(s, op, Done)
    case Publish(op) => Move(s, op, Published)
    case Unlink(op) => Move(s, op, Removed).(active := Remove(s.active, op))
    case Destroy => s.(init := false, append := false)
  }

  function Run(run: seq<Label>): Option<State> {
    if run == [] then Some(Initial)
    else
      var s := Run(run[..|run| - 1]);
      var l := run[|run| - 1];
      if s.Some? && Enabled(s.value, l) then Some(Step(s.value, l)) else None
  }

  /** Those of `links` that are in the list, latest first. */
  function Alive(links: seq<Op>, status: map<Op, Status>): seq<Op> {
    if links == [] then []
    else
      var n := |links| - 1;
      (if links[n] in status && InList(status[links[n]]) then [links[n]] else []) + Alive(links[..n], status)
  }

  // ----- the invariant

  ghost predicate LockOk(s: State) {
    && s.kind.Keys == s.status.Keys == s.prior.Keys
    && (s.lock.Some? ==> s.lock.value in s.status)
    && (forall op :: op in s.status ==> (s.lock == Some(op) <==> HoldsLock(s.status[op])))
    && (forall op :: op in s.returned ==> op in s.status && Rank(s.status[op]) >= 2)
  }

  ghost predicate ListOk(s: State) {
    && Distinct(s.links)
    && (forall op :: op in s.links <==> op in s.status && Rank(s.status[op]) >= 3)
    && s.active == Alive(s.links, s.status)
  }

  ghost predicate LinkedBefore(links: seq<Op>, a: Op, b: Op) {
    exists i, j :: 0 <= i < j < |links| && links[i] == a && links[j] == b
  }

  /** A call that returned before another began is past posting once the other posts, and linked before it. */
  ghost predicate PriorOk(s: State) {
    forall a, b :: b in s.prior && a in s.prior[b] ==> PriorPairOk(s, a, b)
  }

  ghost predicate PriorPairOk(s: State, a: Op, b: Op) {
    && a in s.returned && a != b && b in s.status
    && (Rank(s.status[b]) >= 2 ==> a in s.links)
    && (b in s.links ==> LinkedBefore(s.links, a, b))
  }

  ghost predicate Inv(s: State) {
    LockOk(s) && ListOk(s) && PriorOk(s)
  }

  lemma {:induction false} AliveUnaffected(links: seq<Op>, status: map<Op, Status>, status': map<Op, Status>)
    requires forall k :: 0 <= k < |links| ==>
      ((links[k] in status && InList(status[links[k]])) <==> (links[k] in status' && InList(status'[links[k]])))
    ensures Alive(links, status) == Alive(links, status')
  {
    if links != [] { AliveUnaffected(links[..|links| - 1], status, status'); }
  }

  lemma {:induction false} AliveMembers(links: seq<Op>, status: map<Op, Status>)
    ensures forall x :: x in Alive(links, status) ==> x in links && x in status && InList(status[x])
    ensures forall x :: x in links && x in status && InList(status[x]) ==> x in Alive(links, status)
  {
    if links != [] {
      var n := |links| - 1;
      AliveMembers(links[..n], status);
      assert links == links[..n] + [links[n]];
    }
  }

  lemma AliveLast(links: seq<Op>, status: map<Op, Status>)
    requires links != []
    ensures
      var n := |links| - 1;
      Alive(links, status) ==
      if links[n] in status && InList(status[links[n]]) then [links[n]] + Alive(links[..n], status)
      else Alive(links[..n], status)
  {}

  lemma {:induction false} AliveRemoved(links: seq<Op>, status: map<Op, Status>, op: Op)
    requires Distinct(links) && op in links && op in status && InList(status[op])
    ensures Alive(links, status[op := Removed]) == Remove(Alive(links, status), op)
  {
    hide Alive, Remove;
    var n := |links| - 1;
    var st' := status[op := Removed];
    AliveLast(links, status);
    AliveLast(links, st');
    var rest := Alive(links[..n], status);
    RemoveOfCons(links[n], rest, op);
    if links[n] == op {
      AliveUnaffected(links[..n], status, st');
    } else {
      assert links == links[..n] + [links[n]];
      AliveRemoved(links[..n], status, op);
    }
  }

  lemma RemoveOfCons(x: Op, rest: seq<Op>, op: Op)
    ensures Remove([x] + rest, op) == if x == op then rest else [x] + Remove(rest, op)
  {
    assert ([x] + rest)[1..] == rest;
  }

  /** The chain behind an operation is what was linked before it and is still active. */
  lemma {:induction false} EarlierIsAlive(links: seq<Op>, status: map<Op, Status>, k: nat)
    requires Distinct(links) && k < |links| && links[k] in status && InList(status[links[k]])
    ensures Earlier(Alive(links, status), links[k]) == Alive(links[..k], status)
  {
    hide Alive, InList, Earlier;
    var n := |links| - 1;
    AliveLast(links, status);
    EarlierOfCons(links[n], Alive(links[..n], status), links[k]);
    if k < n {
      EarlierIsAlive(links[..n], status, k);
      assert links[..n][..k] == links[..k];
    }
  }

  lemma EarlierOfCons(x: Op, rest: seq<Op>, op: Op)
    ensures Earlier([x] + rest, op) == if x == op then rest else Earlier(rest, op)
  {
    assert ([x] + rest)[1..] == rest;
  }

  // ----- every step keeps it

  predicate HoldsLock(st: Status) {
    st.Posted? || st.Linked?
  }

  /** The status a step gives its operation. */
  function Target(l: Label): Status
    requires !l.Return? && !l.Destroy?
  {
    match l
    case Call(_, _) => Called
    case Create(_) => Created
    case Post(_) => Posted
    case Link(_, _) => Linked
    case Wait(_) => Waiting
    case Wake(_) => Linked
    case Start(_) => Running
    case Finish(_) => Done
    case Publish(_) => Published
    case Unlink(_) => Removed
  }

  /** A step changes at most its own operation's status, and only forwards. */
  lemma StatusStep(s: State, l: Label)
    requires Enabled(s, l)
    ensures Step(s, l).status == if l.Return? || l.Destroy? then s.status else s.status[l.op := Target(l)]
    ensures l.Call? ==> l.op !in s.status
    ensures !l.Return? && !l.Destroy? && !l.Call? ==> l.op in s.status && Rank(s.status[l.op]) <= Rank(Target(l))
    ensures l.Post? ==> s.lock == None
    ensures !l.Return? && !l.Destroy? && !l.Call? && Rank(s.status[l.op]) < 2 <= Rank(Target(l)) ==> l.Post?
    ensures !l.Return? && !l.Destroy? && !l.Call? && Rank(s.status[l.op]) < 3 <= Rank(Target(l)) ==> l.Link?
  {
    hide MustWait, Remove;
  }

  /** What a step does to one operation's status. */
  lemma StatusAfter(s: State, l: Label, op: Op)
    requires Enabled(s, l)
    ensures
      var s' := Step(s, l);
      && (op in s.status || (l.Call? && op == l.op) <==> op in s'.status)
      && (op in s.status ==> Rank(s.status[op]) <= Rank(s'.status[op]))
      && (op in s.status && (l.Destroy? || op != l.op) ==> s'.status[op] == s.status[op])
      && (op in s'.status && op !in s.status ==> s'.status[op] == Called)
  {
    hide Step, Enabled;
    StatusStep(s, l);
  }

  lemma LockAfter(s: State, l: Label)
    requires Enabled(s, l) && LockOk(s)
    ensures
      var s' := Step(s, l);
      && s'.kind.Keys == s'.status.Keys == s'.prior.Keys
      && s'.lock == (if l.Destroy? || l.op !in s.status then s.lock
                     else if HoldsLock(s'.status[l.op]) then Some(l.op)
                     else if HoldsLock(s.status[l.op]) then None
                     else s.lock)
      && (!l.Destroy? && l.op in s.status && !HoldsLock(s.status[l.op]) && HoldsLock(s'.status[l.op]) ==>
            s.lock == None)
      && s'.returned == (if l.Return? then s.returned + {l.op} else s.returned)
      && (l.Return? ==> l.op in s.status && Rank(s.status[l.op]) >= 2)
  {
    hide MustWait, Remove;
  }

  lemma LockKept(s: State, l: Label)
    requires Inv(s) && Enabled(s, l)
    ensures LockOk(Step(s, l))
  {
    hide PriorOk, ListOk, Step, Enabled;
    LockAfter(s, l);
    forall op: Op ensures op in s.status ==> op in Step(s, l).status { StatusAfter(s, l, op); }
    forall op | op in Step(s, l).status
      ensures Step(s, l).lock == Some(op) <==> HoldsLock(Step(s, l).status[op])
    {
      StatusAfter(s, l, op);
    }
    forall op | op in Step(s, l).returned ensures op in Step(s, l).status && Rank(Step(s, l).status[op]) >= 2 {
      StatusAfter(s, l, op);
    }
  }

  lemma ListKept(s: State, l: Label)
    requires Inv(s) && Enabled(s, l)
    ensures ListOk(Step(s, l))
  {
    hide PriorOk, LockOk, Step, Enabled, Alive, Remove, Distinct;
    var s' := Step(s, l);
    StatusStep(s, l);
    ListStep(s, l);
    if l.Link? {
      LinkKeeps(s, l);
    } else if l.Unlink? {
      AliveRemoved(s.links, s.status, l.op);
    } else {
      AliveUnaffected(s.links, s.status, s'.status);
    }
  }

  /** What a step does to the list, and to the history of linking. */
  lemma ListStep(s: State, l: Label)
    requires Enabled(s, l)
    ensures Step(s, l).links == if l.Link? then s.links + [l.op] else s.links
    ensures !l.Link? ==> Step(s, l).active == if l.Unlink? then Remove(s.active, l.op) else s.active
    ensures l.Link? ==> Step(s, l).active == [l.op] + s.active && Is(s, l.op, Posted)
    ensures l.Unlink? ==> Is(s, l.op, Published)
  {
    hide MustWait, Remove;
  }

  lemma LinkKeeps(s: State, l: Label)
    requires ListOk(s) && l.Link? && Enabled(s, l)
    ensures ListOk(Step(s, l))
  {
    hide Alive, Step, Enabled, Rank, Distinct;
    StatusStep(s, l);
    ListStep(s, l);
    RanksOfLink();
    LinkedAppend(s.links, s.status, l.op);
    LinkedAlive(s.links, s.status, l.op);
  }

  /** Exactly the operations of rank 3 and more have been linked. */
  lemma LinkedAppend(links: seq<Op>, status: map<Op, Status>, op: Op)
    requires Distinct(links) && op in status && Rank(status[op]) < 3
    requires forall x :: x in links <==> x in status && Rank(status[x]) >= 3
    ensures
      var links', status' := links + [op], status[op := Linked];
      Distinct(links') && forall x :: x in links' <==> x in status' && Rank(status'[x]) >= 3
  {
    hide Rank;
    RanksOfLink();
    assert op !in links;
    assert forall x :: x in links + [op] <==> x in links || x == op;
  }

  lemma LinkedAlive(links: seq<Op>, status: map<Op, Status>, op: Op)
    requires op !in links
    ensures Alive(links + [op], status[op := Linked]) == [op] + Alive(links, status)
  {
    hide Alive;
    assert (links + [op])[..|links|] == links;
    AliveLast(links + [op], status[op := Linked]);
    AliveUnaffected(links, status, status[op := Linked]);
  }

  lemma RanksOfLink()
    ensures Rank(Posted) == 2 && Rank(Linked) == 3
  {}

  lemma PriorKept(s: State, l: Label)
    requires Inv(s) && Enabled(s, l)
    ensures PriorOk(Step(s, l))
  {
    hide PriorPairOk, Step, Enabled, LockOk, ListOk;
    var s' := Step(s, l);
    forall a, b | b in s'.prior && a in s'.prior[b] ensures PriorPairOk(s', a, b) { PriorPairKept(s, l, a, b); }
  }

  lemma PriorPairKept(s: State, l: Label, a: Op, b: Op)
    requires Inv(s) && Enabled(s, l)
    requires var s' := Step(s, l); b in s'.prior && a in s'.prior[b]
    ensures PriorPairOk(Step(s, l), a, b)
  {
    hide Alive, LinkedBefore, Step, Enabled, Distinct, HoldsLock;
    LockAfter(s, l);
    LinksAfter(s, l);
    StatusAfter(s, l, b);
    PriorStep(s, l);
    if l.Link? {
      LinkedBeforeGrows(s.links, l.op, a, b);
      assert b in s.links + [l.op] ==> b in s.links || b == l.op;
    }
  }

  /** Only Link extends the history, and a worker posts only when no other is between posting and linking. */
  lemma LinksAfter(s: State, l: Label)
    requires Enabled(s, l) && Inv(s)
    ensures
      var s' := Step(s, l);
      && s'.links == (if l.Link? then s.links + [l.op] else s.links)
      && (l.Link? ==> Is(s, l.op, Posted))
      && (forall op :: op in s.status && op in s'.status && Rank(s.status[op]) < 2 <= Rank(s'.status[op]) ==>
            forall x :: x in s.returned ==> x in s.links)
  {
    LinksStep(s, l);
    hide Step, Enabled, Alive, PriorOk;
    StatusStep(s, l);
  }

  lemma LinksStep(s: State, l: Label)
    requires Enabled(s, l)
    ensures Step(s, l).links == if l.Link? then s.links + [l.op] else s.links
    ensures l.Link? ==> Is(s, l.op, Posted)
  {
    hide MustWait, Remove;
  }

  lemma LinkedBeforeGrows(links: seq<Op>, x: Op, a: Op, b: Op)
    ensures LinkedBefore(links, a, b) ==> LinkedBefore(links + [x], a, b)
    ensures a in links ==> LinkedBefore(links + [x], a, x)
  {
    var links' := links + [x];
    if LinkedBefore(links, a, b) {
      var i, j :| 0 <= i < j < |links| && links[i] == a && links[j] == b;
      assert links'[i] == a && links'[j] == b;
    }
    if a in links {
      var i :| 0 <= i < |links| && links[i] == a;
      assert links'[i] == a && links'[|links|] == x;
    }
  }

  lemma {:induction false} Reachable(run: seq<Label>)
    requires Run(run).Some?
    ensures Inv(Run(run).value)
    decreases |run|
  {
    hide Enabled, Step;
    if run == [] {
      InitialOk();
    } else {
      var n := |run| - 1;
      Reachable(run[..n]);
      var s, l := Run(run[..n]).value, run[n];
      LockKept(s, l);
      ListKept(s, l);
      PriorKept(s, l);
    }
  }

  lemma InitialOk()
    ensures Inv(Initial)
  {}

  // ----- what the protocol promises

  /** A worker's `next` chain is exactly the still-active operations queued before it. */
  lemma ChainIsEarlierActive(run: seq<Label>, k: nat)
    requires Run(run).Some? && k < |Run(run).value.links|
    requires var s := Run(run).value; s.links[k] in s.active
    ensures
      var s := Run(run).value;
      forall x :: x in Earlier(s.active, s.links[k]) <==> x in s.links[..k] && x in s.active
  {
    hide Run, Alive;
    Reachable(run);
    var s := Run(run).value;
    AliveMembers(s.links, s.status);
    EarlierIsAlive(s.links, s.status, k);
    AliveMembers(s.links[..k], s.status);
    assert forall x :: x in s.links[..k] ==> x in s.links;
  }

  lemma {:induction false} PrefixRuns(run: seq<Label>, k: nat)
    requires Run(run).Some? && k <= |run|
    ensures Run(run[..k]).Some?
    ensures k < |run| ==> Enabled(Run(run[..k]).value, run[k]) &&
                          Run(run[..k + 1]) == Some(Step(Run(run[..k]).value, run[k]))
    decreases |run|
  {
    hide Enabled, Step;
    if k == |run| {
      assert run[..k] == run;
    } else if k == |run| - 1 {
      assert run[..k + 1] == run;
    } else {
      PrefixRuns(run[..|run| - 1], k);
      assert run[..|run| - 1][..k] == run[..k];
      assert run[..|run| - 1][..k + 1] == run[..k + 1];
    }
  }

  /** An operation gets past publishing only by publishing. */
  lemma {:induction false} PublishedInRun(run: seq<Label>, op: Op)
    requires Run(run).Some? && op in Run(run).value.status && Rank(Run(run).value.status[op]) >= 6
    ensures Publish(op) in run
    decreases |run|
  {
    var n := |run| - 1;
    assert run != [];
    if run[n] != Publish(op) {
      EarlierRank(Run(run[..n]).value, run[n], op);
      PublishedInRun(run[..n], op);
    }
  }

  lemma EarlierRank(s: State, l: Label, op: Op)
    requires Enabled(s, l) && op in Step(s, l).status && Rank(Step(s, l).status[op]) >= 6 && l != Publish(op)
    ensures op in s.status && Rank(s.status[op]) >= 6
  {}

  // ----- the same, read off the calls and steps alone

  /** What each operation was submitted as. */
  function Kinds(run: seq<Label>): map<Op, Kind> {
    if run == [] then map[]
    else
      var l := run[|run| - 1];
      var before := Kinds(run[..|run| - 1]);
      if l.Call? then before[l.op := l.kind] else before
  }

  /** The operations in the order their workers linked themselves. */
  function LinkOrder(run: seq<Label>): seq<Op> {
    if run == [] then []
    else
      var l := run[|run| - 1];
      var before := LinkOrder(run[..|run| - 1]);
      if l.Link? then before + [l.op] else before
  }

  /** Whether the descriptor appends, as the first worker of the queue found it. */
  function QueueAppends(run: seq<Label>): Option<bool> {
    if run == [] then None
    else
      var l := run[|run| - 1];
      var before := QueueAppends(run[..|run| - 1]);
      if l.Destroy? then None else if l.Link? && before == None then Some(l.append) else before
  }

  /** The state is what the calls and steps say. */
  lemma {:induction false} HistoryTold(run: seq<Label>)
    requires Run(run).Some?
    ensures
      var s := Run(run).value;
      && s.kind == Kinds(run) && s.links == LinkOrder(run)
      && (s.init <==> QueueAppends(run).Some?) && (s.append <==> QueueAppends(run) == Some(true))
    decreases |run|
  {
    hide Enabled, Step;
    if run != [] {
      var n := |run| - 1;
      HistoryTold(run[..n]);
      HistoryStep(Run(run[..n]).value, run[n]);
    }
  }

  lemma HistoryStep(s: State, l: Label)
    requires Enabled(s, l) && (s.append ==> s.init)
    ensures
      var s' := Step(s, l);
      && s'.kind == (if l.Call? then s.kind[l.op := l.kind] else s.kind)
      && s'.links == (if l.Link? then s.links + [l.op] else s.links)
      && s'.init == (if l.Destroy? then false else if l.Link? then true else s.init)
      && s'.append == (if l.Destroy? then false else if l.Link? && !s.init then l.append else s.append)
  {
    hide MustWait, Remove;
  }

  /** An operation has left the list exactly if its worker unlinked itself. */
  lemma {:induction false} RemovedTold(run: seq<Label>, op: Op)
    requires Run(run).Some?
    ensures Is(Run(run).value, op, Removed) <==> Unlink(op) in run
    decreases |run|
  {
    hide Enabled, Step;
    if run != [] {
      var n := |run| - 1;
      RemovedTold(run[..n], op);
      RemovedStep(Run(run[..n]).value, run[n], op);
      assert run == run[..n] + [run[n]];
    }
  }

  lemma RemovedStep(s: State, l: Label, op: Op)
    requires Enabled(s, l)
    ensures Is(Step(s, l), op, Removed) <==> Is(s, op, Removed) || l == Unlink(op)
  {
    hide MustWait, Remove;
  }

  /** w is a write whose worker linked itself before op's and has not left. */
  ghost predicate EarlierPending(run: seq<Label>, op: Op, w: Op) {
    LinkedBefore(LinkOrder(run), w, op) && w in Kinds(run) && Kinds(run)[w] == Write && Unlink(w) !in run
  }

  /** fsync and fdatasync are sequenced after earlier writes, writes are on a
      descriptor that appends, and reads never are. */
  ghost predicate AfterWrites(run: seq<Label>, op: Op) {
    op in Kinds(run) && (Kinds(run)[op] == Sync || (Kinds(run)[op] == Write && QueueAppends(run) == Some(true)))
  }

  /** A linked worker waits exactly if its operation is sequenced and an earlier
      write is pending, and starts exactly otherwise. */
  lemma StartsExactly(run: seq<Label>, op: Op)
    requires Run(run).Some? && Is(Run(run).value, op, Linked)
    ensures Enabled(Run(run).value, Wait(op)) <==> AfterWrites(run, op) && exists w :: EarlierPending(run, op, w)
    ensures Enabled(Run(run).value, Start(op)) <==> !(AfterWrites(run, op) && exists w :: EarlierPending(run, op, w))
  {
    hide Run, Step, Inv, HasWrite, Earlier, LinkedBefore, LinkOrder, QueueAppends, Kinds;
    Reachable(run);
    HistoryTold(run);
    var s := Run(run).value;
    KnownKind(s, op);
    assert MustWait(s, op) <==> AfterWrites(run, op) && HasWrite(s.kind, Earlier(s.active, op));
    if HasWrite(s.kind, Earlier(s.active, op)) {
      var w := WriteBefore(s, op);
      RemovedTold(run, w);
      assert EarlierPending(run, op, w);
    }
    forall w | EarlierPending(run, op, w) ensures HasWrite(s.kind, Earlier(s.active, op)) {
      RemovedTold(run, w);
      BeforeIsEarlier(s, op, w);
    }
  }

  lemma KnownKind(s: State, op: Op)
    requires Inv(s) && op in s.status
    ensures op in s.kind
  {}

  /** A write on op's chain was linked before it and is in the list. */
  lemma WriteBefore(s: State, op: Op) returns (w: Op)
    requires Inv(s) && Is(s, op, Linked) && HasWrite(s.kind, Earlier(s.active, op))
    ensures LinkedBefore(s.links, w, op) && w in s.kind && s.kind[w] == Write && !Is(s, w, Removed)
  {
    hide Alive, PriorOk, LockOk, Earlier;
    var chain := Earlier(s.active, op);
    var k :| 0 <= k < |chain| && chain[k] in s.kind && s.kind[chain[k]] == Write;
    w := chain[k];
    var j := LinkPosition(s, op);
    EarlierIsAlive(s.links, s.status, j);
    AliveMembers(s.links[..j], s.status);
    assert w in s.links[..j];
    var i :| 0 <= i < j && s.links[..j][i] == w;
    assert s.links[i] == w && s.links[j] == op;
  }

  lemma LinkPosition(s: State, op: Op) returns (j: nat)
    requires ListOk(s) && Is(s, op, Linked)
    ensures j < |s.links| && s.links[j] == op && InList(s.status[op])
  {
    hide Alive;
    assert op in s.links;
    j :| 0 <= j < |s.links| && s.links[j] == op;
  }

  lemma BeforeIsEarlier(s: State, op: Op, w: Op)
    requires Inv(s) && Is(s, op, Linked) && LinkedBefore(s.links, w, op)
    requires w in s.kind && s.kind[w] == Write && !Is(s, w, Removed)
    ensures HasWrite(s.kind, Earlier(s.active, op))
  {
    hide Alive, PriorOk, Earlier;
    var i, j :| 0 <= i < j < |s.links| && s.links[i] == w && s.links[j] == op;
    assert w in s.links && InList(s.status[w]);
    EarlierIsAlive(s.links, s.status, j);
    AliveMembers(s.links[..j], s.status);
    assert s.links[..j][i] == w;
    var chain := Earlier(s.active, op);
    assert w in chain;
    var k :| 0 <= k < |chain| && chain[k] == w;
  }

  /** When an append write or an fsync starts its I/O, every write queued
      earlier on the descriptor has left the list and published its result. */
  lemma SequencedStart(run: seq<Label>, op: Op, w: Op)
    requires Run(run).Some? && Enabled(Run(run).value, Start(op)) && AfterWrites(run, op)
    requires LinkedBefore(LinkOrder(run), w, op) && w in Kinds(run) && Kinds(run)[w] == Write
    ensures Unlink(w) in run && Publish(w) in run
  {
    hide Run, LinkedBefore, LinkOrder, QueueAppends, Kinds, MustWait;
    StartsExactly(run, op);
    assert !EarlierPending(run, op, w);
    RemovedTold(run, w);
    PublishedInRun(run, w);
  }

  /** Nothing but the lock, and earlier writes, holds an operation up: the step
      each operation may take next in every reachable state. */
  lemma NextStep(run: seq<Label>, op: Op, append: bool)
    requires Run(run).Some? && op in Run(run).value.status
    ensures
      var s := Run(run).value;
      var st := s.status[op];
      && (Enabled(s, Create(op)) <==> st == Called) && (Enabled(s, Post(op)) <==> st == Created && LockFree(s))
      && (Enabled(s, Link(op, append)) <==> st == Posted)
      && (Enabled(s, Wake(op)) <==> st == Waiting && LockFree(s))
      && (Enabled(s, Finish(op)) <==> st == Running) && (Enabled(s, Publish(op)) <==> st == Done)
      && (Enabled(s, Unlink(op)) <==> st == Published && LockFree(s))
      && (Enabled(s, Return(op)) <==> st != Called && st != Created && Return(op) !in run)
  {
    hide Run, Step, MustWait;
    Reachable(run);
    ReturnedTold(run, op);
  }

  /** An operation is submitted once, and the queue goes away exactly when no
      worker that was created is left in the list. */
  lemma EndsExactly(run: seq<Label>, op: Op, kind: Kind)
    requires Run(run).Some?
    ensures Enabled(Run(run).value, Call(op, kind)) <==> op !in Kinds(run)
    ensures Enabled(Run(run).value, Destroy) <==> forall x :: x in Kinds(run) && Create(x) in run ==> Unlink(x) in run
  {
    hide Run, Step, MustWait, Kinds;
    Reachable(run);
    HistoryTold(run);
    forall x | x in Kinds(run) ensures Is(Run(run).value, x, Removed) <==> Unlink(x) in run { RemovedTold(run, x); }
    forall x | x in Kinds(run) ensures Is(Run(run).value, x, Called) <==> Create(x) !in run { CalledTold(run, x); }
  }

  lemma {:induction false} CalledTold(run: seq<Label>, op: Op)
    requires Run(run).Some? && op in Run(run).value.status
    ensures Is(Run(run).value, op, Called) <==> Create(op) !in run
    decreases |run|
  {
    hide Enabled, Step;
    var n := |run| - 1;
    assert run != [] && run == run[..n] + [run[n]];
    var s := Run(run[..n]).value;
    CalledStep(s, run[n], op);
    if op in s.status { CalledTold(run[..n], op); } else { NeverCreated(run[..n], op); }
  }

  lemma CalledStep(s: State, l: Label, op: Op)
    requires Enabled(s, l) && op in Step(s, l).status
    ensures if op in s.status then Is(Step(s, l), op, Called) <==> Is(s, op, Called) && l != Create(op)
            else l.Call? && l.op == op && Is(Step(s, l), op, Called)
  {
    hide MustWait, Remove;
  }

  lemma {:induction false} NeverCreated(run: seq<Label>, op: Op)
    requires Run(run).Some? && op !in Run(run).value.status
    ensures Create(op) !in run
    decreases |run|
  {
    hide Enabled, Step;
    if run != [] {
      var n := |run| - 1;
      assert run == run[..n] + [run[n]];
      NeverStep(Run(run[..n]).value, run[n], op);
      NeverCreated(run[..n], op);
    }
  }

  lemma NeverStep(s: State, l: Label, op: Op)
    requires Enabled(s, l) && op !in Step(s, l).status
    ensures op !in s.status && l != Create(op)
  {
    hide MustWait, Remove;
  }

  /** No worker is between locking q->lock and releasing it. */
  ghost predicate LockFree(s: State) {
    forall op :: op in s.status ==> s.status[op] != Posted && s.status[op] != Linked
  }

  lemma {:induction false} ReturnedTold(run: seq<Label>, op: Op)
    requires Run(run).Some?
    ensures op in Run(run).value.returned <==> Return(op) in run
    decreases |run|
  {
    hide Enabled, Step;
    if run != [] {
      var n := |run| - 1;
      ReturnedTold(run[..n], op);
      ReturnedStep(Run(run[..n]).value, run[n]);
      assert run == run[..n] + [run[n]];
    }
  }

  lemma ReturnedStep(s: State, l: Label)
    requires Enabled(s, l)
    ensures Step(s, l).returned == if l.Return? then s.returned + {l.op} else s.returned
  {
    hide MustWait, Remove;
  }

  lemma {:induction false} PriorRecorded(run: seq<Label>, i: nat, j: nat)
    requires Run(run).Some? && i < j < |run| && run[i].Return? && run[j].Call?
    ensures var s := Run(run).value; run[j].op in s.prior && run[i].op in s.prior[run[j].op]
    decreases |run|
  {
    hide Enabled, Step;
    var n := |run| - 1;
    Reachable(run[..n]);
    PriorStep(Run(run[..n]).value, run[n]);
    if j < n {
      PriorRecorded(run[..n], i, j);
    } else {
      ReturnRecorded(run[..n], i);
    }
  }

  lemma {:induction false} ReturnRecorded(run: seq<Label>, i: nat)
    requires Run(run).Some? && i < |run| && run[i].Return?
    ensures run[i].op in Run(run).value.returned
    decreases |run|
  {
    hide Enabled, Step;
    var n := |run| - 1;
    Reachable(run[..n]);
    PriorStep(Run(run[..n]).value, run[n]);
    if i < n { ReturnRecorded(run[..n], i); }
  }

  lemma PriorStep(s: State, l: Label)
    requires Enabled(s, l) && s.prior.Keys == s.status.Keys
    ensures
      var s' := Step(s, l);
      && s.returned <= s'.returned && (l.Return? ==> l.op in s'.returned)
      && (l.Call? ==> l.op in s'.prior && s'.prior[l.op] == s.returned)
      && (forall op :: op in s.prior ==> op in s'.prior && s'.prior[op] == s.prior[op])
  {}

  /** Two aio_write calls on an append descriptor, the first returning before
      the second is made: the second's write starts only after the first's has
      finished and been published. */
  lemma AppendsRunInOrder(run: seq<Label>, i: nat, j: nat, k: nat)
    requires Run(run).Some? && i < j < k < |run|
    requires run[i].Return? && run[j].Call? && run[k] == Start(run[j].op)
    requires run[j].kind == Write && run[i].op in Kinds(run[..k]) && Kinds(run[..k])[run[i].op] == Write
    requires QueueAppends(run[..k]) == Some(true)
    ensures Publish(run[i].op) in run[..k]
  {
    hide Run, Step, Inv, MustWait, LinkedBefore, Kinds, LinkOrder, QueueAppends;
    PrefixRuns(run, k);
    var s := Run(run[..k]).value;
    var a, b := run[i].op, run[j].op;
    PriorRecorded(run[..k], i, j);
    Reachable(run[..k]);
    HistoryTold(run[..k]);
    OrderKnown(s, a, b);
    KindFixed(run[..k], j);
    SequencedStart(run[..k], b, a);
  }

  lemma OrderKnown(s: State, a: Op, b: Op)
    requires Inv(s) && Enabled(s, Start(b)) && b in s.prior && a in s.prior[b]
    ensures LinkedBefore(s.links, a, b) && a in s.kind
  {
    hide Alive, LinkedBefore, MustWait, Distinct;
  }

  lemma {:induction false} KindFixed(run: seq<Label>, j: nat)
    requires Run(run).Some? && j < |run| && run[j].Call?
    ensures run[j].op in Run(run).value.kind && Run(run).value.kind[run[j].op] == run[j].kind
    decreases |run|
  {
    hide Enabled, Step;
    var n := |run| - 1;
    var s := Run(run[..n]).value;
    Reachable(run[..n]);
    KindStep(s, run[n]);
    if j < n { KindFixed(run[..n], j); }
  }

  lemma KindStep(s: State, l: Label)
    requires Enabled(s, l) && s.kind.Keys == s.status.Keys
    ensures l.Call? ==> l.op in Step(s, l).kind && Step(s, l).kind[l.op] == l.kind
    ensures forall op :: op in s.kind ==> op in Step(s, l).kind && Step(s, l).kind[op] == s.kind[op]
  {}
}
