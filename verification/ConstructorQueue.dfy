/** Dependency closure and constructor ordering of musl's dynamic linker:
    `extend_bfs_deps` and `queue_ctors`. Each `struct dso` field these functions
    touch is a field of `Linker` indexed by the object. */
module ConstructorQueue {
  import opened DependencyGraph
  import opened Sequences

  /** countof(builtin_ctor_queue) */
  const BUILTIN_QUEUE_SLOTS := 4

  /** What a constructor queue promises for `root`: every object of the closure
      once, the root last, and an object placed before its own dependency only
      when the two depend on each other. */
  ghost predicate IsConstructorOrder(g: Graph, root: Dso, q: seq<Dso>) {
    && Distinct(q)
    && (forall v :: v in q <==> v in Closure(g, root))
    && |q| > 0 && q[|q| - 1] == root
    && (forall i, v :: 0 <= i < |q| && Edge(g, q[i], v) ==> v in q[..i] || Reaches(g, v, q[i]))
  }

  ghost predicate DependenciesFirst(g: Graph, q: seq<Dso>) {
    forall i, v :: 0 <= i < |q| && Edge(g, q[i], v) ==> v in q[..i]
  }

  /** What the extended `deps` list promises: the direct dependencies as they
      were, then every other descendant exactly once. */
  ghost predicate IsBfsList(g: Graph, p: Dso, list: seq<Dso>) {
    && p < |g| && g[p] <= list
    && (forall v :: v in list <==> v in Descendants(g, p))
    && forall i, j :: 0 <= i < j < |list| && |g[p]| <= j ==> list[i] != list[j]
  }

  /** The loaded objects (the chain from `head`) and their dependency fields. */
  class Linker {
    var deps: seq<seq<Dso>>     // deps[d], without the null terminator
    var direct: seq<nat>        // ndeps_direct
    var bfsBuilt: seq<bool>
    var mark: seq<bool>
    var nextDep: seq<nat>
    var head: Dso

    predicate Shaped()
      reads this
    {
      && |deps| == |direct| == |bfsBuilt| == |mark| == |nextDep|
      && |deps| > 0 && direct[0] == 0
      && (forall d :: 0 <= d < |deps| ==> direct[d] <= |deps[d]|)
    }

    function Direct(): (g: Graph)
      requires Shaped()
      reads this
      ensures |g| == |deps| && forall d :: 0 <= d < |g| ==> g[d] == deps[d][..direct[d]]
    {
      seq(|deps|, d requires 0 <= d < |deps| && Shaped() reads this => deps[d][..direct[d]])
    }

    ghost predicate Valid()
      reads this
    {
      && Shaped() && WellFormed(Direct())
      && (forall d :: 0 <= d < |deps| ==>
            if bfsBuilt[d] then IsBfsList(Direct(), d, deps[d]) else |deps[d]| == direct[d])
    }

    ghost predicate Unmarked()
      reads this
    {
      forall d :: 0 <= d < |mark| ==> !mark[d]
    }

    /** `g` is the graph the direct prefixes spell out. */
    ghost predicate Spells(g: Graph)
      reads this
    {
      Shaped() && |g| == |deps| && forall d :: 0 <= d < |g| ==> deps[d][..direct[d]] == g[d]
    }

    /** `extend_bfs_deps`: the list grows while it is being iterated over. */
    method ExtendBfsDeps(p: Dso)
      requires Valid() && Unmarked() && 0 < p < |deps|
      modifies this`deps, this`bfsBuilt, this`mark
      ensures Valid() && Unmarked() && Direct() == old(Direct())
      ensures bfsBuilt == old(bfsBuilt)[p := true]
      ensures IsBfsList(Direct(), p, deps[p])
      ensures |deps| == old(|deps|) && forall d :: 0 <= d < |deps| && d != p ==> deps[d] == old(deps[d])
    {
      hide IsBfsList, Edge, Growing, CopiedUpTo;
      if bfsBuilt[p] { return; }
      ghost var g := Direct();
      assert deps[p] == g[p];
      MarkDirect(p);
      DirectGrowing(g, p, mark);
      var i := 0;
      NoneCopied(g, deps[p]);
      while i < |deps[p]|
        modifies this`deps, this`mark
        invariant Spells(g) && Growing(g, p, deps[p], mark)
        invariant forall d :: 0 <= d < |g| && d != p ==> deps[d] == old(deps[d])
        invariant 0 <= i <= |deps[p]| && CopiedUpTo(g, deps[p], i)
        decreases direct[p] + |g| - i
      {
        ghost var before := deps[p];
        CopyUnmarked(p, deps[p][i], g);
        CopiedNext(g, before, deps[p], i);
        i := i + 1;
        GrowingBound(g, p, deps[p], mark);
      }
      bfsBuilt := bfsBuilt[p := true];
      ghost var marked := mark;
      mark := seq(|mark|, _ => false);
      ClosureComplete(g, p, deps[p], marked);
      assert Direct() == g;
    }

    /** The first loop: mark the direct dependencies. */
    method MarkDirect(p: Dso)
      requires Shaped() && Unmarked() && 0 < p < |deps| && forall k :: 0 <= k < |deps[p]| ==> deps[p][k] < |deps|
      modifies this`mark
      ensures |mark| == |deps| && forall v :: 0 <= v < |mark| ==> (mark[v] <==> v in deps[p])
    {
      var i := 0;
      while i < |deps[p]|
        invariant 0 <= i <= |deps[p]| && |mark| == |deps|
        invariant forall v :: 0 <= v < |mark| ==> (mark[v] <==> v in deps[p][..i])
      {
        assert deps[p][..i + 1] == deps[p][..i] + [deps[p][i]];
        mark := mark[deps[p][i] := true];
        i := i + 1;
      }
    }

    /** The loop body: count the unmarked dependencies of `dep`, make room for
        that many more entries and a terminator, then append and mark them.
        `dep` may be `p` itself. */
    method CopyUnmarked(p: Dso, dep: Dso, ghost g: Graph)
      requires Spells(g) && 0 < p < |g| && Growing(g, p, deps[p], mark) && dep in deps[p]
      modifies this`deps, this`mark
      ensures Spells(g) && Growing(g, p, deps[p], mark)
      ensures forall d :: 0 <= d < |g| && d != p ==> deps[d] == old(deps[d])
      ensures old(deps[p]) <= deps[p]
      ensures forall v :: Edge(g, dep, v) ==> v in deps[p]
    {
      var cnt, j := 0, 0;
      while j < direct[dep]
        invariant 0 <= j <= direct[dep]
        invariant cnt + CountUnmarked(g[dep][j..], mark) == CountUnmarked(g[dep], mark)
      {
        assert g[dep][j] == deps[dep][j] && g[dep][j..][1..] == g[dep][j + 1..];
        if !mark[deps[dep][j]] { cnt := cnt + 1; }
        j := j + 1;
      }
      var capacity := |deps[p]| + cnt + 1;
      j := 0;
      while j < direct[dep]
        modifies this`deps, this`mark
        invariant 0 <= j <= direct[dep]
        invariant Spells(g) && Growing(g, p, deps[p], mark)
        invariant forall d :: 0 <= d < |g| && d != p ==> deps[d] == old(deps[d])
        invariant old(deps[p]) <= deps[p]
        invariant forall m :: 0 <= m < j ==> g[dep][m] in deps[p]
        invariant |deps[p]| + CountUnmarked(g[dep][j..], mark) < capacity
      {
        var d := deps[dep][j];
        assert g[dep][j] == d && g[dep][j..][1..] == g[dep][j + 1..];
        if !mark[d] {
          assert |deps[p]| + 1 < capacity;   // the entry and the terminator both fit
          MarkingLowersCount(g[dep][j + 1..], mark, d);
          GrowingStep(g, p, deps[p], mark, dep, d);
          ghost var list := deps[p];
          mark := mark[d := true];
          deps := deps[p := deps[p] + [d]];
          assert forall v :: v in list ==> v in deps[p];
          assert deps[p][|list|] == d;
          assert deps[p][..direct[p]] == list[..direct[p]];
        }
        j := j + 1;
      }
    }

    /** `queue_ctors`: the output queue and the work stack share one buffer. */
    method QueueCtors(dso: Dso) returns (queue: array<Dso>, qpos: nat)
      requires Valid() && 0 < dso < |deps|
      modifies this`mark, this`nextDep
      ensures fresh(queue) && Valid()
      ensures qpos < queue.Length && queue[qpos] == 0
      ensures IsConstructorOrder(Direct(), dso, queue[..qpos])
      ensures old(Unmarked()) ==> Unmarked()
    {
      hide IsConstructorOrder, Closure, Descendants;
      ghost var g := Direct();
      var cnt := CountAndUnmark(dso);
      assert Direct() == g;
      if dso == head && cnt <= BUILTIN_QUEUE_SLOTS {
        queue := new Dso[BUILTIN_QUEUE_SLOTS];
      } else {
        queue := new Dso[cnt];
      }
      qpos, mark, nextDep := Search(Direct(), dso, queue, cnt, mark, nextDep);
      ghost var q := queue[..qpos];
      queue[qpos] := 0;
      assert queue[..qpos] == q;
      OrderWithin(g, dso, q);
      mark := Unmark(queue[..qpos], mark);
      assert Direct() == g;
    }

    /** Size of the buffer: the closure of `dso` plus a terminator slot fits. */
    method CountAndUnmark(dso: Dso) returns (cnt: nat)
      requires Valid() && 0 < dso < |deps|
      modifies this`mark
      ensures Valid()
      ensures |Closure(Direct(), dso)| < cnt
      ensures forall v :: v in Descendants(Direct(), dso) ==> !mark[v]
      ensures old(Unmarked()) ==> Unmarked()
    {
      ghost var g := Direct();
      if bfsBuilt[dso] {
        assert forall k :: 0 <= k < |deps[dso]| ==> deps[dso][k] in deps[dso];
        mark := Unmark(deps[dso], mark);
        cnt := |deps[dso]| + 1;
        EnumerationBound(deps[dso] + [dso], Closure(g, dso));
      } else {
        mark := seq(|mark|, _ => false);
        cnt := |deps| - 1;
        forall v | v in Closure(g, dso) ensures v in Below(|g|) - {0} {
          if v != dso { WalkStaysInside(g, dso, v); }
        }
        SubsetSize(Closure(g, dso), Below(|g|) - {0});
      }
      cnt := cnt + 1;
      assert Direct() == g;
    }
  }

  method Unmark(list: seq<Dso>, mark0: seq<bool>) returns (mark: seq<bool>)
    requires forall k :: 0 <= k < |list| ==> list[k] < |mark0|
    ensures |mark| == |mark0|
    ensures forall v :: 0 <= v < |mark| ==> mark[v] == (mark0[v] && v !in list)
  {
    mark := mark0;
    for i := 0 to |list|
      invariant |mark| == |mark0|
      invariant forall v :: 0 <= v < |mark| ==> mark[v] == (mark0[v] && v !in list[..i])
    {
      assert list[..i + 1] == list[..i] + [list[i]];
      mark := mark[list[i] := false];
    }
    assert list[..|list|] == list;
  }

  lemma OrderWithin(g: Graph, root: Dso, q: seq<Dso>)
    requires WellFormed(g) && 0 < root < |g| && IsConstructorOrder(g, root, q)
    ensures forall k :: 0 <= k < |q| ==> q[k] < |g|
    ensures forall v :: v in Closure(g, root) ==> v in q
  {
    assert forall k :: 0 <= k < |q| ==> q[k] in q;
  }

  /** The pseudo-DFS: stack from the top of the buffer, queue from the bottom. */
  method Search(g: Graph, root: Dso, queue: array<Dso>, cnt: nat, mark0: seq<bool>, nextDep0: seq<nat>)
    returns (qpos: nat, mark: seq<bool>, nextDep: seq<nat>)
    requires WellFormed(g) && 0 < root < |g| == |mark0| == |nextDep0|
    requires |Closure(g, root)| < cnt <= queue.Length
    requires forall v :: v in Descendants(g, root) ==> !mark0[v]
    modifies queue
    ensures |mark| == |nextDep| == |g| && qpos < cnt
    ensures IsConstructorOrder(g, root, queue[..qpos])
    ensures forall v :: 0 <= v < |g| && mark[v] ==> mark0[v] || v in Closure(g, root)
  {
    hide Dfs, IsConstructorOrder;
    var spos := cnt - 1;
    queue[spos] := root;
    nextDep := nextDep0[root := 0];
    mark := mark0[root := true];
    qpos := 0;
    ghost var path := [root];
    DfsInit(g, root, mark, nextDep);
    while spos < cnt
      invariant 0 <= qpos <= spos == cnt - |path|
      invariant |g| == |mark| == |nextDep| && Dfs(g, root, queue[..qpos], path, mark, nextDep)
      invariant OnStack(path, queue[spos..cnt])
      invariant forall v :: 0 <= v < |g| && mark[v] ==> mark0[v] || v in Closure(g, root)
      decreases |Closure(g, root)| - qpos - |path|, |path|
    {
      DfsFits(g, root, queue[..qpos], path, mark, nextDep);
      DfsTop(g, root, queue[..qpos], path, mark, nextDep);
      ghost var q := queue[..qpos];
      var p := queue[spos];
      assert queue[spos + 1..cnt] == queue[spos..cnt][1..];
      p, spos, mark, nextDep, path := Descend(g, root, queue, cnt, p, spos + 1, qpos, mark, nextDep, path);
      DfsFinish(g, root, q, path, mark, nextDep);
      ghost var stack := queue[spos..cnt];
      queue[qpos] := p;
      qpos := qpos + 1;
      assert queue[..qpos] == q + [p] && queue[spos..cnt] == stack;
      path := path[..|path| - 1];
    }
    DfsFits(g, root, queue[..qpos], path, mark, nextDep);
    DfsDone(g, root, queue[..qpos], mark, nextDep);
  }

  /** The stack region holds the path, innermost object first. */
  ghost predicate OnStack(path: seq<Dso>, stack: seq<Dso>) {
    |stack| == |path| && forall k :: 0 <= k < |path| ==> stack[|path| - 1 - k] == path[k]
  }

  lemma StackPush(path: seq<Dso>, stack: seq<Dso>)
    requires path != [] && OnStack(path[..|path| - 1], stack)
    ensures OnStack(path, [path[|path| - 1]] + stack)
  {}

  /** The inner loop: follow unmarked dependencies down until one object has none left. */
  method Descend(g: Graph, root: Dso, queue: array<Dso>, cnt: nat, p0: Dso, spos0: nat, qpos: nat,
                 mark0: seq<bool>, nextDep0: seq<nat>, ghost path0: seq<Dso>)
    returns (p: Dso, spos: nat, mark: seq<bool>, nextDep: seq<nat>, ghost path: seq<Dso>)
    requires qpos + |path0| <= |Closure(g, root)| < cnt <= queue.Length
    requires Dfs(g, root, queue[..qpos], path0, mark0, nextDep0)
    requires path0 != [] && p0 == path0[|path0| - 1] && spos0 == cnt - |path0| + 1
    requires OnStack(path0[..|path0| - 1], queue[spos0..cnt])
    modifies queue
    ensures queue[..qpos] == old(queue[..qpos]) && Dfs(g, root, queue[..qpos], path, mark, nextDep)
    ensures |path0| <= |path| && p == path[|path| - 1] && spos == cnt - |path| + 1
    ensures qpos + |path| <= |Closure(g, root)|
    ensures OnStack(path[..|path| - 1], queue[spos..cnt])
    ensures |g| == |mark| == |nextDep| && p < |g| && nextDep[p] == |g[p]|
    ensures forall v :: 0 <= v < |g| && mark[v] ==> mark0[v] || v in Closure(g, root)
  {
    hide Dfs, Closure, OnStack;
    ghost var q := queue[..qpos];
    p, spos, mark, nextDep, path := p0, spos0, mark0, nextDep0, path0;
    DfsTop(g, root, q, path, mark, nextDep);
    while nextDep[p] < |g[p]|
      invariant Dfs(g, root, q, path, mark, nextDep) && q == queue[..qpos]
      invariant |g| == |mark| == |nextDep| && p < |g| && nextDep[p] <= |g[p]|
      invariant |path0| <= |path| && p == path[|path| - 1] && spos == cnt - |path| + 1
      invariant qpos + |path| <= |Closure(g, root)|
      invariant OnStack(path[..|path| - 1], queue[spos..cnt])
      invariant forall v :: 0 <= v < |g| && mark[v] ==> mark0[v] || v in Closure(g, root)
      decreases |Closure(g, root)| - qpos - |path|, |g[p]| - nextDep[p]
    {
      DfsTop(g, root, q, path, mark, nextDep);
      if mark[g[p][nextDep[p]]] {
        DfsSkip(g, root, q, path, mark, nextDep);
        nextDep := nextDep[p := nextDep[p] + 1];
      } else {
        DfsPush(g, root, q, path, mark, nextDep);
        ghost var before, stack := path, queue[spos..cnt];
        spos := spos - 1;
        queue[spos] := p;
        assert queue[spos..cnt] == [p] + stack;
        StackPush(path, stack);
        p := g[p][nextDep[p]];
        nextDep := nextDep[p := 0];
        mark := mark[p := true];
        path := path + [p];
        assert path[..|path| - 1] == before;
        DfsFits(g, root, q, path, mark, nextDep);
      }
    }
  }

  /** Invariant of the depth-first search: `q` is finished, `path` is the chain
      of objects still open, and every dependency index already passed leads to a
      marked object. */
  ghost predicate Dfs(g: Graph, root: Dso, q: seq<Dso>, path: seq<Dso>, mark: seq<bool>, nextDep: seq<nat>) {
    && WellFormed(g) && 0 < root < |g| == |mark| == |nextDep|
    && Visited(g, root, q, path, mark)
    && Open(g, path, mark, nextDep)
    && Settled(g, q, path)
    && (path != [] ==> path[0] == root)
    && (path == [] ==> q != [] && q[|q| - 1] == root)
  }

  /** The marked part of the closure is `q` and `path`, each object once. */
  ghost predicate Visited(g: Graph, root: Dso, q: seq<Dso>, path: seq<Dso>, mark: seq<bool>) {
    && |g| == |mark|
    && Distinct(q) && Distinct(path) && (forall k :: 0 <= k < |path| ==> path[k] !in q)
    && (forall k :: 0 <= k < |q| ==> q[k] in Closure(g, root) && 0 < q[k] < |g|)
    && (forall k :: 0 <= k < |path| ==> path[k] in Closure(g, root) && 0 < path[k] < |g|)
    && (forall v :: v in Closure(g, root) && v < |g| ==> (mark[v] <==> v in q || v in path))
  }

  /** Each open object was entered through the dependency its predecessor is looking at. */
  ghost predicate Open(g: Graph, path: seq<Dso>, mark: seq<bool>, nextDep: seq<nat>) {
    && |g| == |mark| == |nextDep|
    && (forall k :: 0 <= k < |path| ==> path[k] < |g| && Passed(g, path[k], mark, nextDep))
    && (forall k :: 0 < k < |path| ==> Exploring(g, nextDep, path[k - 1], path[k]))
  }

  /** The dependencies of u already looked at are marked. */
  ghost predicate Passed(g: Graph, u: Dso, mark: seq<bool>, nextDep: seq<nat>)
    requires u < |g| == |mark| == |nextDep|
  {
    nextDep[u] <= |g[u]| &&
    forall j :: 0 <= j < nextDep[u] ==> g[u][j] < |mark| && mark[g[u][j]]
  }

  /** u's next dependency to look at is v. */
  ghost predicate Exploring(g: Graph, nextDep: seq<nat>, u: Dso, v: Dso) {
    u < |g| == |nextDep| && nextDep[u] < |g[u]| && v == g[u][nextDep[u]]
  }

  /** Dependencies of finished objects are finished or open, and an object
      finished before its dependency is reachable from it. */
  ghost predicate Settled(g: Graph, q: seq<Dso>, path: seq<Dso>) {
    && (forall k, v :: 0 <= k < |q| && Edge(g, q[k], v) ==> v in q || v in path)
    && (forall k, v :: 0 <= k < |q| && Edge(g, q[k], v) ==> v in q[..k] || Reaches(g, v, q[k]))
  }

  lemma SubsetSize(a: set<Dso>, b: set<Dso>)
    requires a <= b
    ensures |a| <= |b|
  {
    if a != {} {
      var x :| x in a;
      SubsetSize(a - {x}, b - {x});
    }
  }

  lemma DfsInit(g: Graph, root: Dso, mark: seq<bool>, nextDep: seq<nat>)
    requires WellFormed(g) && 0 < root < |g| == |mark| == |nextDep|
    requires forall v :: v in Closure(g, root) && v < |g| ==> (mark[v] <==> v == root)
    requires nextDep[root] == 0
    ensures Dfs(g, root, [], [root], mark, nextDep)
  {}

  lemma DfsFits(g: Graph, root: Dso, q: seq<Dso>, path: seq<Dso>, mark: seq<bool>, nextDep: seq<nat>)
    requires Dfs(g, root, q, path, mark, nextDep)
    ensures |q| + |path| <= |Closure(g, root)|
  {
    var s := q + path;
    DistinctBound(s, Closure(g, root));
  }

  lemma DfsTop(g: Graph, root: Dso, q: seq<Dso>, path: seq<Dso>, mark: seq<bool>, nextDep: seq<nat>)
    requires Dfs(g, root, q, path, mark, nextDep) && path != []
    ensures |g| == |mark| == |nextDep| && path[|path| - 1] < |g|
    ensures
      var p := path[|path| - 1];
      && nextDep[p] <= |g[p]|
      && (nextDep[p] < |g[p]| ==> g[p][nextDep[p]] < |g| && g[p][nextDep[p]] in Closure(g, root))
  {
    var p := path[|path| - 1];
    assert Passed(g, p, mark, nextDep);
    if nextDep[p] < |g[p]| { InClosure(g, root, p, g[p][nextDep[p]]); }
  }

  lemma DfsSkip(g: Graph, root: Dso, q: seq<Dso>, path: seq<Dso>, mark: seq<bool>, nextDep: seq<nat>)
    requires Dfs(g, root, q, path, mark, nextDep) && path != []
    requires var p := path[|path| - 1]; nextDep[p] < |g[p]| && mark[g[p][nextDep[p]]]
    ensures var p := path[|path| - 1]; Dfs(g, root, q, path, mark, nextDep[p := nextDep[p] + 1])
  {
    var p := path[|path| - 1];
    var nextDep' := nextDep[p := nextDep[p] + 1];
    forall k | 0 <= k < |path| ensures Passed(g, path[k], mark, nextDep') {
      assert Passed(g, path[k], mark, nextDep);
    }
    forall k | 0 < k < |path| ensures Exploring(g, nextDep', path[k - 1], path[k]) {
      assert Exploring(g, nextDep, path[k - 1], path[k]) && path[k - 1] != p;
    }
  }

  lemma InClosure(g: Graph, root: Dso, p: Dso, v: Dso)
    requires WellFormed(g) && 0 < root < |g| && p in Closure(g, root) && Edge(g, p, v)
    ensures v in Closure(g, root) && 0 < v < |g|
  {
    EdgeReaches(g, p, v);
    if p != root { ReachesTransitive(g, root, p, v); }
    WalkStaysInside(g, root, v);
  }

  lemma DfsPush(g: Graph, root: Dso, q: seq<Dso>, path: seq<Dso>, mark: seq<bool>, nextDep: seq<nat>)
    requires Dfs(g, root, q, path, mark, nextDep) && path != []
    requires var p := path[|path| - 1]; nextDep[p] < |g[p]| && !mark[g[p][nextDep[p]]]
    ensures
      var p := path[|path| - 1];
      var d := g[p][nextDep[p]];
      Dfs(g, root, q, path + [d], mark[d := true], nextDep[d := 0])
  {
    var p := path[|path| - 1];
    var d := g[p][nextDep[p]];
    assert Edge(g, p, d);
    InClosure(g, root, p, d);
    assert d !in q && d !in path;
    var path', mark', nextDep' := path + [d], mark[d := true], nextDep[d := 0];
    assert forall v :: v in path' <==> v in path || v == d;
    assert Visited(g, root, q, path', mark');
    forall k | 0 <= k < |path'| ensures Passed(g, path'[k], mark', nextDep') {
      if k < |path| { assert Passed(g, path[k], mark, nextDep); }
    }
    forall k | 0 < k < |path'| ensures Exploring(g, nextDep', path'[k - 1], path'[k]) {
      if k < |path| { assert Exploring(g, nextDep, path[k - 1], path[k]); }
    }
  }

  lemma OpenPrefix(g: Graph, path': seq<Dso>, p: Dso, mark: seq<bool>, nextDep: seq<nat>)
    requires Open(g, path' + [p], mark, nextDep)
    ensures Open(g, path', mark, nextDep) && p < |g| == |mark| == |nextDep| && Passed(g, p, mark, nextDep)
  {
    hide Passed, Exploring;
    var path := path' + [p];
    assert path[|path'|] == p && forall k :: 0 <= k < |path'| ==> path[k] == path'[k];
  }

  lemma DfsFinish(g: Graph, root: Dso, q: seq<Dso>, path: seq<Dso>, mark: seq<bool>, nextDep: seq<nat>)
    requires Dfs(g, root, q, path, mark, nextDep) && path != []
    requires var p := path[|path| - 1]; nextDep[p] == |g[p]|
    ensures Dfs(g, root, q + [path[|path| - 1]], path[..|path| - 1], mark, nextDep)
  {
    hide Visited, Settled, Open, Reaches, Edge;
    var p, path' := path[|path| - 1], path[..|path| - 1];
    assert path == path' + [p];
    OpenPrefix(g, path', p, mark, nextDep);
    VisitedFinish(g, root, q, path', p, mark);
    TopSettled(g, root, q, path, mark, nextDep);
    SettledFinish(g, q, path', p);
  }

  /** Once the top has no dependency left to look at, all of them are finished
      or open, and the open ones lead back to it. */
  lemma TopSettled(g: Graph, root: Dso, q: seq<Dso>, path: seq<Dso>, mark: seq<bool>, nextDep: seq<nat>)
    requires Dfs(g, root, q, path, mark, nextDep) && path != []
    requires var p := path[|path| - 1]; p < |g| == |nextDep| && nextDep[p] == |g[p]|
    ensures
      var p := path[|path| - 1];
      forall v: Dso :: Edge(g, p, v) ==> (v in q || v in path) && (v in q || Reaches(g, v, p))
  {
    hide Settled, Reaches, Closure;
    var p := path[|path| - 1];
    assert Passed(g, p, mark, nextDep);
    forall v: Dso | Edge(g, p, v)
      ensures (v in q || v in path) && (v in q || Reaches(g, v, p))
    {
      InClosure(g, root, p, v);
      if v !in q { OpenReachesTop(g, path, nextDep, v); }
    }
  }

  lemma VisitedFinish(g: Graph, root: Dso, q: seq<Dso>, path': seq<Dso>, p: Dso, mark: seq<bool>)
    requires Visited(g, root, q, path' + [p], mark)
    ensures Visited(g, root, q + [p], path', mark)
  {
    var path := path' + [p];
    assert path[|path'|] == p && forall k :: 0 <= k < |path'| ==> path[k] == path'[k];
    assert forall v :: v in q + [p] <==> v in q || v == p;
    assert forall v :: v in path <==> v in path' || v == p;
  }

  lemma SettledFinish(g: Graph, q: seq<Dso>, path': seq<Dso>, p: Dso)
    requires Settled(g, q, path' + [p])
    requires forall v :: Edge(g, p, v) ==> v in q || v in path' + [p]
    requires forall v :: Edge(g, p, v) ==> v in q || Reaches(g, v, p)
    ensures Settled(g, q + [p], path')
  {
    var q' := q + [p];
    assert forall v :: v in q' <==> v in q || v == p;
    assert forall v :: v in path' + [p] <==> v in path' || v == p;
    forall k, v: Dso | 0 <= k < |q'| && Edge(g, q'[k], v)
      ensures v in q'[..k] || Reaches(g, v, q'[k])
    {
      assert q'[..k] == q[..k];
      if k == |q| { assert q[..k] == q; }
    }
  }

  lemma OpenReachesTop(g: Graph, path: seq<Dso>, nextDep: seq<nat>, v: Dso)
    requires path != [] && |g| == |nextDep| && v in path && Edge(g, path[|path| - 1], v)
    requires forall k :: 0 < k < |path| ==> Exploring(g, nextDep, path[k - 1], path[k])
    ensures Reaches(g, v, path[|path| - 1])
  {
    var i :| 0 <= i < |path| && path[i] == v;
    if i == |path| - 1 {
      EdgeReaches(g, v, v);
    } else {
      WalkReaches(g, path, i, |path| - 1);
    }
  }

  lemma DfsDone(g: Graph, root: Dso, q: seq<Dso>, mark: seq<bool>, nextDep: seq<nat>)
    requires Dfs(g, root, q, [], mark, nextDep)
    ensures IsConstructorOrder(g, root, q)
  {
    assert q + [] == q;
    var s := set v | v in q;
    forall v | v in Closure(g, root) ensures v in q {
      if v != root { ClosedContainsReachable(g, s, root, v); }
    }
  }

  /** Invariant of the extension loop: marks and list agree, everything listed
      is a descendant, and nothing is added twice. */
  ghost predicate Growing(g: Graph, p: Dso, list: seq<Dso>, mark: seq<bool>) {
    && WellFormed(g) && 0 < p < |g| == |mark| && g[p] <= list
    && (forall v :: 0 <= v < |mark| ==> (mark[v] <==> v in list))
    && (forall v :: v in list ==> Reaches(g, p, v) && 0 < v < |g|)
    && (forall k, j :: 0 <= k < j < |list| && |g[p]| <= j ==> list[k] != list[j])
  }

  lemma DirectGrowing(g: Graph, p: Dso, mark: seq<bool>)
    requires WellFormed(g) && 0 < p < |g| == |mark|
    requires forall v :: 0 <= v < |mark| ==> (mark[v] <==> v in g[p])
    ensures Growing(g, p, g[p], mark)
  {
    forall v | v in g[p] ensures Reaches(g, p, v) {
      EdgeReaches(g, p, v);
    }
  }

  lemma GrowingStep(g: Graph, p: Dso, list: seq<Dso>, mark: seq<bool>, dep: Dso, d: Dso)
    requires Growing(g, p, list, mark) && dep in list && Edge(g, dep, d) && !mark[d]
    ensures Growing(g, p, list + [d], mark[d := true])
  {
    EdgeReaches(g, dep, d);
    ReachesTransitive(g, p, dep, d);
    WalkStaysInside(g, p, d);
    assert forall v :: v in list + [d] <==> v in list || v == d;
  }

  /** Excluding duplicates bounds the growth. */
  lemma GrowingBound(g: Graph, p: Dso, list: seq<Dso>, mark: seq<bool>)
    requires Growing(g, p, list, mark)
    ensures |list| <= |g[p]| + |g|
  {
    var added := list[|g[p]|..];
    assert forall i :: 0 <= i < |added| ==> added[i] in list;
    DistinctBound(added, Below(|g|));
  }

  /** The dependencies of the first i entries are in the list. */
  ghost predicate CopiedUpTo(g: Graph, list: seq<Dso>, i: nat) {
    i <= |list| && forall k, v :: 0 <= k < i && Edge(g, list[k], v) ==> v in list
  }

  lemma NoneCopied(g: Graph, list: seq<Dso>)
    ensures CopiedUpTo(g, list, 0)
  {}

  lemma CopiedNext(g: Graph, before: seq<Dso>, list: seq<Dso>, i: nat)
    requires before <= list && i < |before| && CopiedUpTo(g, before, i)
    requires forall v :: Edge(g, before[i], v) ==> v in list
    ensures CopiedUpTo(g, list, i + 1)
  {
    hide Edge;
    assert forall k :: 0 <= k <= i ==> list[k] == before[k];
    assert forall v :: v in before ==> v in list;
  }

  lemma ClosureComplete(g: Graph, p: Dso, list: seq<Dso>, mark: seq<bool>)
    requires Growing(g, p, list, mark) && CopiedUpTo(g, list, |list|)
    ensures IsBfsList(g, p, list)
  {
    var s := set v | v in list;
    forall v | v in Descendants(g, p) ensures v in list {
      forall x | Edge(g, p, x) ensures x in s {
        var k :| 0 <= k < |g[p]| && g[p][k] == x;
        assert list[k] == x;
      }
      ClosedContainsReachable(g, s, p, v);
    }
  }

  /** Dependencies all come first exactly when nothing in the closure depends on
      itself; a cycle is what forces the order to ignore a dependency. */
  lemma DependenciesFirstIffAcyclic(g: Graph, root: Dso, q: seq<Dso>)
    requires WellFormed(g) && 0 < root < |g| && IsConstructorOrder(g, root, q)
    ensures DependenciesFirst(g, q) <==> forall u :: u in Closure(g, root) ==> !Reaches(g, u, u)
  {
    if DependenciesFirst(g, q) {
      forall u | u in Closure(g, root) ensures !Reaches(g, u, u) {
        var i :| 0 <= i < |q| && q[i] == u;
        if Reaches(g, u, u) {
          var earlier := set v | v in q[..i];
          forall x, y: Dso | x in earlier && Edge(g, x, y) ensures y in earlier {
            var k :| 0 <= k < i && q[k] == x;
            assert y in q[..k] && q[..k] <= q[..i];
          }
          ClosedContainsReachable(g, earlier, u, u);
        }
      }
    }
    if forall u :: u in Closure(g, root) ==> !Reaches(g, u, u) {
      forall i, v: Dso | 0 <= i < |q| && Edge(g, q[i], v) ensures v in q[..i] {
        assert q[i] in Closure(g, root) by { assert q[i] in q; }
        if Reaches(g, v, q[i]) {
          EdgeReaches(g, q[i], v);
          ReachesTransitive(g, q[i], v, q[i]);
        }
      }
    }
  }

  /** Two objects that need each other: some dependency must come late. */
  lemma CycleBreaksOrder(q: seq<Dso>)
    requires IsConstructorOrder([[], [2], [1]], 1, q)
    ensures q == [2, 1] && !DependenciesFirst([[], [2], [1]], q)
  {
    var g: Graph := [[], [2], [1]];
    EdgeReaches(g, 1, 2);
    EdgeReaches(g, 2, 1);
    ReachesTransitive(g, 1, 2, 1);
    DependenciesFirstIffAcyclic(g, 1, q);
    assert 2 in q && 1 in q;
    forall v | v in q ensures v == 1 || v == 2 {
      if v != 1 { WalkStaysInside(g, 1, v); }
    }
    assert forall i :: 0 <= i < |q| ==> q[i] in q;
    DistinctBound(q, {1, 2});
  }

  /** How many entries of `s`, repetitions included, are unmarked. */
  ghost function CountUnmarked(s: seq<Dso>, mark: seq<bool>): nat {
    if s == [] then 0
    else (if s[0] < |mark| && !mark[s[0]] then 1 else 0) + CountUnmarked(s[1..], mark)
  }

  lemma {:induction false} MarkingLowersCount(s: seq<Dso>, mark: seq<bool>, d: Dso)
    requires d < |mark|
    ensures CountUnmarked(s, mark[d := true]) <= CountUnmarked(s, mark)
  {
    if s != [] { MarkingLowersCount(s[1..], mark, d); }
  }
}
