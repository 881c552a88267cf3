/** Direct-dependency graphs between loaded objects (`struct dso` with its
    `deps`/`ndeps_direct` prefix), and reachability along dependency edges. */
module DependencyGraph {
  import opened Sequences

  /** A loaded object; 0 is the null pointer. */
  type Dso = nat

  /** `g[u]` lists the direct dependencies of u, in DT_NEEDED order. */
  type Graph = seq<seq<Dso>>

  ghost predicate WellFormed(g: Graph) {
    |g| > 0 && g[0] == [] &&
    forall u, j :: 0 <= u < |g| && 0 <= j < |g[u]| ==> 0 < g[u][j] < |g|
  }

  ghost predicate Edge(g: Graph, u: Dso, v: Dso) {
    u < |g| && v in g[u]
  }

  ghost predicate IsWalk(g: Graph, w: seq<Dso>) {
    forall i :: 0 < i < |w| ==> Edge(g, w[i - 1], w[i])
  }

  ghost predicate WalkBetween(g: Graph, w: seq<Dso>, u: Dso, v: Dso) {
    IsWalk(g, w) && |w| >= 2 && w[0] == u && w[|w| - 1] == v
  }

  /** v is reachable from u in one or more direct-dependency steps. */
  ghost predicate Reaches(g: Graph, u: Dso, v: Dso) {
    exists w :: WalkBetween(g, w, u, v)
  }

  ghost function Descendants(g: Graph, u: Dso): set<Dso> {
    set v: Dso | v < |g| && Reaches(g, u, v)
  }

  /** Everything a constructor run for `root` has to cover. */
  ghost function Closure(g: Graph, root: Dso): set<Dso> {
    Descendants(g, root) + {root}
  }

  lemma EdgeReaches(g: Graph, u: Dso, v: Dso)
    requires Edge(g, u, v)
    ensures Reaches(g, u, v)
  {
    assert WalkBetween(g, [u, v], u, v);
  }

  lemma ReachesTransitive(g: Graph, u: Dso, v: Dso, x: Dso)
    requires Reaches(g, u, v) && Reaches(g, v, x)
    ensures Reaches(g, u, x)
  {
    var w1 :| WalkBetween(g, w1, u, v);
    var w2 :| WalkBetween(g, w2, v, x);
    var w := w1 + w2[1..];
    forall i | 0 < i < |w|
      ensures Edge(g, w[i - 1], w[i])
    {
      if i < |w1| {
        assert w[i] == w1[i];
      } else {
        assert w[i] == w2[i - |w1| + 1];
      }
    }
    assert WalkBetween(g, w, u, x);
  }

  /** A set that holds u's dependencies and is closed under dependencies holds everything reachable from u. */
  lemma ClosedContainsReachable(g: Graph, s: set<Dso>, u: Dso, v: Dso)
    requires forall x :: Edge(g, u, x) ==> x in s
    requires forall x, y :: x in s && Edge(g, x, y) ==> y in s
    requires Reaches(g, u, v)
    ensures v in s
  {
    var w :| WalkBetween(g, w, u, v);
    var i := 1;
    assert Edge(g, w[0], w[i]);
    while i < |w| - 1
      invariant 1 <= i <= |w| - 1
      invariant w[i] in s
    {
      i := i + 1;
      assert Edge(g, w[i - 1], w[i]);
    }
  }

  lemma WalkStaysInside(g: Graph, u: Dso, v: Dso)
    requires WellFormed(g) && Reaches(g, u, v)
    ensures 0 < v < |g|
  {
    var w :| WalkBetween(g, w, u, v);
    var k := |w| - 1;
    assert Edge(g, w[k - 1], w[k]);
  }

  /** Along a walk, an earlier node reaches every later one. */
  lemma WalkReaches(g: Graph, w: seq<Dso>, i: nat, j: nat)
    requires IsWalk(g, w) && i < j < |w|
    ensures Reaches(g, w[i], w[j])
  {
    var sub := w[i..j + 1];
    forall k | 0 < k < |sub|
      ensures Edge(g, sub[k - 1], sub[k])
    {
      assert Edge(g, w[i + k - 1], w[i + k]);
    }
    assert WalkBetween(g, sub, w[i], w[j]);
  }

  /** A duplicate-free list drawn from a set is no longer than the set. */
  lemma {:induction false} DistinctBound(s: seq<Dso>, within: set<Dso>)
    requires Distinct(s) && forall i :: 0 <= i < |s| ==> s[i] in within
    ensures |s| <= |within|
    decreases |s|
  {
    if s != [] {
      var k := |s| - 1;
      DistinctBound(s[..k], within - {s[k]});
    }
  }

  /** A set enumerated by a list, duplicates allowed, is no larger than the list. */
  lemma {:induction false} EnumerationBound(s: seq<Dso>, covered: set<Dso>)
    requires forall x :: x in covered ==> x in s
    ensures |covered| <= |s|
    decreases |s|
  {
    if s == [] {
      assert covered == {};
    } else {
      var k := |s| - 1;
      var rest := covered - {s[k]};
      forall x | x in rest ensures x in s[..k] {
        var i :| 0 <= i < |s| && s[i] == x;
        assert s[..k][i] == x;
      }
      EnumerationBound(s[..k], rest);
    }
  }

  ghost function Below(n: nat): (s: set<Dso>)
    ensures |s| == n
    ensures forall v: Dso :: v in s <==> v < n
  {
    if n == 0 then {} else Below(n - 1) + {n - 1}
  }
}
