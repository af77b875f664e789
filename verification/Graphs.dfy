/**
 Dependency graphs: every step name maps to the names it depends on.
 Walks, cycles, topological orders, and the sets that a wave-by-wave
 scheduler has completed after each wave.
 */
module Graphs {
  type Name = string
  type Graph = map<Name, seq<Name>>

  ghost predicate Edge(g: Graph, n: Name, d: Name) {
    n in g && d in g[n]
  }

  /** Every dependency names a step. */
  ghost predicate Closed(g: Graph) {
    forall n, d :: Edge(g, n, d) ==> d in g
  }

  ghost predicate Walk(g: Graph, p: seq<Name>) {
    && |p| > 0
    && (forall i :: 0 <= i < |p| ==> p[i] in g)
    && (forall i :: 0 <= i < |p| - 1 ==> Edge(g, p[i], p[i + 1]))
  }

  ghost predicate Cycle(g: Graph, p: seq<Name>) {
    Walk(g, p) && |p| > 1 && p[0] == p[|p| - 1]
  }

  ghost predicate Acyclic(g: Graph) {
    forall p :: !Cycle(g, p)
  }

  /** Each name in `order` comes after everything it depends on. */
  ghost predicate Topological(g: Graph, order: seq<Name>) {
    && (forall n :: n in order ==> n in g)
    && (forall i, d :: 0 <= i < |order| && Edge(g, order[i], d) ==> d in order[..i])
  }

  function Elements<T>(s: seq<T>): set<T> {
    set x | x in s
  }

  lemma ElementsAppend<T>(s: seq<T>, x: T)
    ensures Elements(s + [x]) == Elements(s) + {x}
  {}

  ghost predicate Distinct<T>(s: seq<T>) {
    forall i, j :: 0 <= i < j < |s| ==> s[i] != s[j]
  }

  lemma {:induction false} WalkDescends(g: Graph, order: seq<Name>, i: nat, p: seq<Name>, k: nat)
    requires Topological(g, order) && Walk(g, p)
    requires i < |order| && p[0] == order[i] && 0 < k < |p|
    ensures p[k] in order[..i]
  {
    if k == 1 {
      assert Edge(g, p[0], p[1]);
    } else {
      WalkDescends(g, order, i, p, k - 1);
      var j :| 0 <= j < i && order[j] == p[k - 1];
      assert Edge(g, p[k - 1], p[k]);
      assert p[k] in order[..j];
      assert order[..j] <= order[..i];
    }
  }

  lemma {:induction false} NoCycleFrom(g: Graph, order: seq<Name>, i: nat, p: seq<Name>)
    requires Topological(g, order) && Cycle(g, p)
    requires i < |order| && p[0] == order[i]
    ensures false
    decreases i
  {
    WalkDescends(g, order, i, p, |p| - 1);
    var j :| 0 <= j < i && order[j] == p[0];
    NoCycleFrom(g, order, j, p);
  }

  /** A topological order of all the steps shows that the graph is closed and has no cycle. */
  lemma OrderedIsSound(g: Graph, order: seq<Name>)
    requires Topological(g, order) && Elements(order) == g.Keys
    ensures Closed(g) && Acyclic(g)
  {
    forall n, d | Edge(g, n, d) ensures d in g {
      assert n in Elements(order);
      var i :| 0 <= i < |order| && order[i] == n;
      assert d in order[..i];
    }
    forall p ensures !Cycle(g, p) {
      if Cycle(g, p) {
        assert p[0] in Elements(order);
        var i :| 0 <= i < |order| && order[i] == p[0];
        NoCycleFrom(g, order, i, p);
      }
    }
  }

  /** A walk that steps back onto itself contains a cycle. */
  lemma ClosingEdge(g: Graph, p: seq<Name>, k: nat) returns (c: seq<Name>)
    requires Walk(g, p) && k < |p| && Edge(g, p[|p| - 1], p[k])
    ensures Cycle(g, c) && p[k] in c
  {
    c := p[k..] + [p[k]];
    forall i | 0 <= i < |c| - 1 ensures Edge(g, c[i], c[i + 1]) {
      if i + 1 < |c| - 1 {
        assert Edge(g, p[k + i], p[k + i + 1]);
      }
    }
  }

  lemma ExtendWalk(g: Graph, p: seq<Name>, d: Name)
    requires Walk(g, p) && Edge(g, p[|p| - 1], d) && d in g
    ensures Walk(g, p + [d])
  {
    var q := p + [d];
    forall i | 0 <= i < |q| - 1 ensures Edge(g, q[i], q[i + 1]) {
      if i < |p| - 1 { assert Edge(g, p[i], p[i + 1]); }
    }
  }

  /** Within `s`, step `n` still waits for something. */
  ghost predicate Waits(g: Graph, s: set<Name>, n: Name) {
    exists d :: d in s && Edge(g, n, d)
  }

  /** A nonempty finite set whose members all depend on some member contains a cycle. */
  lemma {:induction false} StuckSetHasCycle(g: Graph, s: set<Name>, p: seq<Name>) returns (c: seq<Name>)
    requires s <= g.Keys
    requires forall n :: n in s ==> Waits(g, s, n)
    requires Walk(g, p) && Elements(p) <= s
    ensures Cycle(g, c)
    decreases s - Elements(p)
  {
    assert p[|p| - 1] in Elements(p);
    var d :| d in s && Edge(g, p[|p| - 1], d);
    if k :| 0 <= k < |p| && p[k] == d {
      c := ClosingEdge(g, p, k);
    } else {
      assert d !in Elements(p);
      ExtendWalk(g, p, d);
      FewerLeft(s, p, d);
      c := StuckSetHasCycle(g, s, p + [d]);
    }
  }

  lemma FewerLeft(s: set<Name>, p: seq<Name>, d: Name)
    requires d in s && d !in Elements(p) && Elements(p) <= s
    ensures s - Elements(p + [d]) < s - Elements(p) && Elements(p + [d]) <= s
  {
    ElementsAppend(p, d);
    assert d in s - Elements(p) && d !in s - Elements(p + [d]);
  }

  /** In a closed acyclic graph every nonempty set of steps has a member that depends on none of the others. */
  lemma MinimalMember(g: Graph, s: set<Name>) returns (n: Name)
    requires Closed(g) && Acyclic(g) && s <= g.Keys && s != {}
    ensures n in s && !Waits(g, s, n)
  {
    n :| n in s;
    if forall m :: m in s ==> Waits(g, s, m) {
      var c := StuckSetHasCycle(g, s, [n]);
      assert false;
    } else {
      n :| n in s && !Waits(g, s, n);
    }
  }

  /** The steps finished after k waves, when a wave runs everything whose dependencies are finished. */
  ghost function Done(g: Graph, k: nat): (r: set<Name>)
    ensures r <= g.Keys
  {
    if k == 0 then {} else set n | n in g && (forall d :: d in g[n] ==> d in Done(g, k - 1))
  }

  ghost function Wave(g: Graph, k: nat): set<Name> {
    Done(g, k + 1) - Done(g, k)
  }

  lemma {:induction false} DoneGrows(g: Graph, k: nat)
    ensures Done(g, k) <= Done(g, k + 1)
  {
    if k > 0 {
      DoneGrows(g, k - 1);
    }
  }

  lemma {:induction false} DoneMonotone(g: Graph, j: nat, k: nat)
    requires j <= k
    ensures Done(g, j) <= Done(g, k)
    decreases k
  {
    if j < k {
      DoneMonotone(g, j, k - 1);
      DoneGrows(g, k - 1);
    }
  }

  /** No step belongs to two waves, and what a wave needs belongs to earlier waves. */
  lemma WavesAreDisjointAndOrdered(g: Graph, j: nat, k: nat)
    requires j < k
    ensures Wave(g, j) !! Wave(g, k)
    ensures forall n, d :: n in Wave(g, k) && Edge(g, n, d) ==> d in Done(g, k)
  {
    DoneMonotone(g, j + 1, k);
  }

  lemma WaveShrinks(g: Graph, k: nat, n: Name)
    requires n in Wave(g, k)
    ensures g.Keys - Done(g, k + 1) == g.Keys - Done(g, k) - Wave(g, k) < g.Keys - Done(g, k)
  {
    DoneGrows(g, k);
    assert n in g.Keys - Done(g, k);
  }

  ghost predicate WalkFrom(g: Graph, n: Name, p: seq<Name>, edges: nat) {
    Walk(g, p) && p[0] == n && |p| == edges + 1
  }

  ghost predicate HasWalk(g: Graph, n: Name, edges: nat) {
    exists p :: WalkFrom(g, n, p, edges)
  }

  lemma Prepend(g: Graph, n: Name, p: seq<Name>)
    requires Walk(g, p) && Edge(g, n, p[0])
    ensures Walk(g, [n] + p)
  {
    var q := [n] + p;
    forall i | 0 <= i < |q| - 1 ensures Edge(g, q[i], q[i + 1]) {
      if i > 0 { assert Edge(g, p[i - 1], p[i]); }
    }
  }

  lemma {:induction false} DoneHasNoLongWalk(g: Graph, n: Name, k: nat, p: seq<Name>)
    requires n in Done(g, k)
    ensures !WalkFrom(g, n, p, k)
    decreases k
  {
    if k > 0 && WalkFrom(g, n, p, k) {
      assert Edge(g, p[0], p[1]);
      assert WalkFrom(g, p[1], p[1..], k - 1) by {
        forall i | 0 <= i < |p[1..]| - 1 ensures Edge(g, p[1..][i], p[1..][i + 1]) {
          assert Edge(g, p[i + 1], p[i + 2]);
        }
      }
      DoneHasNoLongWalk(g, p[1], k - 1, p[1..]);
    }
  }

  lemma {:induction false} NotDoneHasWalk(g: Graph, n: Name, k: nat) returns (p: seq<Name>)
    requires Closed(g) && n in g && n !in Done(g, k)
    ensures WalkFrom(g, n, p, k)
    decreases k
  {
    if k == 0 {
      p := [n];
    } else {
      var d :| d in g[n] && d !in Done(g, k - 1);
      assert Edge(g, n, d);
      var q := NotDoneHasWalk(g, d, k - 1);
      Prepend(g, n, q);
      p := [n] + q;
    }
  }

  lemma DoneMeansNoWalk(g: Graph, n: Name, k: nat)
    requires Closed(g) && n in g
    ensures n in Done(g, k) <==> !HasWalk(g, n, k)
  {
    if n !in Done(g, k) {
      var p := NotDoneHasWalk(g, n, k);
    } else {
      forall p ensures !WalkFrom(g, n, p, k) { DoneHasNoLongWalk(g, n, k, p); }
    }
  }

  /** A step is in wave k exactly when its longest chain of dependencies has k edges. */
  lemma WaveIsLongestWalk(g: Graph, n: Name, k: nat)
    requires Closed(g) && n in g
    ensures n in Wave(g, k) <==> HasWalk(g, n, k) && !HasWalk(g, n, k + 1)
  {
    DoneMeansNoWalk(g, n, k);
    DoneMeansNoWalk(g, n, k + 1);
  }

  /** Until everything is finished, a closed acyclic graph always has a next wave. */
  lemma NextWaveNonempty(g: Graph, k: nat)
    requires Closed(g) && Acyclic(g) && Done(g, k) != g.Keys
    ensures Wave(g, k) != {}
  {
    var left := g.Keys - Done(g, k);
    assert left != {} by {
      if left == {} {
        forall n | n in g.Keys ensures n in Done(g, k) { assert n !in left; }
      }
    }
    var n := MinimalMember(g, left);
    forall d | d in g[n] ensures d in Done(g, k) {
      assert Edge(g, n, d);
    }
    assert n in Wave(g, k);
  }

  lemma {:induction false} NoCycleMemberIsDone(g: Graph, k: nat, p: seq<Name>, i: nat)
    requires Cycle(g, p) && i < |p|
    ensures p[i] !in Done(g, k)
    decreases k
  {
    if k > 0 {
      var j := if i == |p| - 1 then 0 else i;
      assert Edge(g, p[j], p[j + 1]);
      NoCycleMemberIsDone(g, k - 1, p, j + 1);
    }
  }

  /** If all steps finish after some number of waves, the graph is closed and acyclic. */
  lemma AllDoneIsSound(g: Graph, k: nat)
    requires Done(g, k) == g.Keys
    ensures Closed(g) && Acyclic(g)
  {
    forall n, d | Edge(g, n, d) ensures d in g {
      DoneGrows(g, k - 1);
      assert n in Done(g, k);
    }
    forall p ensures !Cycle(g, p) {
      if Cycle(g, p) { NoCycleMemberIsDone(g, k, p, 0); }
    }
  }

  lemma StuckMeansRefused(g: Graph, k: nat)
    requires Done(g, k) != g.Keys && Wave(g, k) == {}
    ensures !(Closed(g) && Acyclic(g))
  {
    if Closed(g) && Acyclic(g) {
      NextWaveNonempty(g, k);
    }
  }

  /** A longest dependency chain has exactly k steps. */
  ghost predicate IsCriticalPath(g: Graph, k: nat) {
    && (forall n :: n in g ==> !HasWalk(g, n, k))
    && (k > 0 ==> exists n :: n in g && HasWalk(g, n, k - 1))
  }

  /** When exactly K waves finish everything, K is the number of steps on a longest dependency chain. */
  lemma WaveCountIsCriticalPath(g: Graph, k: nat)
    requires Done(g, k) == g.Keys
    requires k > 0 ==> Wave(g, k - 1) != {}
    ensures IsCriticalPath(g, k)
  {
    AllDoneIsSound(g, k);
    forall n | n in g ensures !HasWalk(g, n, k) { DoneMeansNoWalk(g, n, k); }
    if k > 0 {
      var n :| n in Wave(g, k - 1);
      DoneMeansNoWalk(g, n, k - 1);
    }
  }

  /** `waves[k]` lists the k-th wave, each member once. */
  ghost predicate ListsWaves(g: Graph, waves: seq<seq<Name>>) {
    forall k :: 0 <= k < |waves| ==> waves[k] != [] && Distinct(waves[k]) && Elements(waves[k]) == Wave(g, k)
  }

  ghost function Flatten<T>(s: seq<seq<T>>): seq<T> {
    if s == [] then [] else Flatten(s[..|s| - 1]) + s[|s| - 1]
  }

  ghost predicate RunsEachOnce(waves: seq<seq<Name>>, names: set<Name>) {
    multiset(Flatten(waves)) == multiset(names)
  }

  lemma {:induction false} DistinctMultiset<T>(s: seq<T>)
    requires Distinct(s)
    ensures multiset(s) == multiset(Elements(s))
  {
    if s != [] {
      var rest, x := s[..|s| - 1], s[|s| - 1];
      DistinctMultiset(rest);
      assert s == rest + [x];
      assert Elements(s) == Elements(rest) + {x};
    }
  }

  /** The waves run up to now contain every finished step exactly once. */
  lemma {:induction false} WavesRunEachOnce(g: Graph, waves: seq<seq<Name>>)
    requires ListsWaves(g, waves)
    ensures multiset(Flatten(waves)) == multiset(Done(g, |waves|))
  {
    if waves != [] {
      var k := |waves| - 1;
      var rest := waves[..k];
      WavesRunEachOnce(g, rest);
      DistinctMultiset(waves[k]);
      DoneGrows(g, k);
      assert Done(g, k + 1) == Done(g, k) + Wave(g, k);
    }
  }

  lemma AllWavesRun(g: Graph, waves: seq<seq<Name>>)
    requires ListsWaves(g, waves) && g.Keys - Done(g, |waves|) == {}
    ensures Done(g, |waves|) == g.Keys
    ensures Closed(g) && Acyclic(g) && IsCriticalPath(g, |waves|)
    ensures RunsEachOnce(waves, g.Keys)
  {
    forall n | n in g.Keys ensures n in Done(g, |waves|) {
      assert n !in g.Keys - Done(g, |waves|);
    }
    AllDoneIsSound(g, |waves|);
    WavesRunEachOnce(g, waves);
    if waves != [] {
      var last := |waves| - 1;
      assert waves[last][0] in Elements(waves[last]);
    }
    WaveCountIsCriticalPath(g, |waves|);
  }
}
