/**
 The multi-hop chain planner: every maximal chain of tools from each head,
 then one chain kept per multiset of tools.
 */
module ChainPlanner {
  import opened Graphs

  type Tool = string
  type Dependencies = map<Tool, seq<Tool>>
  type Chain = seq<Tool>

  function DependenciesOf(deps: Dependencies, tool: Tool): seq<Tool> {
    if tool in deps then deps[tool] else []
  }

  /** All dependencies of `next` are already in the chain. */
  predicate HasDependency(deps: Dependencies, next: Tool, chain: Chain) {
    forall d | d in DependenciesOf(deps, next) :: d in chain
  }

  function Without(s: seq<Tool>, i: nat): (r: seq<Tool>)
    requires i < |s|
    ensures |r| == |s| - 1
  {
    s[..i] + s[i + 1..]
  }

  lemma WithoutDropsOne(s: seq<Tool>, i: nat)
    requires i < |s|
    ensures multiset(Without(s, i)) == multiset(s) - multiset{s[i]}
    ensures multiset([s[i]]) + multiset(Without(s, i)) == multiset(s)
  {
    var front, back := s[..i], s[i + 1..];
    assert s == front + [s[i]] + back;
    assert multiset(s) == multiset(front) + multiset{s[i]} + multiset(back);
    assert multiset(front + back) == multiset(front) + multiset(back);
  }

  /** The chains that continue `chain` with tools from `remaining`, in the order of the search. */
  function PlanFrom(deps: Dependencies, remaining: seq<Tool>, chain: Chain): (chains: seq<Chain>)
    ensures chains != []
    decreases |remaining|, |remaining| + 1
  {
    if remaining == [] then [chain] else
      var chains := PlanNext(deps, remaining, chain, 0);
      if chains == [] then [chain] else chains
  }

  /** Those that take a tool at position i or later next. */
  function PlanNext(deps: Dependencies, remaining: seq<Tool>, chain: Chain, i: nat): seq<Chain>
    requires i <= |remaining|
    decreases |remaining|, |remaining| - i
  {
    if i == |remaining| then [] else
      (if HasDependency(deps, remaining[i], chain)
       then PlanFrom(deps, Without(remaining, i), chain + [remaining[i]]) else [])
      + PlanNext(deps, remaining, chain, i + 1)
  }

  /** `c` continues `chain` and each added tool comes after all its dependencies. */
  ghost predicate Continues(deps: Dependencies, chain: Chain, c: Chain) {
    && chain <= c
    && forall k :: |chain| <= k < |c| ==> HasDependency(deps, c[k], c[..k])
  }

  /** `c` uses each position of `pool` at most once, and no unused one can be added to it. */
  ghost predicate Maximal(deps: Dependencies, pool: multiset<Tool>, c: Chain) {
    && multiset(c) <= pool
    && forall t :: t in pool - multiset(c) ==> !HasDependency(deps, t, c)
  }

  /** What the planner promises of one chain. */
  ghost predicate IsPlan(deps: Dependencies, remaining: seq<Tool>, chain: Chain, c: Chain) {
    Continues(deps, chain, c) && Maximal(deps, multiset(chain) + multiset(remaining), c)
  }

  /** `c` is found by taking position j next. */
  ghost predicate FoundVia(deps: Dependencies, remaining: seq<Tool>, chain: Chain, j: nat, c: Chain) {
    && j < |remaining| && HasDependency(deps, remaining[j], chain)
    && c in PlanFrom(deps, Without(remaining, j), chain + [remaining[j]])
  }

  /** `c` is found by taking position i or a later one next. */
  ghost predicate FoundFrom(deps: Dependencies, remaining: seq<Tool>, chain: Chain, i: nat, c: Chain) {
    exists j: nat :: i <= j && FoundVia(deps, remaining, chain, j, c)
  }

  lemma PlanNextUnfolds(deps: Dependencies, remaining: seq<Tool>, chain: Chain, i: nat, c: Chain)
    requires i < |remaining|
    ensures c in PlanNext(deps, remaining, chain, i) <==>
            FoundVia(deps, remaining, chain, i, c) || c in PlanNext(deps, remaining, chain, i + 1)
  {}

  lemma {:induction false} TakenIsListed(
    deps: Dependencies, remaining: seq<Tool>, chain: Chain, i: nat, j: nat, c: Chain)
    requires i <= j && FoundVia(deps, remaining, chain, j, c)
    ensures c in PlanNext(deps, remaining, chain, i)
    decreases j - i
  {
    if i < j {
      TakenIsListed(deps, remaining, chain, i + 1, j, c);
      LaterIsListed(deps, remaining, chain, i, c);
    } else {
      HereIsListed(deps, remaining, chain, j, c);
    }
  }

  lemma HereIsListed(deps: Dependencies, remaining: seq<Tool>, chain: Chain, i: nat, c: Chain)
    requires FoundVia(deps, remaining, chain, i, c)
    ensures c in PlanNext(deps, remaining, chain, i)
  {
    PlanNextUnfolds(deps, remaining, chain, i, c);
  }

  lemma LaterIsListed(deps: Dependencies, remaining: seq<Tool>, chain: Chain, i: nat, c: Chain)
    requires i < |remaining| && c in PlanNext(deps, remaining, chain, i + 1)
    ensures c in PlanNext(deps, remaining, chain, i)
  {
    PlanNextUnfolds(deps, remaining, chain, i, c);
  }

  lemma {:induction false} ListedIsTaken(
    deps: Dependencies, remaining: seq<Tool>, chain: Chain, i: nat, c: Chain) returns (j: nat)
    requires i <= |remaining| && c in PlanNext(deps, remaining, chain, i)
    ensures i <= j && FoundVia(deps, remaining, chain, j, c)
    decreases |remaining| - i
  {
    PlanNextUnfolds(deps, remaining, chain, i, c);
    j := i;
    if !FoundVia(deps, remaining, chain, i, c) {
      j := ListedIsTaken(deps, remaining, chain, i + 1, c);
    }
  }

  lemma PlanNextContains(deps: Dependencies, remaining: seq<Tool>, chain: Chain, i: nat, c: Chain)
    requires i <= |remaining|
    ensures c in PlanNext(deps, remaining, chain, i) <==> FoundFrom(deps, remaining, chain, i, c)
  {
    if j: nat :| i <= j && FoundVia(deps, remaining, chain, j, c) {
      TakenIsListed(deps, remaining, chain, i, j, c);
    }
    if c in PlanNext(deps, remaining, chain, i) {
      var j := ListedIsTaken(deps, remaining, chain, i, c);
    }
  }

  lemma {:induction false} PlanNextIsEmpty(deps: Dependencies, remaining: seq<Tool>, chain: Chain, i: nat)
    requires i <= |remaining|
    ensures PlanNext(deps, remaining, chain, i) == [] <==>
            forall j :: i <= j < |remaining| ==> !HasDependency(deps, remaining[j], chain)
    decreases |remaining| - i
  {
    if i < |remaining| {
      PlanNextIsEmpty(deps, remaining, chain, i + 1);
    }
  }

  lemma TakingKeepsPool(remaining: seq<Tool>, chain: Chain, j: nat)
    requires j < |remaining|
    ensures multiset(chain + [remaining[j]]) + multiset(Without(remaining, j)) == multiset(chain) + multiset(remaining)
  {
    WithoutDropsOne(remaining, j);
  }

  lemma ContinuesOneMore(deps: Dependencies, chain: Chain, t: Tool, c: Chain)
    ensures Continues(deps, chain + [t], c) && HasDependency(deps, t, chain) <==>
            Continues(deps, chain, c) && |c| > |chain| && c[|chain|] == t
  {
    var longer := chain + [t];
    assert longer <= c <==> chain <= c && |c| > |chain| && c[|chain|] == t;
    assert longer <= c ==> c[..|chain|] == chain;
  }

  lemma {:induction false} PlanFromIsSound(deps: Dependencies, remaining: seq<Tool>, chain: Chain, c: Chain)
    requires c in PlanFrom(deps, remaining, chain)
    ensures IsPlan(deps, remaining, chain, c)
    decreases |remaining|
  {
    PlanNextContains(deps, remaining, chain, 0, c);
    PlanNextIsEmpty(deps, remaining, chain, 0);
    if j: nat :| FoundVia(deps, remaining, chain, j, c) {
      PlanFromIsSound(deps, Without(remaining, j), chain + [remaining[j]], c);
      ContinuesOneMore(deps, chain, remaining[j], c);
      TakingKeepsPool(remaining, chain, j);
    } else {
      assert c == chain;
      assert multiset(chain) + multiset(remaining) - multiset(c) == multiset(remaining);
    }
  }

  lemma NextIsRemaining(remaining: seq<Tool>, chain: Chain, t: Tool, c: Chain) returns (j: nat)
    requires chain + [t] <= c && multiset(c) <= multiset(chain) + multiset(remaining)
    ensures j < |remaining| && remaining[j] == t
  {
    PrefixIsContained(chain + [t], c);
    assert multiset(chain + [t])[t] == multiset(chain)[t] + 1;
    assert t in multiset(remaining);
    j :| j < |remaining| && remaining[j] == t;
  }

  lemma {:induction false} PlanFromIsComplete(deps: Dependencies, remaining: seq<Tool>, chain: Chain, c: Chain)
    requires IsPlan(deps, remaining, chain, c)
    ensures c in PlanFrom(deps, remaining, chain)
    decreases |remaining|
  {
    if |c| == |chain| {
      assert c == chain;
      assert multiset(chain) + multiset(remaining) - multiset(c) == multiset(remaining);
      forall j | 0 <= j < |remaining| ensures !HasDependency(deps, remaining[j], chain) {
        assert remaining[j] in multiset(remaining);
      }
      PlanNextIsEmpty(deps, remaining, chain, 0);
    } else {
      var t := c[|chain|];
      ContinuesOneMore(deps, chain, t, c);
      var j := NextIsRemaining(remaining, chain, t, c);
      TakingKeepsPool(remaining, chain, j);
      PlanFromIsComplete(deps, Without(remaining, j), chain + [t], c);
      assert FoundVia(deps, remaining, chain, j, c);
      PlanNextContains(deps, remaining, chain, 0, c);
    }
  }

  lemma PrefixIsContained(p: Chain, c: Chain)
    requires p <= c
    ensures multiset(p) <= multiset(c)
  {
    assert c == p + c[|p|..];
  }

  /** The search lists exactly the maximal dependency-respecting continuations. */
  lemma PlanFromIsExact(deps: Dependencies, remaining: seq<Tool>, chain: Chain, c: Chain)
    ensures c in PlanFrom(deps, remaining, chain) <==> IsPlan(deps, remaining, chain, c)
  {
    if c in PlanFrom(deps, remaining, chain) { PlanFromIsSound(deps, remaining, chain, c); }
    if IsPlan(deps, remaining, chain, c) { PlanFromIsComplete(deps, remaining, chain, c); }
  }

  lemma {:induction false} PrefixFitsMaximal(
    deps: Dependencies, pool: multiset<Tool>, chain: Chain, c: Chain, m: Chain, k: nat)
    requires Continues(deps, chain, c) && multiset(c) <= pool
    requires chain <= m && Maximal(deps, pool, m)
    requires |chain| <= k <= |c|
    ensures multiset(c[..k]) <= multiset(m)
  {
    if k == |chain| {
      assert c[..k] == chain;
      PrefixIsContained(chain, m);
    } else {
      var t := c[k - 1];
      PrefixFitsMaximal(deps, pool, chain, c, m, k - 1);
      assert c[..k] == c[..k - 1] + [t];
      PrefixIsContained(c[..k], c);
      forall d | d in DependenciesOf(deps, t) ensures d in m {
        assert d in multiset(c[..k - 1]);
      }
      assert HasDependency(deps, t, m);
      assert (pool - multiset(m))[t] == 0;
    }
  }

  /** Confluence: all chains that continue the same chain from the same pool hold the same tools. */
  lemma Confluence(deps: Dependencies, pool: multiset<Tool>, chain: Chain, c1: Chain, c2: Chain)
    requires Continues(deps, chain, c1) && Maximal(deps, pool, c1)
    requires Continues(deps, chain, c2) && Maximal(deps, pool, c2)
    ensures multiset(c1) == multiset(c2)
  {
    PrefixFitsMaximal(deps, pool, chain, c1, c2, |c1|);
    PrefixFitsMaximal(deps, pool, chain, c2, c1, |c2|);
    assert c1[..|c1|] == c1 && c2[..|c2|] == c2;
  }

  /** `c` is a maximal chain whose head is the tool at position i. */
  ghost predicate FromHead(deps: Dependencies, available: seq<Tool>, i: nat, c: Chain) {
    i < |available| && IsPlan(deps, Without(available, i), [available[i]], c)
  }

  /** `c` is found from one of the first i heads. */
  ghost predicate FromSomeHead(deps: Dependencies, available: seq<Tool>, i: nat, c: Chain) {
    exists j: nat :: j < i && FromHead(deps, available, j, c)
  }

  lemma HeadAndPool(deps: Dependencies, available: seq<Tool>, i: nat, c: Chain)
    requires FromHead(deps, available, i, c)
    ensures c != [] && c[0] == available[i]
    ensures Continues(deps, [c[0]], c) && Maximal(deps, multiset(available), c)
  {
    WithoutDropsOne(available, i);
  }

  /** The chains found from the first i heads, in the order of the search. */
  function Found(deps: Dependencies, available: seq<Tool>, i: nat): seq<Chain>
    requires i <= |available|
  {
    if i == 0 then [] else
      Found(deps, available, i - 1) + PlanFrom(deps, Without(available, i - 1), [available[i - 1]])
  }

  /** Position k holds `c`, and no earlier position holds the same tools. */
  ghost predicate FirstAt(chains: seq<Chain>, k: nat, c: Chain) {
    k < |chains| && chains[k] == c && forall j :: 0 <= j < k ==> multiset(chains[j]) != multiset(c)
  }

  /** `kept` holds, in order, chains that are the first of their multiset, at these positions of `chains`. */
  ghost predicate FirstsAt(chains: seq<Chain>, kept: seq<Chain>, at: seq<nat>) {
    && |at| == |kept|
    && (forall a :: 0 <= a < |kept| ==> FirstAt(chains, at[a], kept[a]))
    && forall a, b :: 0 <= a < b < |at| ==> at[a] < at[b]
  }

  ghost predicate AreFirsts(chains: seq<Chain>, kept: seq<Chain>) {
    exists at :: FirstsAt(chains, kept, at)
  }

  /**
   What `plan` returns: some maximal chains, one for each multiset of tools that a head can reach,
   each the first that the search finds of its multiset.
   */
  ghost predicate IsChainSet(deps: Dependencies, available: seq<Tool>, r: seq<Chain>) {
    && (forall c :: c in r ==> FromSomeHead(deps, available, |available|, c))
    && (forall a, b :: 0 <= a < b < |r| ==> multiset(r[a]) != multiset(r[b]))
    && (forall i, c :: FromHead(deps, available, i, c) ==> Represented(r, c))
    && (available != [] ==> r != [] && FromHead(deps, available, 0, r[0]))
    && AreFirsts(Found(deps, available, |available|), r)
  }

  /** Some chain of `r` holds the same tools as `c`. */
  ghost predicate Represented(r: seq<Chain>, c: Chain) {
    exists a :: 0 <= a < |r| && multiset(r[a]) == multiset(c)
  }

  /** At most one chain per head survives. */
  lemma OneChainPerHead(deps: Dependencies, available: seq<Tool>, r: seq<Chain>, a: nat, b: nat)
    requires IsChainSet(deps, available, r) && a < b < |r|
    ensures r[a] != [] && r[b] != [] && r[a][0] != r[b][0]
  {
    assert r[a] in r && r[b] in r;
    var i: nat :| FromHead(deps, available, i, r[a]);
    var j: nat :| FromHead(deps, available, j, r[b]);
    HeadAndPool(deps, available, i, r[a]);
    HeadAndPool(deps, available, j, r[b]);
    if r[a][0] == r[b][0] {
      Confluence(deps, multiset(available), [r[a][0]], r[a], r[b]);
    }
  }

  /** The dependency graph among the available tools. */
  ghost function GraphOf(deps: Dependencies, available: seq<Tool>): Graph {
    map t | t in available :: DependenciesOf(deps, t)
  }

  lemma AcyclicReachesAll(deps: Dependencies, available: seq<Tool>, i: nat, c: Chain)
    requires Closed(GraphOf(deps, available)) && Acyclic(GraphOf(deps, available))
    requires FromHead(deps, available, i, c)
    ensures multiset(c) == multiset(available)
  {
    HeadAndPool(deps, available, i, c);
    var g, rest := GraphOf(deps, available), multiset(available) - multiset(c);
    var unused := set t | t in available && t in rest;
    if unused != {} {
      var t := MinimalMember(g, unused);
      forall d | d in DependenciesOf(deps, t) ensures d in c {
        assert Edge(g, t, d);
        assert d in multiset(available) && d !in rest;
        assert d in multiset(c);
      }
      assert false;
    }
    forall t | t in multiset(available) ensures multiset(available)[t] <= multiset(c)[t] {
      assert t !in unused;
    }
  }

  /** Acyclic dependencies within the list: one chain comes back, and it is a permutation of the list. */
  lemma PlanIsComplete(deps: Dependencies, available: seq<Tool>, r: seq<Chain>)
    requires available != [] && IsChainSet(deps, available, r)
    requires Closed(GraphOf(deps, available)) && Acyclic(GraphOf(deps, available))
    ensures |r| == 1 && multiset(r[0]) == multiset(available)
  {
    forall a | 0 <= a < |r| ensures multiset(r[a]) == multiset(available) {
      assert r[a] in r;
      var i: nat :| FromHead(deps, available, i, r[a]);
      AcyclicReachesAll(deps, available, i, r[a]);
    }
    var last := |r| - 1;
    assert multiset(r[last]) == multiset(r[0]);
  }

  /** A head reaches all tools exactly when some order of them, led by it, respects the other dependencies. */
  lemma HeadReachesAllIff(deps: Dependencies, available: seq<Tool>, i: nat, c: Chain)
    requires FromHead(deps, available, i, c)
    ensures multiset(c) == multiset(available) <==>
            exists w :: multiset(w) == multiset(available) && Continues(deps, [available[i]], w)
  {
    HeadAndPool(deps, available, i, c);
    if w :| multiset(w) == multiset(available) && Continues(deps, [available[i]], w) {
      Confluence(deps, multiset(available), [available[i]], c, w);
    }
  }

  /** Every tool, the head included, comes after its dependencies. */
  ghost predicate Ordered(deps: Dependencies, c: Chain) {
    forall k :: 0 <= k < |c| ==> HasDependency(deps, c[k], c[..k])
  }

  /** The head is never checked: a chain is ordered exactly when its head needs nothing. */
  lemma OrderedIffHeadIsFree(deps: Dependencies, available: seq<Tool>, i: nat, c: Chain)
    requires FromHead(deps, available, i, c)
    ensures Ordered(deps, c) <==> DependenciesOf(deps, available[i]) == []
  {
    HeadAndPool(deps, available, i, c);
    assert c[..0] == [];
    var needs := DependenciesOf(deps, c[0]);
    assert HasDependency(deps, c[0], c[..0]) <==> needs == [] by {
      if needs != [] { assert needs[0] in needs; }
    }
  }

  /**
   De-duplication keeps the chain of the first head. So on closed acyclic dependencies the
   plan is correctly ordered exactly when the first available tool has no dependencies.
   */
  lemma PlanIsOrderedIffFirstIsFree(deps: Dependencies, available: seq<Tool>, r: seq<Chain>)
    requires available != [] && IsChainSet(deps, available, r)
    requires Closed(GraphOf(deps, available)) && Acyclic(GraphOf(deps, available))
    ensures (forall c :: c in r ==> Ordered(deps, c)) <==> DependenciesOf(deps, available[0]) == []
  {
    PlanIsComplete(deps, available, r);
    OrderedIffHeadIsFree(deps, available, 0, r[0]);
    assert r == [r[0]];
  }

  lemma HeadFindsChain(deps: Dependencies, available: seq<Tool>, i: nat) returns (c: Chain)
    requires i < |available|
    ensures FromHead(deps, available, i, c)
  {
    c := PlanFrom(deps, Without(available, i), [available[i]])[0];
    PlanFromIsExact(deps, Without(available, i), [available[i]], c);
  }

  /** Two maximal ordered chains hold the same tools, whatever heads they have. */
  lemma OrderedChainsAgree(deps: Dependencies, available: seq<Tool>, c1: Chain, c2: Chain)
    requires FromSomeHead(deps, available, |available|, c1) && Ordered(deps, c1)
    requires FromSomeHead(deps, available, |available|, c2) && Ordered(deps, c2)
    ensures multiset(c1) == multiset(c2)
  {
    var i: nat :| FromHead(deps, available, i, c1);
    var j: nat :| FromHead(deps, available, j, c2);
    HeadAndPool(deps, available, i, c1);
    HeadAndPool(deps, available, j, c2);
    Confluence(deps, multiset(available), [], c1, c2);
  }

  /** If all the chains of a plan are ordered, the first one holds every available tool. */
  lemma OrderedPlanHasTool(deps: Dependencies, available: seq<Tool>, r: seq<Chain>, i: nat)
    requires IsChainSet(deps, available, r) && i < |available|
    requires forall c :: c in r ==> Ordered(deps, c)
    ensures r != [] && available[i] in r[0]
  {
    var c := HeadFindsChain(deps, available, i);
    HeadAndPool(deps, available, i, c);
    assert Represented(r, c);
    var a :| 0 <= a < |r| && multiset(r[a]) == multiset(c);
    assert r[0] in r && r[a] in r;
    OrderedChainsAgree(deps, available, r[0], r[a]);
    assert c[0] in multiset(c);
  }

  lemma OrderedPlanIsSound(deps: Dependencies, available: seq<Tool>, r: seq<Chain>)
    requires available != [] && IsChainSet(deps, available, r)
    requires forall c :: c in r ==> Ordered(deps, c)
    ensures Closed(GraphOf(deps, available)) && Acyclic(GraphOf(deps, available))
  {
    assert r[0] in r;
    forall t | t in available ensures t in r[0] {
      var i: nat :| i < |available| && available[i] == t;
      OrderedPlanHasTool(deps, available, r, i);
    }
    HeadAndPool(deps, available, 0, r[0]);
    OrderIsTopological(deps, available, r[0]);
  }

  lemma OrderIsTopological(deps: Dependencies, available: seq<Tool>, order: Chain)
    requires Ordered(deps, order) && multiset(order) <= multiset(available)
    requires forall t :: t in available ==> t in order
    ensures Closed(GraphOf(deps, available)) && Acyclic(GraphOf(deps, available))
  {
    var g := GraphOf(deps, available);
    forall t | t in order ensures t in available { assert t in multiset(order); }
    forall i, d | 0 <= i < |order| && Edge(g, order[i], d) ensures d in order[..i] {
      assert HasDependency(deps, order[i], order[..i]);
    }
    assert Elements(order) == g.Keys;
    OrderedIsSound(g, order);
  }

  /**
   The plan is correctly ordered exactly when the first available tool needs nothing, every needed
   tool is available, and no tools need each other in a circle.
   */
  lemma PlanIsOrderedIff(deps: Dependencies, available: seq<Tool>, r: seq<Chain>)
    requires available != [] && IsChainSet(deps, available, r)
    ensures (forall c :: c in r ==> Ordered(deps, c)) <==>
            && DependenciesOf(deps, available[0]) == []
            && Closed(GraphOf(deps, available)) && Acyclic(GraphOf(deps, available))
  {
    if forall c :: c in r ==> Ordered(deps, c) {
      OrderedPlanIsSound(deps, available, r);
      assert r[0] in r;
      OrderedIffHeadIsFree(deps, available, 0, r[0]);
    } else if Closed(GraphOf(deps, available)) && Acyclic(GraphOf(deps, available)) {
      PlanIsOrderedIffFirstIsFree(deps, available, r);
    }
  }

  const READ := "filesystem.read"
  const WRITE := "filesystem.write"
  const DELETE := "filesystem.delete"
  const BASH := "bash.execute"
  const HTTP := "http.request"
  const DB_QUERY := "database.query"
  const DB_WRITE := "database.write"
  const EMAIL := "email.send"
  const SEARCH := "search.execute"
  const DEFAULT_DEPENDENCIES: Dependencies := map[
    READ := [],
    WRITE := [READ],
    DELETE := [READ],
    BASH := [],
    HTTP := [],
    DB_QUERY := [DB_WRITE],
    DB_WRITE := [],
    EMAIL := [],
    SEARCH := [HTTP]
  ]

  /** Closed acyclic dependencies leave some tool free. */
  lemma SomeToolIsFree(deps: Dependencies, available: seq<Tool>) returns (i: nat)
    requires available != []
    requires Closed(GraphOf(deps, available)) && Acyclic(GraphOf(deps, available))
    ensures i < |available| && DependenciesOf(deps, available[i]) == []
  {
    var g, pending := GraphOf(deps, available), set t | t in available;
    assert available[0] in pending;
    var t := MinimalMember(g, pending);
    i :| i < |available| && available[i] == t;
    var needs := DependenciesOf(deps, t);
    assert needs != [] ==> Edge(g, t, needs[0]);
  }

  /**
   Whenever the first available tool needs another one, some head has an ordered chain of all the
   tools, and de-duplication drops it in favour of one that is not ordered.
   */
  lemma OrderedChainIsDropped(deps: Dependencies, available: seq<Tool>, r: seq<Chain>) returns (i: nat, c: Chain)
    requires available != [] && IsChainSet(deps, available, r)
    requires Closed(GraphOf(deps, available)) && Acyclic(GraphOf(deps, available))
    requires DependenciesOf(deps, available[0]) != []
    ensures FromHead(deps, available, i, c) && Ordered(deps, c) && multiset(c) == multiset(available)
    ensures r == [r[0]] && c !in r && !Ordered(deps, r[0])
  {
    i := SomeToolIsFree(deps, available);
    c := HeadFindsChain(deps, available, i);
    AcyclicReachesAll(deps, available, i, c);
    OrderedIffHeadIsFree(deps, available, i, c);
    PlanIsComplete(deps, available, r);
    OrderedIffHeadIsFree(deps, available, 0, r[0]);
    assert r == [r[0]];
  }

  lemma PairIsAcyclic(deps: Dependencies, tool: Tool, needed: Tool)
    requires tool != needed
    requires DependenciesOf(deps, tool) == [needed] && DependenciesOf(deps, needed) == []
    ensures Closed(GraphOf(deps, [tool, needed])) && Acyclic(GraphOf(deps, [tool, needed]))
  {
    var g, order := GraphOf(deps, [tool, needed]), [needed, tool];
    forall i, d | 0 <= i < |order| && Edge(g, order[i], d) ensures d in order[..i] {
      assert i == 1 && d == needed && order[..1] == [needed];
    }
    OrderedIsSound(g, order);
  }

  lemma TwoTools(c: Chain, tool: Tool, needed: Tool)
    requires multiset(c) == multiset{tool, needed} && c != [] && c[0] == tool
    ensures c == [tool, needed]
  {
    assert |multiset(c)| == 2;
    assert c == [c[0], c[1]];
    assert multiset(c) - multiset{tool} == multiset{c[1]};
    assert multiset(c) - multiset{tool} == multiset{needed};
    assert c[1] in multiset{needed};
  }

  lemma DefaultNeeds(tool: Tool, needed: Tool)
    ensures needed in DependenciesOf(DEFAULT_DEPENDENCIES, tool) <==>
            || (tool in {WRITE, DELETE} && needed == READ)
            || (tool == DB_QUERY && needed == DB_WRITE)
            || (tool == SEARCH && needed == HTTP)
    ensures |READ| == 15 && |WRITE| == 16 && |DELETE| == 17 && |HTTP| == 12 && READ[0] != HTTP[0]
    ensures |DB_QUERY| == |DB_WRITE| == |SEARCH| == 14
    ensures DB_QUERY[9] != DB_WRITE[9] && SEARCH[0] != DB_QUERY[0] == DB_WRITE[0]
  {
    assert |BASH| == 12 && BASH[0] != HTTP[0] && |EMAIL| == 10;
  }

  lemma DefaultEntries()
    ensures WRITE != READ
    ensures DependenciesOf(DEFAULT_DEPENDENCIES, WRITE) == [READ] && DependenciesOf(DEFAULT_DEPENDENCIES, READ) == []
  {
    assert |WRITE| == 16 && |READ| == 15;
  }

  lemma DefaultIsAcyclic(available: seq<Tool>)
    ensures Acyclic(GraphOf(DEFAULT_DEPENDENCIES, available))
  {
    var g := GraphOf(DEFAULT_DEPENDENCIES, available);
    forall p ensures !Cycle(g, p) {
      if Cycle(g, p) {
        assert Edge(g, p[0], p[1]);
        assert |p| > 2 ==> Edge(g, p[1], p[2]);
        DefaultNeeds(p[0], p[1]);
        DefaultNeeds(p[1], if |p| > 2 then p[2] else p[1]);
      }
    }
  }

  lemma DefaultIsClosedIff(available: seq<Tool>)
    ensures Closed(GraphOf(DEFAULT_DEPENDENCIES, available)) <==>
            && (WRITE in available || DELETE in available ==> READ in available)
            && (DB_QUERY in available ==> DB_WRITE in available)
            && (SEARCH in available ==> HTTP in available)
  {
    var g := GraphOf(DEFAULT_DEPENDENCIES, available);
    forall n, d ensures Edge(g, n, d) <==> n in available && d in DependenciesOf(DEFAULT_DEPENDENCIES, n) {}
    DefaultNeeds(WRITE, READ);
    DefaultNeeds(DELETE, READ);
    DefaultNeeds(DB_QUERY, DB_WRITE);
    DefaultNeeds(SEARCH, HTTP);
    if Closed(g) {
      assert WRITE in available ==> Edge(g, WRITE, READ);
      assert DELETE in available ==> Edge(g, DELETE, READ);
      assert DB_QUERY in available ==> Edge(g, DB_QUERY, DB_WRITE);
      assert SEARCH in available ==> Edge(g, SEARCH, HTTP);
    } else {
      var n, d :| Edge(g, n, d) && d !in g;
      DefaultNeeds(n, d);
    }
  }

  /**
   With the built-in table the plan is correctly ordered exactly when its first tool is none of the
   four that need another, and what each of these four needs is available with it.
   */
  lemma DefaultPlanIsOrderedIff(available: seq<Tool>, r: seq<Chain>)
    requires available != [] && IsChainSet(DEFAULT_DEPENDENCIES, available, r)
    ensures (forall c :: c in r ==> Ordered(DEFAULT_DEPENDENCIES, c)) <==>
            && available[0] !in {WRITE, DELETE, DB_QUERY, SEARCH}
            && (WRITE in available || DELETE in available ==> READ in available)
            && (DB_QUERY in available ==> DB_WRITE in available)
            && (SEARCH in available ==> HTTP in available)
  {
    PlanIsOrderedIff(DEFAULT_DEPENDENCIES, available, r);
    DefaultIsAcyclic(available);
    DefaultIsClosedIff(available);
    var needs := DependenciesOf(DEFAULT_DEPENDENCIES, available[0]);
    if needs != [] {
      DefaultNeeds(available[0], needs[0]);
    } else {
      DefaultNeeds(available[0], READ);
      DefaultNeeds(available[0], DB_WRITE);
      DefaultNeeds(available[0], HTTP);
    }
  }

  /** It happens with the built-in table: writing a file is planned before reading it. */
  lemma WritePrecedesItsRead(r: seq<Chain>)
    requires IsChainSet(DEFAULT_DEPENDENCIES, [WRITE, READ], r)
    ensures r == [[WRITE, READ]] && !Ordered(DEFAULT_DEPENDENCIES, [WRITE, READ])
  {
    var available := [WRITE, READ];
    DefaultEntries();
    PairIsAcyclic(DEFAULT_DEPENDENCIES, WRITE, READ);
    var i, c := OrderedChainIsDropped(DEFAULT_DEPENDENCIES, available, r);
    PlanIsComplete(DEFAULT_DEPENDENCIES, available, r);
    HeadAndPool(DEFAULT_DEPENDENCIES, available, 0, r[0]);
    TwoTools(r[0], WRITE, READ);
  }

  /** A need that is not available spoils the plan, even behind a tool that needs nothing. */
  lemma MissingNeedSpoilsPlan(deps: Dependencies, available: seq<Tool>, r: seq<Chain>, tool: Tool, needed: Tool)
    requires IsChainSet(deps, available, r)
    requires tool in available && needed in DependenciesOf(deps, tool) && needed !in available
    ensures exists c :: c in r && !Ordered(deps, c)
  {
    assert Edge(GraphOf(deps, available), tool, needed);
    PlanIsOrderedIff(deps, available, r);
  }

  lemma ReadIsMissing(available: seq<Tool>)
    requires available == [BASH, WRITE]
    ensures DependenciesOf(DEFAULT_DEPENDENCIES, BASH) == []
    ensures WRITE in available && READ in DependenciesOf(DEFAULT_DEPENDENCIES, WRITE) && READ !in available
  {
    DefaultEntries();
    assert available[1] == WRITE;
    assert BASH[0] == 'b' && READ[0] == 'f';
  }

  /** It happens with the built-in table: the first tool needs nothing, and the read is missing. */
  lemma MissingReadSpoilsPlan(deps: Dependencies, available: seq<Tool>, r: seq<Chain>)
    requires deps == DEFAULT_DEPENDENCIES && available == [BASH, WRITE] && IsChainSet(deps, available, r)
    ensures DependenciesOf(deps, available[0]) == [] && exists c :: c in r && !Ordered(deps, c)
  {
    ReadIsMissing(available);
    MissingNeedSpoilsPlan(deps, available, r, WRITE, READ);
  }

  /** What the search has found before it takes position i. */
  ghost predicate FoundBefore(deps: Dependencies, remaining: seq<Tool>, chain: Chain, i: nat, chains: seq<Chain>)
    requires i <= |remaining|
  {
    PlanNext(deps, remaining, chain, 0) == chains + PlanNext(deps, remaining, chain, i)
  }

  lemma NothingBefore(deps: Dependencies, remaining: seq<Tool>, chain: Chain)
    ensures FoundBefore(deps, remaining, chain, 0, [])
  {
    var all := PlanNext(deps, remaining, chain, 0);
    assert [] + all == all;
  }

  lemma AllFound(deps: Dependencies, remaining: seq<Tool>, chain: Chain, chains: seq<Chain>)
    requires remaining != [] && FoundBefore(deps, remaining, chain, |remaining|, chains)
    ensures PlanFrom(deps, remaining, chain) == if chains == [] then [chain] else chains
  {
    assert chains + [] == chains;
  }

  lemma NextPosition(deps: Dependencies, remaining: seq<Tool>, chain: Chain, i: nat, chains: seq<Chain>)
    requires i < |remaining| && FoundBefore(deps, remaining, chain, i, chains)
    ensures FoundBefore(deps, remaining, chain, i + 1,
                        if HasDependency(deps, remaining[i], chain)
                        then chains + PlanFrom(deps, Without(remaining, i), chain + [remaining[i]]) else chains)
  {
    var rest := PlanNext(deps, remaining, chain, i + 1);
    if HasDependency(deps, remaining[i], chain) {
      var sub := PlanFrom(deps, Without(remaining, i), chain + [remaining[i]]);
      assert PlanNext(deps, remaining, chain, i) == sub + rest;
      assert chains + (sub + rest) == chains + sub + rest;
    } else {
      assert PlanNext(deps, remaining, chain, i) == [] + rest == rest;
    }
  }

  /** The chains of the first i heads, that of the very first head in front. */
  ghost predicate HeadsSearched(deps: Dependencies, available: seq<Tool>, i: nat, chains: seq<Chain>) {
    && (forall c :: c in chains <==> FromSomeHead(deps, available, i, c))
    && if i == 0 then chains == [] else chains != [] && FromHead(deps, available, 0, chains[0])
  }

  lemma SearchNextHead(deps: Dependencies, available: seq<Tool>, i: nat, chains: seq<Chain>)
    requires i < |available| && HeadsSearched(deps, available, i, chains)
    ensures HeadsSearched(deps, available, i + 1,
                          chains + PlanFrom(deps, Without(available, i), [available[i]]))
  {
    FrontChainStays(deps, available, i, chains);
    forall c ensures c in chains + PlanFrom(deps, Without(available, i), [available[i]])
                     <==> FromSomeHead(deps, available, i + 1, c) {
      PlanFromIsExact(deps, Without(available, i), [available[i]], c);
      OneMoreHead(deps, available, i, c);
    }
  }

  lemma FrontChainStays(deps: Dependencies, available: seq<Tool>, i: nat, chains: seq<Chain>)
    requires i < |available|
    requires if i == 0 then chains == [] else chains != [] && FromHead(deps, available, 0, chains[0])
    ensures FromHead(deps, available, 0, (chains + PlanFrom(deps, Without(available, i), [available[i]]))[0])
  {
    if i == 0 {
      var sub := PlanFrom(deps, Without(available, 0), [available[0]]);
      assert chains + sub == sub && sub[0] in sub;
      PlanFromIsExact(deps, Without(available, 0), [available[0]], sub[0]);
    }
  }

  lemma OneMoreHead(deps: Dependencies, available: seq<Tool>, i: nat, c: Chain)
    ensures FromSomeHead(deps, available, i + 1, c) <==>
            FromSomeHead(deps, available, i, c) || FromHead(deps, available, i, c)
  {}

  lemma SingleTool(deps: Dependencies, available: seq<Tool>)
    requires |available| == 1
    ensures IsChainSet(deps, available, [available])
  {
    var pool := multiset(available);
    assert Without(available, 0) == [] && [available[0]] == available;
    assert FromHead(deps, available, 0, available);
    assert Found(deps, available, 0) == [];
    assert Found(deps, available, 1) == [available];
    assert FirstsAt([available], [available], [0]);
    forall i, c | FromHead(deps, available, i, c) ensures Represented([available], c) {
      HeadAndPool(deps, available, i, c);
      Confluence(deps, pool, available, available, c);
      assert [available][0] == available;
    }
  }

  lemma KeptChains(deps: Dependencies, available: seq<Tool>, chains: seq<Chain>, r: seq<Chain>)
    requires HeadsSearched(deps, available, |available|, chains)
    requires chains == Found(deps, available, |available|) && AreFirsts(chains, r)
    requires forall c :: c in r ==> c in chains
    requires forall a, b :: 0 <= a < b < |r| ==> multiset(r[a]) != multiset(r[b])
    requires forall c :: c in chains ==> Represented(r, c)
    requires chains != [] ==> r != [] && r[0] == chains[0]
    ensures IsChainSet(deps, available, r)
  {
    forall i, c | FromHead(deps, available, i, c) ensures Represented(r, c) {
      assert FromSomeHead(deps, available, |available|, c);
    }
  }

  // ----- which chain is found first

  /** The first chain that takes a tool at position i or later next: it takes the first one that can go next. */
  lemma {:induction false} FirstNext(deps: Dependencies, remaining: seq<Tool>, chain: Chain, i: nat) returns (j: nat)
    requires i <= |remaining| && PlanNext(deps, remaining, chain, i) != []
    ensures i <= j < |remaining| && HasDependency(deps, remaining[j], chain)
    ensures forall k :: i <= k < j ==> !HasDependency(deps, remaining[k], chain)
    ensures PlanNext(deps, remaining, chain, i)[0]
         == PlanFrom(deps, Without(remaining, j), chain + [remaining[j]])[0]
    decreases |remaining| - i
  {
    j := i;
    if !HasDependency(deps, remaining[i], chain) {
      j := FirstNext(deps, remaining, chain, i + 1);
    }
  }

  /** `chain` takes the positions p of `available`; `rest` are the others in order, `remaining` their tools. */
  ghost predicate Tracks(available: seq<Tool>, remaining: seq<Tool>, chain: Chain, p: seq<nat>, rest: seq<nat>) {
    && Takes(available, chain, p) && |rest| == |remaining|
    && (forall j :: 0 <= j < |rest| ==> rest[j] < |available| && remaining[j] == available[rest[j]])
    && (forall j, k :: 0 <= j < k < |rest| ==> rest[j] < rest[k])
    && forall i :: 0 <= i < |available| ==> (i in rest <==> i !in p)
  }

  ghost predicate Takes(available: seq<Tool>, chain: Chain, p: seq<nat>) {
    && |p| == |chain| && (forall k :: 0 <= k < |p| ==> p[k] < |available| && chain[k] == available[p[k]])
    && forall j, k :: 0 <= j < k < |p| ==> p[j] != p[k]
  }

  /** Position i is free after k steps and its tool could go next. */
  ghost predicate CanGo(deps: Dependencies, available: seq<Tool>, c: Chain, p: seq<nat>, k: nat, i: nat)
    requires k <= |p| && k <= |c|
  {
    i < |available| && i !in p[..k] && HasDependency(deps, available[i], c[..k])
  }

  /** From step `from` on the first position that can go is taken, until none can. */
  ghost predicate Greedy(deps: Dependencies, available: seq<Tool>, c: Chain, p: seq<nat>, from: nat) {
    && Takes(available, c, p)
    && (forall k :: from <= k < |p| ==> CanGo(deps, available, c, p, k, p[k]))
    && (forall k, i: nat :: from <= k < |p| && i < p[k] ==> !CanGo(deps, available, c, p, k, i))
    && forall i: nat :: !CanGo(deps, available, c, p, |p|, i)
  }

  lemma DropPosition(rest: seq<nat>, j: nat, i: nat)
    requires j < |rest| && forall k, l :: 0 <= k < l < |rest| ==> rest[k] < rest[l]
    ensures i in rest[..j] + rest[j + 1..] <==> i in rest && i != rest[j]
  {
    var fewer := rest[..j] + rest[j + 1..];
    if i in fewer {
      var k :| 0 <= k < |fewer| && fewer[k] == i;
      assert rest[if k < j then k else k + 1] == i;
    }
    if i in rest && i != rest[j] {
      var k :| 0 <= k < |rest| && rest[k] == i;
      assert fewer[if k < j then k else k - 1] == i;
    }
  }

  lemma DroppedTools(available: seq<Tool>, remaining: seq<Tool>, rest: seq<nat>, j: nat, k: nat)
    requires |rest| == |remaining| && j < |rest| && k < |rest| - 1
    requires forall i :: 0 <= i < |rest| ==> rest[i] < |available| && remaining[i] == available[rest[i]]
    ensures var fewer := rest[..j] + rest[j + 1..];
            fewer[k] < |available| && Without(remaining, j)[k] == available[fewer[k]]
  {
    WithoutAt(remaining, j, k);
  }

  lemma TakeNext(available: seq<Tool>, remaining: seq<Tool>, chain: Chain, p: seq<nat>, rest: seq<nat>, j: nat)
    requires Tracks(available, remaining, chain, p, rest) && j < |remaining|
    ensures Tracks(available, Without(remaining, j), chain + [remaining[j]], p + [rest[j]],
                   rest[..j] + rest[j + 1..])
  {
    var t, fewer, p' := rest[j], rest[..j] + rest[j + 1..], p + [rest[j]];
    assert t in rest && t !in p;
    forall k | 0 <= k < |fewer|
      ensures fewer[k] < |available| && Without(remaining, j)[k] == available[fewer[k]]
    {
      DroppedTools(available, remaining, rest, j, k);
    }
    forall i | 0 <= i < |available| ensures i in fewer <==> i !in p' {
      DropPosition(rest, j, i);
    }
  }

  /** Taking one tool out leaves the others in order. */
  lemma WithoutAt(s: seq<Tool>, i: nat, k: nat)
    requires i < |s| && k < |s| - 1
    ensures Without(s, i)[k] == s[if k < i then k else k + 1]
  {}

  lemma NothingCanGo(
    deps: Dependencies, available: seq<Tool>, remaining: seq<Tool>, chain: Chain, p: seq<nat>, rest: seq<nat>)
    requires Tracks(available, remaining, chain, p, rest)
    requires forall j :: 0 <= j < |remaining| ==> !HasDependency(deps, remaining[j], chain)
    ensures Greedy(deps, available, chain, p, |p|)
  {
    assert chain[..|p|] == chain && p[..|p|] == p;
    forall i: nat | i < |available| && i !in p ensures !HasDependency(deps, available[i], chain) {
      assert i in rest;
      var j :| 0 <= j < |rest| && rest[j] == i;
    }
  }

  lemma FirstCanGo(
    deps: Dependencies, available: seq<Tool>, remaining: seq<Tool>, chain: Chain, p: seq<nat>, rest: seq<nat>,
    j: nat, c: Chain, p': seq<nat>)
    requires Tracks(available, remaining, chain, p, rest) && j < |remaining|
    requires HasDependency(deps, remaining[j], chain)
    requires forall k :: 0 <= k < j ==> !HasDependency(deps, remaining[k], chain)
    requires Greedy(deps, available, c, p', |p| + 1) && p + [rest[j]] <= p' && chain <= c
    ensures Greedy(deps, available, c, p', |p|)
  {
    assert p'[..|p|] == p && c[..|p|] == chain && p'[|p|] == rest[j];
    assert rest[j] in rest;
    forall i: nat | i < rest[j] ensures !CanGo(deps, available, c, p', |p|, i) {
      if i < |available| && i !in p {
        assert i in rest;
        var k :| 0 <= k < |rest| && rest[k] == i;
      }
    }
  }

  lemma {:induction false} GreedyFrom(
    deps: Dependencies, available: seq<Tool>, remaining: seq<Tool>, chain: Chain, p: seq<nat>, rest: seq<nat>)
    returns (p': seq<nat>)
    requires Tracks(available, remaining, chain, p, rest)
    ensures p <= p' && Greedy(deps, available, PlanFrom(deps, remaining, chain)[0], p', |p|)
    decreases |remaining|
  {
    PlanNextIsEmpty(deps, remaining, chain, 0);
    if remaining == [] || PlanNext(deps, remaining, chain, 0) == [] {
      p' := p;
      NothingCanGo(deps, available, remaining, chain, p, rest);
    } else {
      var j := FirstNext(deps, remaining, chain, 0);
      var c := PlanFrom(deps, remaining, chain)[0];
      TakeNext(available, remaining, chain, p, rest, j);
      p' := GreedyFrom(deps, available, Without(remaining, j), chain + [remaining[j]], p + [rest[j]],
                       rest[..j] + rest[j + 1..]);
      PlanFromIsSound(deps, remaining, chain, c);
      FirstCanGo(deps, available, remaining, chain, p, rest, j, c, p');
    }
  }

  /** The first chain kept is the first one found. */
  lemma FirstIsKept(deps: Dependencies, available: seq<Tool>, r: seq<Chain>)
    requires available != [] && IsChainSet(deps, available, r)
    ensures var first := PlanFrom(deps, Without(available, 0), [available[0]])[0];
            r != [] && r[0] == first
  {
    var found, first := Found(deps, available, |available|), PlanFrom(deps, Without(available, 0), [available[0]])[0];
    FoundStarts(deps, available, |available|);
    PlanFromIsExact(deps, Without(available, 0), [available[0]], first);
    assert FromHead(deps, available, 0, first);
    assert Represented(r, first);
    var a :| 0 <= a < |r| && multiset(r[a]) == multiset(first);
    var at :| FirstsAt(found, r, at);
    assert FirstAt(found, at[a], r[a]);
    assert at[a] == 0;
  }

  lemma {:induction false} FoundStarts(deps: Dependencies, available: seq<Tool>, n: nat)
    requires 0 < n <= |available|
    ensures Found(deps, available, n) != []
    ensures Found(deps, available, n)[0] == PlanFrom(deps, Without(available, 0), [available[0]])[0]
  {
    if n == 1 {
      assert Found(deps, available, 0) == [];
    } else {
      FoundStarts(deps, available, n - 1);
    }
  }

  /**
   The plan's first chain starts with the first available tool, and from then on takes, in the order
   of the list, the first tool that has not been taken and whose needs have, until there is none.
   */
  lemma FirstChainIsGreedy(deps: Dependencies, available: seq<Tool>, r: seq<Chain>) returns (p: seq<nat>)
    requires available != [] && IsChainSet(deps, available, r)
    ensures r != [] && p != [] && p[0] == 0 && Greedy(deps, available, r[0], p, 1)
  {
    FirstIsKept(deps, available, r);
    var rest := BehindHead(available);
    p := GreedyFrom(deps, available, Without(available, 0), [available[0]], [0], rest);
  }

  lemma BehindHead(available: seq<Tool>) returns (rest: seq<nat>)
    requires available != []
    ensures Tracks(available, Without(available, 0), [available[0]], [0], rest)
  {
    rest := seq(|available| - 1, i requires 0 <= i < |available| - 1 => i + 1);
    var remaining := Without(available, 0);
    forall j | 0 <= j < |rest| ensures remaining[j] == available[rest[j]] {
      WithoutAt(available, 0, j);
    }
    forall i | 0 <= i < |available| ensures i in rest <==> i !in [0] {
      assert i > 0 ==> rest[i - 1] == i;
    }
  }

  ghost function Contents(r: seq<Chain>): set<multiset<Tool>> {
    set c | c in r :: multiset(c)
  }

  lemma KeepOneMore(unique: seq<Chain>, x: Chain)
    ensures Contents(unique + [x]) == Contents(unique) + {multiset(x)}
  {
    var longer := unique + [x];
    forall m | m in Contents(unique) + {multiset(x)} ensures m in Contents(longer) {
      if m == multiset(x) {
        assert longer[|unique|] in longer;
      } else {
        var c :| c in unique && multiset(c) == m;
        assert c in longer;
      }
    }
  }

  /** After i chains: those kept are the firsts of their multisets, and every multiset so far is kept. */
  ghost predicate KeptBefore(chains: seq<Chain>, i: nat, unique: seq<Chain>, at: seq<nat>)
    requires i <= |chains|
  {
    && FirstsAt(chains, unique, at) && (forall a :: 0 <= a < |at| ==> at[a] < i)
    && (forall j :: 0 <= j < i ==> multiset(chains[j]) in Contents(unique))
    && if i == 0 then unique == [] else unique != [] && unique[0] == chains[0]
  }

  lemma KeepNext(chains: seq<Chain>, i: nat, unique: seq<Chain>, at: seq<nat>)
    requires i < |chains| && KeptBefore(chains, i, unique, at) && multiset(chains[i]) !in Contents(unique)
    ensures KeptBefore(chains, i + 1, unique + [chains[i]], at + [i])
  {
    var longer, positions := unique + [chains[i]], at + [i];
    KeepOneMore(unique, chains[i]);
    forall a | 0 <= a < |longer| ensures FirstAt(chains, positions[a], longer[a]) {
      if a < |unique| {
        assert FirstAt(chains, at[a], unique[a]);
      }
    }
  }

  lemma KeptAll(chains: seq<Chain>, unique: seq<Chain>, at: seq<nat>)
    requires KeptBefore(chains, |chains|, unique, at)
    ensures AreFirsts(chains, unique)
    ensures forall c :: c in unique ==> c in chains
    ensures forall a, b :: 0 <= a < b < |unique| ==> multiset(unique[a]) != multiset(unique[b])
    ensures forall c :: c in chains ==> Represented(unique, c)
  {
    forall c | c in unique ensures c in chains {
      var a :| 0 <= a < |unique| && unique[a] == c;
      assert FirstAt(chains, at[a], unique[a]);
    }
    forall a, b | 0 <= a < b < |unique| ensures multiset(unique[a]) != multiset(unique[b]) {
      assert FirstAt(chains, at[a], unique[a]) && FirstAt(chains, at[b], unique[b]);
    }
    forall c | c in chains ensures Represented(unique, c) { KeyIsRepresented(unique, c); }
  }

  lemma KeyIsRepresented(unique: seq<Chain>, c: Chain)
    requires multiset(c) in Contents(unique)
    ensures Represented(unique, c)
  {}

  class MultiHopChainPlanner {
    var toolDependencies: Dependencies

    constructor ()
      ensures toolDependencies == DEFAULT_DEPENDENCIES
    {
      toolDependencies := DEFAULT_DEPENDENCIES;
    }

    method AddDependency(tool: Tool, dependsOn: Tool)
      modifies this
      ensures toolDependencies.Keys == old(toolDependencies).Keys + {tool}
      ensures DependenciesOf(toolDependencies, tool) ==
              var before := DependenciesOf(old(toolDependencies), tool);
              if dependsOn in before then before else before + [dependsOn]
      ensures forall t :: t != tool ==>
                DependenciesOf(toolDependencies, t) == DependenciesOf(old(toolDependencies), t)
    {
      if tool !in toolDependencies {
        toolDependencies := toolDependencies[tool := []];
      }
      if dependsOn !in toolDependencies[tool] {
        toolDependencies := toolDependencies[tool := toolDependencies[tool] + [dependsOn]];
      }
    }

    method PlanWithTool(remaining: seq<Tool>, currentChain: Chain) returns (chains: seq<Chain>)
      ensures chains == PlanFrom(toolDependencies, remaining, currentChain)
      decreases |remaining|
    {
      if remaining == [] {
        return [currentChain];
      }
      chains := [];
      NothingBefore(toolDependencies, remaining, currentChain);
      for i := 0 to |remaining|
        invariant FoundBefore(toolDependencies, remaining, currentChain, i, chains)
      {
        NextPosition(toolDependencies, remaining, currentChain, i, chains);
        if HasDependency(toolDependencies, remaining[i], currentChain) {
          var sub := PlanWithTool(Without(remaining, i), currentChain + [remaining[i]]);
          chains := chains + sub;
        }
      }
      AllFound(toolDependencies, remaining, currentChain, chains);
      if chains == [] {
        chains := [currentChain];
      }
    }

    method Plan(available: seq<Tool>) returns (r: seq<Chain>)
      ensures IsChainSet(toolDependencies, available, r)
    {
      if |available| == 1 {
        SingleTool(toolDependencies, available);
        return [available];
      }
      var chains := AllHeads(available);
      r := KeepFirst(chains);
      KeptChains(toolDependencies, available, chains, r);
    }

    /** The chains from every head, in order. */
    method AllHeads(available: seq<Tool>) returns (chains: seq<Chain>)
      ensures chains == Found(toolDependencies, available, |available|)
      ensures HeadsSearched(toolDependencies, available, |available|, chains)
    {
      chains := [];
      for i := 0 to |available|
        invariant chains == Found(toolDependencies, available, i)
        invariant HeadsSearched(toolDependencies, available, i, chains)
      {
        var sub := PlanWithTool(Without(available, i), [available[i]]);
        SearchNextHead(toolDependencies, available, i, chains);
        chains := chains + sub;
      }
    }

    /** One chain per sorted tuple of tools, here its multiset: the first one found. */
    static method KeepFirst(chains: seq<Chain>) returns (unique: seq<Chain>)
      ensures forall c :: c in unique ==> c in chains
      ensures forall a, b :: 0 <= a < b < |unique| ==> multiset(unique[a]) != multiset(unique[b])
      ensures forall c :: c in chains ==> Represented(unique, c)
      ensures chains != [] ==> unique != [] && unique[0] == chains[0]
      ensures AreFirsts(chains, unique)
    {
      unique := [];
      ghost var at: seq<nat> := [];
      var seen: set<multiset<Tool>> := {};
      for i := 0 to |chains|
        invariant KeptBefore(chains, i, unique, at) && seen == Contents(unique)
      {
        var key := multiset(chains[i]);
        if key !in seen {
          KeepOneMore(unique, chains[i]);
          KeepNext(chains, i, unique, at);
          seen := seen + {key};
          at := at + [i];
          unique := unique + [chains[i]];
        }
      }
      KeptAll(chains, unique, at);
    }
  }
}
