/**
 The workflow orchestrator: a depth-first cycle check when a workflow is
 built, and a scheduler that runs the steps wave by wave.
 */
module DagOrchestrator {
  import opened Graphs
  import opened Dictionaries

  datatype StepOutcome<V> = Returned(value: V) | Raised(error: string)

  datatype WorkflowStep<!V> = WorkflowStep(
    name: Name, execute: map<Name, V> -> StepOutcome<V>, dependsOn: seq<Name>)

  datatype Verdict = Accepted | CircularAt(name: Name) | MissingStep(name: Name)

  datatype RunOutcome<V> =
    | Completed(results: map<Name, V>)
    | StepFailed(name: Name, error: string)
    | Deadlocked

  datatype WaveOutcome<V> =
    | Stuck
    | Advanced(completed: map<Name, V>, pending: set<Name>)
    | Failed(name: Name, error: string)

  /** The names visited and the names on the current depth-first path. */
  class CycleCheck {
    const steps: Graph
    var visited: set<Name>
    var path: set<Name>
    ghost var stack: seq<Name>     // `path`, in the order of entry
    ghost var finished: seq<Name>  // names whose visit is over, in the order they ended

    ghost predicate Valid()
      reads this
    {
      && path == Elements(stack) && Distinct(stack)
      && (stack != [] ==> Walk(steps, stack))
      && visited == path + Elements(finished)
      && path !! Elements(finished)
      && Topological(steps, finished)
    }

    constructor (steps: Graph)
      ensures Valid() && this.steps == steps
      ensures visited == {} && path == {} && stack == [] && finished == []
    {
      this.steps := steps;
      visited, path, stack, finished := {}, {}, [], [];
    }

    method Visit(name: Name) returns (r: Verdict)
      requires Valid()
      requires stack != [] ==> Edge(steps, stack[|stack| - 1], name)
      modifies this
      ensures r.Accepted? ==>
                && Valid() && stack == old(stack) && path == old(path)
                && old(finished) <= finished && name in finished && old(visited) <= visited
      ensures r.CircularAt? ==> exists c :: Cycle(steps, c) && r.name in c
      ensures r.MissingStep? ==> r.name !in steps && (r.name == name || exists n :: Edge(steps, n, r.name))
      decreases steps.Keys - visited
    {
      if name in path {
        ghost var k :| 0 <= k < |stack| && stack[k] == name;
        ghost var c := ClosingEdge(steps, stack, k);
        return CircularAt(name);
      }
      if name in visited {
        return Accepted;
      }
      path := path + {name};
      visited := visited + {name};
      if name !in steps {
        return MissingStep(name);
      }
      Enter(name);
      ghost var entered := visited;
      var deps := steps[name];
      for i := 0 to |deps|
        invariant Valid() && stack == old(stack) + [name]
        invariant old(finished) <= finished && entered <= visited
        invariant forall j :: 0 <= j < i ==> deps[j] in finished
      {
        assert Edge(steps, name, deps[i]);
        var sub := Visit(deps[i]);
        if !sub.Accepted? {
          return sub;
        }
      }
      path := path - {name};
      Leave(name);
      return Accepted;
    }

    ghost method Enter(name: Name)
      requires name in steps && path == Elements(stack) + {name} && name !in stack && name !in finished
      requires Distinct(stack) && (stack != [] ==> Walk(steps, stack) && Edge(steps, stack[|stack| - 1], name))
      requires visited == path + Elements(finished) && path !! Elements(finished)
      requires Topological(steps, finished)
      modifies this`stack
      ensures Valid() && stack == old(stack) + [name]
    {
      if stack != [] {
        ExtendWalk(steps, stack, name);
      }
      stack := stack + [name];
    }

    ghost method Leave(name: Name)
      requires stack != [] && stack[|stack| - 1] == name && name in steps
      requires path == Elements(stack) - {name} && Distinct(stack) && Walk(steps, stack)
      requires visited == Elements(stack) + Elements(finished) && Elements(stack) !! Elements(finished)
      requires Topological(steps, finished)
      requires forall d :: Edge(steps, name, d) ==> d in finished
      modifies this`stack, this`finished
      ensures Valid() && stack == old(stack)[..|old(stack)| - 1]
      ensures finished == old(finished) + [name]
    {
      assert name in Elements(stack);
      var rest := stack[..|stack| - 1];
      assert Elements(rest) == Elements(stack) - {name};
      if rest != [] {
        forall i | 0 <= i < |rest| - 1 ensures Edge(steps, rest[i], rest[i + 1]) {
          assert Edge(steps, stack[i], stack[i + 1]);
        }
      }
      var f := finished + [name];
      forall i, d | 0 <= i < |f| && Edge(steps, f[i], d) ensures d in f[..i] {
        if i < |finished| {
          assert d in finished[..i];
        }
        assert f[..i] == finished[..i];
      }
      ElementsAppend(finished, name);
      stack, finished := rest, f;
    }
  }

  /** The dictionary built from the step list: a later step of the same name wins. */
  function StepTable<V>(list: seq<WorkflowStep<V>>): map<Name, WorkflowStep<V>> {
    if list == [] then map[] else
      var last := list[|list| - 1];
      StepTable(list[..|list| - 1])[last.name := last]
  }

  function Names<V>(list: seq<WorkflowStep<V>>): seq<Name> {
    if list == [] then [] else Names(list[..|list| - 1]) + [list[|list| - 1].name]
  }

  lemma {:induction false} NamesAreKeys<V>(list: seq<WorkflowStep<V>>)
    ensures forall n :: n in Names(list) <==> n in StepTable(list)
  {
    if list != [] {
      NamesAreKeys(list[..|list| - 1]);
    }
  }

  lemma {:induction false} NamesAreOfSteps<V>(list: seq<WorkflowStep<V>>, n: Name)
    ensures n in Names(list) <==> exists i :: 0 <= i < |list| && list[i].name == n
  {
    if list != [] {
      var before, last := list[..|list| - 1], list[|list| - 1];
      NamesAreOfSteps(before, n);
      assert list[|list| - 1] == last && forall i :: 0 <= i < |before| ==> list[i] == before[i];
      if n in Names(before) {
        var i :| 0 <= i < |before| && before[i].name == n;
        assert list[i].name == n;
      }
    }
  }

  /** The order in which the check takes the steps: every name once. */
  lemma StepsInOrder<V>(list: seq<WorkflowStep<V>>)
    ensures Elements(KeyOrder(Names(list))) == StepTable(list).Keys && Distinct(KeyOrder(Names(list)))
  {
    KeysAreDistinct(Names(list));
    NamesAreKeys(list);
  }

  /** Step i is the last one listed under the name n. */
  ghost predicate LastNamed<V>(list: seq<WorkflowStep<V>>, n: Name, i: nat) {
    i < |list| && list[i].name == n && forall j :: i < j < |list| ==> list[j].name != n
  }

  lemma {:induction false} TableHoldsLast<V>(list: seq<WorkflowStep<V>>, n: Name)
    ensures n in StepTable(list) <==> exists i: nat :: LastNamed(list, n, i)
    ensures forall i: nat :: LastNamed(list, n, i) ==> n in StepTable(list) && StepTable(list)[n] == list[i]
  {
    if list != [] {
      var before, last := list[..|list| - 1], |list| - 1;
      TableHoldsLast(before, n);
      if list[last].name == n {
        assert LastNamed(list, n, last);
      } else {
        forall i: nat ensures LastNamed(list, n, i) <==> LastNamed(before, n, i) {
          assert LastNamed(list, n, i) ==> i != last;
        }
      }
    }
  }

  function DependencyGraph<V>(steps: map<Name, WorkflowStep<V>>): (g: Graph)
    ensures g.Keys == steps.Keys
  {
    map n | n in steps :: steps[n].dependsOn
  }

  /** Some order of the members of a set: Python fixes none. */
  method Enumerate(s: set<Name>) returns (names: seq<Name>)
    ensures Elements(names) == s && Distinct(names)
  {
    names := [];
    var left := s;
    while left != {}
      invariant Elements(names) + left == s && Elements(names) !! left && Distinct(names)
      decreases left
    {
      var n :| n in left;
      assert n !in Elements(names);
      left := left - {n};
      ElementsAppend(names, n);
      names := names + [n];
    }
  }

  class DagOrchestrator<V> {
    const list: seq<WorkflowStep<V>>
    const steps := StepTable(list)

    ghost function G(): Graph {
      DependencyGraph(steps)
    }

    constructor (list: seq<WorkflowStep<V>>)
      ensures this.list == list
    {
      this.list := list;
    }

    /** A name maps to the last step listed under it, and to nothing if there is none. */
    lemma StepsAreLastNamed(n: Name)
      ensures n in steps <==> exists i: nat :: LastNamed(list, n, i)
      ensures forall i: nat :: LastNamed(list, n, i) ==> n in steps && steps[n] == list[i]
    {
      TableHoldsLast(list, n);
    }

    /** The edges that are checked and waited for are the dependencies of the last step of each name. */
    lemma EdgesAreListed(n: Name, d: Name)
      ensures Edge(G(), n, d) <==> exists i: nat :: LastNamed(list, n, i) && d in list[i].dependsOn
    {
      StepsAreLastNamed(n);
      if n in steps {
        var i: nat :| LastNamed(list, n, i);
        assert G()[n] == list[i].dependsOn;
      }
    }

    /** Every listed name is a step, and no other. */
    lemma NamesAreListed(n: Name)
      ensures n in steps <==> exists i :: 0 <= i < |list| && list[i].name == n
    {
      NamesAreKeys(list);
      NamesAreOfSteps(list, n);
    }

    method ValidateNoCycles() returns (v: Verdict)
      ensures v.Accepted? <==> Closed(G()) && Acyclic(G())
      ensures v.CircularAt? ==> exists c :: Cycle(G(), c) && v.name in c
      ensures v.MissingStep? ==> v.name !in steps && exists n :: Edge(G(), n, v.name)
    {
      var order := KeyOrder(Names(list));
      StepsInOrder(list);
      var check := new CycleCheck(DependencyGraph(steps));
      for i := 0 to |order|
        invariant check.Valid() && check.stack == [] && check.steps == G()
        invariant fresh(check)
        invariant forall j :: 0 <= j < i ==> order[j] in check.finished
      {
        assert order[i] in Elements(order);
        v := check.Visit(order[i]);
        if !v.Accepted? {
          return;
        }
      }
      assert Elements(check.finished) == steps.Keys by {
        forall n | n in steps.Keys ensures n in check.finished { assert n in Elements(order); }
      }
      OrderedIsSound(G(), check.finished);
      return Accepted;
    }

    /** The results in hand after k waves in which every step that ran returned. */
    ghost function Ledger(k: nat): map<Name, V> {
      if k == 0 then map[] else
        var before := Ledger(k - 1);
        before + Gains(Wave(G(), k - 1), before)
    }

    ghost function Gains(wave: set<Name>, before: map<Name, V>): map<Name, V>
      requires wave <= steps.Keys
    {
      map n | n in wave && steps[n].execute(before).Returned? :: steps[n].execute(before).value
    }

    ghost predicate ReturnsIn(k: nat, n: Name) {
      n in steps && steps[n].execute(Ledger(k)).Returned?
    }

    /** Step n, launched in wave j on the results of the waves before it, returned what is in the books. */
    ghost predicate ComputedIn(j: nat, n: Name, results: map<Name, V>) {
      && n in Wave(G(), j) && n in results && n in steps
      && steps[n].execute(Ledger(j)) == Returned(results[n])
      && forall d :: d in steps[n].dependsOn ==> d in Ledger(j) && d in results && Ledger(j)[d] == results[d]
    }

    ghost predicate RaisesIn(k: nat, n: Name, error: string) {
      n in steps && steps[n].execute(Ledger(k)) == Raised(error)
    }

    /** The first step of wave k, in the order of `ready`, that does not return is `n`. */
    ghost predicate FailsFirst(k: nat, ready: seq<Name>, n: Name, error: string) {
      exists i :: 0 <= i < |ready| && ready[i] == n && RaisesIn(k, ready[i], error)
                  && forall j :: 0 <= j < i ==> ReturnsIn(k, ready[j])
    }

    ghost predicate FailsLast(waves: seq<seq<Name>>, n: Name, error: string) {
      waves != [] && FailsFirst(|waves| - 1, waves[|waves| - 1], n, error)
    }

    ghost predicate AllReturn(waves: seq<seq<Name>>, count: int)
      requires count <= |waves|
    {
      forall k, n :: 0 <= k < count && n in waves[k] ==> ReturnsIn(k, n)
    }

    lemma AppendWave(waves: seq<seq<Name>>, ready: seq<Name>, returned: bool)
      requires ListsWaves(G(), waves) && AllReturn(waves, |waves|)
      requires ready != [] && Distinct(ready) && Elements(ready) == Wave(G(), |waves|)
      requires returned ==> forall n :: n in ready ==> ReturnsIn(|waves|, n)
      ensures ListsWaves(G(), waves + [ready])
      ensures AllReturn(waves + [ready], if returned then |waves| + 1 else |waves|)
    {}

    method Ready(completed: map<Name, V>, pending: set<Name>, ghost k: nat) returns (ready: seq<Name>)
      requires completed.Keys == Done(G(), k) && pending == steps.Keys - Done(G(), k)
      ensures Distinct(ready) && Elements(ready) == Wave(G(), k)
      ensures forall i :: 0 <= i < |ready| ==> ready[i] in steps
    {
      var names := Enumerate(pending);
      ready := [];
      for i := 0 to |names|
        invariant Distinct(ready)
        invariant forall j :: 0 <= j < |ready| ==> ready[j] in steps
        invariant forall n :: n in ready <==> n in names[..i] && n in Wave(G(), k)
      {
        var n := names[i];
        assert n in Elements(names);
        assert names[..i + 1] == names[..i] + [n];
        assert n !in names[..i];
        if forall d | d in steps[n].dependsOn :: d in completed {
          ready := ready + [n];
        }
      }
      assert names[..|names|] == names;
      DoneGrows(G(), k);
      forall n | n in Wave(G(), k) ensures n in ready {
        assert n in Elements(names);
      }
    }

    lemma WaveAdvances(k: nat, ready: seq<Name>, before: map<Name, V>, completed: map<Name, V>)
      requires before == Ledger(k) && before.Keys == Done(G(), k)
      requires Elements(ready) == Wave(G(), k)
      requires completed.Keys == before.Keys + Elements(ready)
      requires forall n :: n in before ==> completed[n] == before[n]
      requires forall j :: 0 <= j < |ready| ==> steps[ready[j]].execute(before) == Returned(completed[ready[j]])
      ensures completed == Ledger(k + 1) && completed.Keys == Done(G(), k + 1)
      ensures forall n :: n in ready ==> ReturnsIn(k, n)
    {
      DoneGrows(G(), k);
      forall n | n in Wave(G(), k) ensures steps[n].execute(before) == Returned(completed[n]) {
        assert n in Elements(ready);
      }
      assert forall n :: n in ready ==> n in Elements(ready);
      assert completed == before + Gains(Wave(G(), k), before);
    }

    /** A wave adds what its steps return on the results so far, and changes none of those. */
    lemma LedgerStep(j: nat, n: Name)
      requires Ledger(j).Keys == Done(G(), j)
      ensures n in Ledger(j) ==> n in Ledger(j + 1) && Ledger(j + 1)[n] == Ledger(j)[n]
      ensures n in Ledger(j + 1) && n !in Ledger(j) ==>
                n in Wave(G(), j) && steps[n].execute(Ledger(j)) == Returned(Ledger(j + 1)[n])
      ensures n in Wave(G(), j) && ReturnsIn(j, n) ==> n in Ledger(j + 1)
    {}

    lemma {:induction false} LedgerIsFull(waves: seq<seq<Name>>, k: nat)
      requires k <= |waves| && ListsWaves(G(), waves) && AllReturn(waves, |waves|)
      ensures Ledger(k).Keys == Done(G(), k)
    {
      if k > 0 {
        var j := k - 1;
        LedgerIsFull(waves, j);
        DoneGrows(G(), j);
        var booked, done := Ledger(j + 1), Done(G(), j + 1);
        forall n ensures n in booked <==> n in done {
          LedgerStep(j, n);
          if n in Wave(G(), j) {
            assert n in Elements(waves[j]);
            assert ReturnsIn(j, n);
          }
        }
      }
    }

    lemma ComputedNow(j: nat, k: nat, n: Name)
      requires k == j + 1 && Ledger(j).Keys == Done(G(), j) && n in Ledger(k) && n !in Ledger(j)
      ensures ComputedIn(j, n, Ledger(k))
    {
      LedgerStep(j, n);
      WavesAreDisjointAndOrdered(G(), j, j + 1);
      forall d | d in steps[n].dependsOn
        ensures d in Ledger(j) && d in Ledger(k) && Ledger(j)[d] == Ledger(k)[d]
      {
        NeedsAreDone(j, n, d);
        LedgerStep(j, d);
      }
    }

    lemma NeedsAreDone(j: nat, n: Name, d: Name)
      requires n in Wave(G(), j) && d in steps[n].dependsOn
      ensures d in Done(G(), j)
    {
      assert Edge(G(), n, d);
      DoneGrows(G(), j);
    }

    lemma ComputedStays(i: nat, n: Name, j: nat, k: nat)
      requires k == j + 1 && Ledger(j).Keys == Done(G(), j) && ComputedIn(i, n, Ledger(j))
      ensures ComputedIn(i, n, Ledger(k))
    {
      LedgerStep(j, n);
      forall d | d in steps[n].dependsOn ensures d in Ledger(k) && Ledger(i)[d] == Ledger(k)[d] {
        LedgerStep(j, d);
      }
    }

    /** Every result in the books is what its step returned on the results of its dependencies. */
    lemma {:induction false} LedgerIsComputed(waves: seq<seq<Name>>, k: nat, n: Name) returns (j: nat)
      requires k <= |waves| && ListsWaves(G(), waves) && AllReturn(waves, |waves|) && n in Ledger(k)
      ensures j < k && ComputedIn(j, n, Ledger(k))
    {
      var last := k - 1;
      LedgerIsFull(waves, last);
      if n in Ledger(last) {
        j := LedgerIsComputed(waves, last, n);
        ComputedStays(j, n, last, k);
      } else {
        j := last;
        ComputedNow(last, k, n);
      }
    }

    /** In a run that completed, every step's result is what the step returned on those of its dependencies. */
    ghost predicate AllComputed(results: map<Name, V>) {
      forall n :: n in results ==> exists j: nat :: ComputedIn(j, n, results)
    }

    lemma BooksAreComputed(waves: seq<seq<Name>>)
      requires ListsWaves(G(), waves) && AllReturn(waves, |waves|)
      ensures AllComputed(Ledger(|waves|))
    {
      var books := Ledger(|waves|);
      forall n | n in books ensures exists j: nat :: ComputedIn(j, n, books) {
        var j := LedgerIsComputed(waves, |waves|, n);
      }
    }

    static method Collect(ready: seq<Name>, results: seq<StepOutcome<V>>, before: map<Name, V>, pending: set<Name>)
      returns (r: WaveOutcome<V>)
      requires |results| == |ready| && Distinct(ready) && Elements(ready) !! before.Keys
      ensures !r.Stuck?
      ensures r.Failed? ==>
                exists i :: 0 <= i < |ready| && ready[i] == r.name && results[i] == Raised(r.error)
                            && forall j :: 0 <= j < i ==> results[j].Returned?
      ensures r.Advanced? ==>
                && r.pending == pending - Elements(ready)
                && r.completed.Keys == before.Keys + Elements(ready)
                && (forall n :: n in before ==> r.completed[n] == before[n])
                && (forall j :: 0 <= j < |ready| ==> results[j] == Returned(r.completed[ready[j]]))
    {
      var completed, left := before, pending;
      for i := 0 to |ready|
        invariant completed.Keys == before.Keys + Elements(ready[..i])
        invariant forall n :: n in before ==> completed[n] == before[n]
        invariant forall j :: 0 <= j < i ==> results[j] == Returned(completed[ready[j]])
        invariant left == pending - Elements(ready[..i])
      {
        if results[i].Raised? {
          return Failed(ready[i], results[i].error);
        }
        assert ready[..i + 1] == ready[..i] + [ready[i]];
        ElementsAppend(ready[..i], ready[i]);
        assert ready[i] !in before by { assert ready[i] in Elements(ready); }
        completed := completed[ready[i] := results[i].value];
        left := left - {ready[i]};
      }
      assert ready[..|ready|] == ready;
      return Advanced(completed, left);
    }

    /** Launch one wave together, then take its results in order up to the first failure. */
    method RunWave(ready: seq<Name>, before: map<Name, V>, pending: set<Name>, ghost k: nat)
      returns (r: WaveOutcome<V>)
      requires before == Ledger(k) && before.Keys == Done(G(), k)
      requires pending == steps.Keys - Done(G(), k)
      requires Distinct(ready) && Elements(ready) == Wave(G(), k) && ready != []
      requires forall i :: 0 <= i < |ready| ==> ready[i] in steps
      ensures !r.Stuck?
      ensures r.Failed? ==> FailsFirst(k, ready, r.name, r.error)
      ensures r.Advanced? ==>
                && r.completed == Ledger(k + 1) && r.completed.Keys == Done(G(), k + 1)
                && r.pending == steps.Keys - Done(G(), k + 1) < pending
                && forall n :: n in ready ==> ReturnsIn(k, n)
    {
      var results := seq(|ready|, i requires 0 <= i < |ready| => steps[ready[i]].execute(before));
      r := Collect(ready, results, before, pending);
      if r.Advanced? {
        assert ready[0] in Elements(ready);
        WaveAdvances(k, ready, before, r.completed);
        WaveShrinks(G(), k, ready[0]);
      } else {
        ghost var i :| 0 <= i < |ready| && ready[i] == r.name && results[i] == Raised(r.error)
                       && forall j :: 0 <= j < i ==> results[j].Returned?;
        forall j | 0 <= j < i ensures ReturnsIn(k, ready[j]) { assert results[j].Returned?; }
        assert RaisesIn(k, ready[i], r.error);
      }
    }

    /** The state between waves: everything launched so far has returned, and the books agree with it. */
    ghost predicate Progress(waves: seq<seq<Name>>, completed: map<Name, V>, pending: set<Name>) {
      && ListsWaves(G(), waves) && AllReturn(waves, |waves|)
      && completed == Ledger(|waves|) && completed.Keys == Done(G(), |waves|)
      && pending == steps.Keys - Done(G(), |waves|)
    }

    /** Find the ready steps and run them, or find that nothing is ready. */
    method NextWave(ghost waves: seq<seq<Name>>, completed: map<Name, V>, pending: set<Name>)
      returns (r: WaveOutcome<V>, ghost ready: seq<Name>)
      requires Progress(waves, completed, pending) && pending != {}
      ensures r.Stuck? ==> !(Closed(G()) && Acyclic(G()))
      ensures !r.Stuck? ==> ListsWaves(G(), waves + [ready]) && AllReturn(waves + [ready], |waves|)
      ensures r.Failed? ==> FailsLast(waves + [ready], r.name, r.error)
      ensures r.Advanced? ==> Progress(waves + [ready], r.completed, r.pending) && r.pending < pending
    {
      var launch := Ready(completed, pending, |waves|);
      ready := launch;
      if launch == [] {
        StuckMeansRefused(G(), |waves|);
        return Stuck, ready;
      }
      r := RunWave(launch, completed, pending, |waves|);
      AppendWave(waves, launch, r.Advanced?);
      assert (waves + [ready])[|waves|] == ready;
    }

    method Execute() returns (r: RunOutcome<V>, ghost waves: seq<seq<Name>>)
      // Wave k launches exactly the steps whose longest dependency chain has k edges, each once.
      ensures ListsWaves(G(), waves)
      // Only the last wave can contain a failure, and then the run stops.
      ensures AllReturn(waves, |waves| - 1)
      ensures r.StepFailed? ==>
                FailsLast(waves, r.name, r.error)
      // A completed run has run every step once, and its results do not depend on the order within a wave.
      ensures r.Completed? ==>
                && r.results == Ledger(|waves|) && r.results.Keys == steps.Keys
                && RunsEachOnce(waves, steps.Keys) && IsCriticalPath(G(), |waves|) && AllComputed(r.results)
      // The scheduler's own deadlock error: exactly on the graphs the constructor refuses.
      ensures r.Completed? ==> Closed(G()) && Acyclic(G())
      ensures r.Deadlocked? ==> !(Closed(G()) && Acyclic(G()))
    {
      var completed: map<Name, V> := map[];
      var pending := steps.Keys;
      waves := [];
      while pending != {}
        invariant Progress(waves, completed, pending)
        decreases pending
      {
        var outcome, ready := NextWave(waves, completed, pending);
        match outcome {
          case Stuck =>
            return Deadlocked, waves;
          case Failed(name, error) =>
            return StepFailed(name, error), waves + [ready];
          case Advanced(results, left) =>
            waves := waves + [ready];
            completed, pending := results, left;
        }
      }
      AllWavesRun(G(), waves);
      BooksAreComputed(waves);
      return Completed(completed), waves;
    }
  }
}
