/**
 Multi-leg plans: a leg names at most one leg it depends on; a depth-first search orders the legs, rejects
 circular dependencies, and the resulting order decides what a failed leg rolls back.
 */
module MultiLegOrchestration {
  import opened Basics
  import StableSort

  datatype Leg = Leg(legSequence: int, dependsOn: Option<int>)

  // ---- The dependency graph ----

  /** `legs.find(l => l.legSequence === n)`. */
  function Find(legs: seq<Leg>, n: int): (r: Option<Leg>)
    ensures r.Some? ==> r.value in legs && r.value.legSequence == n
    ensures r.None? <==> forall i :: 0 <= i < |legs| ==> legs[i].legSequence != n
  {
    if legs == [] then None
    else if legs[0].legSequence == n then Some(legs[0])
    else Find(legs[1..], n)
  }

  function Numbers(legs: seq<Leg>): set<int> {
    set i | 0 <= i < |legs| :: legs[i].legSequence
  }

  /** The dependency of leg `n`, when that leg is part of the plan; a missing one is ignored. */
  function Dependency(legs: seq<Leg>, n: int): (r: Option<int>)
    ensures r.Some? ==> r.value in Numbers(legs)
  {
    match Find(legs, n)
    case None => None
    case Some(leg) =>
      if leg.dependsOn.Some? && Find(legs, leg.dependsOn.value).Some? then
        var found := Find(legs, leg.dependsOn.value).value;
        assert exists i :: 0 <= i < |legs| && legs[i] == found;
        leg.dependsOn
      else None
  }

  /** The leg reached from `n` after `k` dependency steps. */
  function After(legs: seq<Leg>, n: int, k: nat): Option<int> {
    if k == 0 then Some(n)
    else match After(legs, n, k - 1)
      case None => None
      case Some(m) => Dependency(legs, m)
  }

  ghost predicate DependsOn(legs: seq<Leg>, n: int, m: int) {
    exists k: nat :: k >= 1 && After(legs, n, k) == Some(m)
  }

  ghost predicate Circular(legs: seq<Leg>) {
    exists n :: n in Numbers(legs) && DependsOn(legs, n, n)
  }

  // ---- What a good order is ----

  ghost predicate Distinct(order: seq<int>) {
    forall i, j :: 0 <= i < j < |order| ==> order[i] != order[j]
  }

  ghost predicate DependenciesFirst(legs: seq<Leg>, order: seq<int>) {
    forall i :: 0 <= i < |order| && Dependency(legs, order[i]).Some?
      ==> Dependency(legs, order[i]).value in order[..i]
  }

  /** Every leg once, every present dependency before its dependent. */
  ghost predicate Topological(legs: seq<Leg>, order: seq<int>) {
    && Distinct(order)
    && (forall n :: n in order <==> n in Numbers(legs))
    && DependenciesFirst(legs, order)
  }

  /** A good order puts everything a leg depends on, however indirectly, strictly before it. */
  lemma {:induction false} AncestorsComeFirst(legs: seq<Leg>, order: seq<int>, i: nat, k: nat)
    requires DependenciesFirst(legs, order) && i < |order| && k >= 1
    requires After(legs, order[i], k).Some?
    ensures After(legs, order[i], k).value in order[..i]
  {
    if k > 1 {
      AncestorsComeFirst(legs, order, i, k - 1);
      var m := After(legs, order[i], k - 1).value;
      var j :| 0 <= j < i && order[..i][j] == m;
      assert order[j] == m;
      assert Dependency(legs, m).value in order[..j];
      assert forall x :: x in order[..j] ==> x in order[..i];
    } else {
      assert After(legs, order[i], 0) == Some(order[i]);
    }
  }

  lemma OrderMeansAcyclic(legs: seq<Leg>, order: seq<int>)
    requires Topological(legs, order)
    ensures !Circular(legs)
  {
    if Circular(legs) {
      var n :| n in Numbers(legs) && DependsOn(legs, n, n);
      var i :| 0 <= i < |order| && order[i] == n;
      var k: nat :| k >= 1 && After(legs, n, k) == Some(n);
      AncestorsComeFirst(legs, order, i, k);
      assert false;
    }
  }

  // ---- The search ----

  /** Legs on the current search path, each depending on the next. */
  ghost predicate Chain(legs: seq<Leg>, path: seq<int>) {
    forall i :: 0 <= i < |path| - 1 ==> Dependency(legs, path[i]) == Some(path[i + 1])
  }

  lemma {:induction false} ChainSteps(legs: seq<Leg>, path: seq<int>, i: nat, k: nat)
    requires Chain(legs, path) && i + k < |path|
    ensures After(legs, path[i], k) == Some(path[i + k])
  {
    if k > 0 {
      ChainSteps(legs, path, i, k - 1);
    }
  }

  lemma AppendKeepsOrder(legs: seq<Leg>, order: seq<int>, n: int)
    requires Distinct(order) && DependenciesFirst(legs, order) && n !in order
    requires Dependency(legs, n).Some? ==> Dependency(legs, n).value in order
    ensures Distinct(order + [n]) && DependenciesFirst(legs, order + [n])
  {
    var longer := order + [n];
    forall i | 0 <= i < |longer| && Dependency(legs, longer[i]).Some?
      ensures Dependency(legs, longer[i]).value in longer[..i]
    {
      if i < |order| {
        assert longer[..i] == order[..i];
      } else {
        assert longer[..i] == order;
      }
    }
  }

  /** The state that the nested `visit` function captures and updates. */
  class Search {
    var visited: set<int>
    var visiting: set<int>
    var order: seq<int>

    constructor ()
      ensures visited == {} && visiting == {} && order == []
    {
      visited, visiting, order := {}, {}, [];
    }

    ghost predicate Valid(legs: seq<Leg>)
      reads this
    {
      && visited !! visiting
      && (forall n :: n in visited <==> n in order)
      && visited <= Numbers(legs) && visiting <= Numbers(legs)
      && Distinct(order)
      && DependenciesFirst(legs, order)
    }

    /** Orders `leg` after everything it needs, or finds that the current path closes on itself. */
    method Visit(legs: seq<Leg>, leg: Leg, ghost path: seq<int>) returns (ok: bool)
      requires Valid(legs) && leg.legSequence in Numbers(legs)
      requires leg.legSequence in visited || Find(legs, leg.legSequence) == Some(leg)
      requires Chain(legs, path + [leg.legSequence]) && (forall n :: n in path <==> n in visiting)
      modifies this
      ensures ok ==> Valid(legs) && visiting == old(visiting) && leg.legSequence in visited && old(visited) <= visited
      ensures !ok ==> Circular(legs)
      decreases Numbers(legs) - visiting
    {
      var n := leg.legSequence;
      if n in visited { return true; }
      if n in visiting {
        ghost var j :| 0 <= j < |path| && path[j] == n;
        ChainSteps(legs, path + [n], j, |path| - j);
        assert DependsOn(legs, n, n);
        return false;
      }
      visiting := visiting + {n};
      if leg.dependsOn.Some? {
        var dep := Find(legs, leg.dependsOn.value);
        if dep.Some? {
          assert Dependency(legs, n) == leg.dependsOn;
          FindIsStable(legs, leg.dependsOn.value);
          ok := Visit(legs, dep.value, path + [n]);
          if !ok { return false; }
        }
      }
      assert Dependency(legs, n).Some? ==> Dependency(legs, n).value in order;
      AppendKeepsOrder(legs, order, n);
      visiting := visiting - {n};
      visited := visited + {n};
      order := order + [n];
      return true;
    }
  }

  lemma FindIsStable(legs: seq<Leg>, n: int)
    ensures Find(legs, n).Some? ==> Find(legs, n).value.legSequence == n && n in Numbers(legs)
  {
    if Find(legs, n).Some? {
      var i :| 0 <= i < |legs| && legs[i] == Find(legs, n).value;
    }
  }

  lemma NumbersOfSuffix(leg: Leg, legs: seq<Leg>)
    ensures Numbers(legs) <= Numbers([leg] + legs)
  {
    forall n | n in Numbers(legs)
      ensures n in Numbers([leg] + legs)
    {
      var i :| 0 <= i < |legs| && legs[i].legSequence == n;
      assert ([leg] + legs)[i + 1].legSequence == n;
    }
  }

  /** A duplicate of an earlier leg is the only leg that `find` does not return. */
  lemma {:induction false} FindFirst(legs: seq<Leg>, i: nat)
    requires i < |legs| && legs[i].legSequence !in Numbers(legs[..i])
    ensures Find(legs, legs[i].legSequence) == Some(legs[i])
  {
    if i > 0 {
      assert legs[..i] == [legs[0]] + legs[1..][..i - 1];
      assert legs[..i][0].legSequence in Numbers(legs[..i]);
      NumbersOfSuffix(legs[0], legs[1..][..i - 1]);
      FindFirst(legs[1..], i - 1);
    }
  }

  /** A topological order exactly when there is no circular dependency, and nothing otherwise. */
  method ComputeExecutionOrder(legs: seq<Leg>) returns (order: seq<int>)
    ensures Circular(legs) ==> order == []
    ensures !Circular(legs) ==> Topological(legs, order)
  {
    var search := new Search();
    for i := 0 to |legs|
      invariant search.Valid(legs) && search.visiting == {}
      invariant Numbers(legs[..i]) <= search.visited
    {
      if legs[i].legSequence !in Numbers(legs[..i]) { FindFirst(legs, i); }
      assert legs[i].legSequence in Numbers(legs);
      assert [] + [legs[i].legSequence] == [legs[i].legSequence];
      var ok := search.Visit(legs, legs[i], []);
      if !ok { return []; }
      assert Numbers(legs[..i + 1]) == Numbers(legs[..i]) + {legs[i].legSequence};
    }
    assert legs[..|legs|] == legs;
    assert Topological(legs, search.order);
    OrderMeansAcyclic(legs, search.order);
    order := search.order;
  }

  /** So for a plan with legs: an empty answer exactly for circular dependencies, and a good order exactly otherwise. */
  lemma OrderIffAcyclic(legs: seq<Leg>, order: seq<int>)
    requires legs != []
    requires (Circular(legs) ==> order == []) && (!Circular(legs) ==> Topological(legs, order))
    ensures order == [] <==> Circular(legs)
    ensures Topological(legs, order) <==> !Circular(legs)
  {
    assert legs[0].legSequence in Numbers(legs);
    if Topological(legs, order) {
      OrderMeansAcyclic(legs, order);
    }
  }

  // ---- Creating a plan ----

  datatype PlanError = NoLegs | MissingSequence(n: int) | CircularDependency

  function Sequences(legs: seq<Leg>): (r: seq<int>)
    ensures |r| == |legs|
  {
    seq(|legs|, i requires 0 <= i < |legs| => legs[i].legSequence)
  }

  function OneTo(n: nat): (r: seq<int>)
    ensures |r| == n
  {
    seq(n, i => i + 1)
  }

  /** The legs are numbered 1 to n, each number once. */
  ghost predicate Contiguous(legs: seq<Leg>) {
    multiset(Sequences(legs)) == multiset(OneTo(|legs|))
  }

  function SortNumbers(s: seq<int>): seq<int> {
    StableSort.SortBy(s, (n: int) => n as real)
  }

  ghost predicate Ascending(s: seq<int>) {
    forall i, j :: 0 <= i < j < |s| ==> s[i] <= s[j]
  }

  lemma LastIsGreatest(s: seq<int>, x: int)
    requires Ascending(s) && x in multiset(s)
    ensures x <= s[|s| - 1]
  {
    assert x in s;
  }

  lemma DropLast(s: seq<int>)
    requires s != []
    ensures multiset(s[..|s| - 1]) == multiset(s) - multiset{s[|s| - 1]}
    ensures s[|s| - 1] in multiset(s)
  {
    assert s == s[..|s| - 1] + [s[|s| - 1]];
  }

  lemma SameLastElement(s: seq<int>, t: seq<int>)
    requires Ascending(s) && Ascending(t) && multiset(s) == multiset(t) && s != []
    ensures t != [] && s[|s| - 1] == t[|t| - 1]
    ensures multiset(s[..|s| - 1]) == multiset(t[..|t| - 1])
  {
    DropLast(s);
    assert t != [];
    DropLast(t);
    LastIsGreatest(t, s[|s| - 1]);
    LastIsGreatest(s, t[|t| - 1]);
  }

  lemma SameFrontAndLast(s: seq<int>, t: seq<int>)
    requires s != [] && t != [] && s[..|s| - 1] == t[..|t| - 1] && s[|s| - 1] == t[|t| - 1]
    ensures s == t
  {
    assert s == s[..|s| - 1] + [s[|s| - 1]];
    assert t == t[..|t| - 1] + [t[|t| - 1]];
  }

  lemma {:induction false} AscendingIsUnique(s: seq<int>, t: seq<int>)
    requires Ascending(s) && Ascending(t) && multiset(s) == multiset(t)
    ensures s == t
  {
    if s != [] {
      SameLastElement(s, t);
      AscendingIsUnique(s[..|s| - 1], t[..|t| - 1]);
      SameFrontAndLast(s, t);
    } else {
      assert |multiset(t)| == 0;
    }
  }

  lemma SortedNumbers(legs: seq<Leg>)
    ensures var s := SortNumbers(Sequences(legs));
      && |s| == |legs|
      && (s == OneTo(|legs|) <==> Contiguous(legs))
  {
    StableSort.SortByCorrect(Sequences(legs), (n: int) => n as real);
    var s := SortNumbers(Sequences(legs));
    assert Ascending(s) by {
      forall i, j | 0 <= i < j < |s|
        ensures s[i] <= s[j]
      {
        assert s[i] as real <= s[j] as real;
      }
    }
    if Contiguous(legs) {
      AscendingIsUnique(s, OneTo(|legs|));
    }
  }

  lemma {:induction false} DistinctMultiset(s: seq<int>, x: int)
    requires Distinct(s)
    ensures multiset(s)[x] == if x in s then 1 else 0
  {
    if s != [] {
      var front, last := s[..|s| - 1], s[|s| - 1];
      assert s == front + [last];
      DistinctMultiset(front, x);
    }
  }

  /** On legs numbered 1 to n a topological order is a permutation of the numbers. */
  lemma OrderIsPermutation(legs: seq<Leg>, order: seq<int>)
    requires Contiguous(legs) && Topological(legs, order)
    ensures multiset(order) == multiset(Sequences(legs))
    ensures |order| == |legs|
  {
    var numbers := OneTo(|legs|);
    forall n
      ensures multiset(order)[n] == multiset(numbers)[n]
    {
      DistinctMultiset(order, n);
      DistinctMultiset(numbers, n);
      assert n in numbers <==> n in multiset(Sequences(legs));
      assert n in Sequences(legs) <==> n in Numbers(legs) by {
        if n in Numbers(legs) {
          var i :| 0 <= i < |legs| && legs[i].legSequence == n;
          assert Sequences(legs)[i] == n;
        }
      }
    }
    assert multiset(order) == multiset(numbers);
    assert |multiset(order)| == |order| && |multiset(numbers)| == |numbers|;
  }

  /** A plan is created exactly when it has legs, they are numbered 1 to n, and their dependencies are not circular. */
  method CreateMultiLegPlan(legs: seq<Leg>) returns (r: Result<seq<int>, PlanError>)
    ensures r.Ok? <==> legs != [] && Contiguous(legs) && !Circular(legs)
    ensures r.Ok? ==> Topological(legs, r.value) && multiset(r.value) == multiset(Sequences(legs))
    ensures r == Err(NoLegs) <==> legs == []
    ensures (r.Err? && r.error.MissingSequence?) <==> legs != [] && !Contiguous(legs)
    ensures r.Err? && r.error.MissingSequence? ==>
      var sorted, n := SortNumbers(Sequences(legs)), r.error.n;
      1 <= n <= |sorted| && sorted[..n - 1] == OneTo(n - 1) && sorted[n - 1] != n
    ensures r == Err(CircularDependency) <==> legs != [] && Contiguous(legs) && Circular(legs)
  {
    if |legs| == 0 {
      return Err(NoLegs);
    }
    var sequences := SortNumbers(Sequences(legs));
    SortedNumbers(legs);
    for i := 0 to |sequences|
      invariant forall j :: 0 <= j < i ==> sequences[j] == j + 1
    {
      if sequences[i] != i + 1 {
        assert sequences != OneTo(|legs|);
        return Err(MissingSequence(i + 1));
      }
    }
    assert sequences == OneTo(|legs|);
    var order := ComputeExecutionOrder(legs);
    if !Circular(legs) {
      OrderIsPermutation(legs, order);
    }
    if |order| != |legs| {
      return Err(CircularDependency);
    }
    return Ok(order);
  }

  // ---- Partial failure ----

  datatype FailureHandling = ContinuePlan | RollbackPlan | WaitFor(timeoutMs: Option<int>)
  datatype FailureAction = Continuing | RollingBack(legs: seq<int>) | Waiting(timeoutMs: int)

  function IndexOf(order: seq<int>, n: int): (r: int)
    ensures -1 <= r < |order|
    ensures r == -1 <==> n !in order
    ensures r >= 0 ==> order[r] == n && n !in order[..r]
  {
    if order == [] then -1
    else if order[0] == n then 0
    else
      var rest := IndexOf(order[1..], n);
      if rest == -1 then -1
      else
        assert order[..rest + 1] == [order[0]] + order[1..][..rest];
        rest + 1
  }

  /** `order.slice(0, end)`: a negative end counts from the back. */
  function SliceTo(order: seq<int>, end: int): seq<int>
    requires end <= |order|
  {
    if end >= 0 then order[..end]
    else if |order| + end >= 0 then order[..|order| + end]
    else []
  }

  function DeterminePartialFailureAction(order: seq<int>, failed: int, handling: FailureHandling): FailureAction {
    match handling
    case RollbackPlan => RollingBack(SliceTo(order, IndexOf(order, failed)))
    case WaitFor(timeout) => Waiting(timeout.GetOr(30000))
    case ContinuePlan => Continuing
  }

  /**
   Rolling back a failed leg of the plan undoes exactly the legs ordered before it; so everything it depends on,
   directly or not, and neither the leg itself nor anything that depends on it.
   */
  lemma RollbackIsExact(legs: seq<Leg>, order: seq<int>, failed: int)
    requires Topological(legs, order) && failed in Numbers(legs)
    ensures var undone := DeterminePartialFailureAction(order, failed, RollbackPlan).legs;
      && (forall m :: DependsOn(legs, failed, m) ==> m in undone)
      && (forall m :: m in Numbers(legs) && DependsOn(legs, m, failed) ==> m !in undone)
      && failed !in undone
      && exists i :: 0 <= i < |order| && order[i] == failed && undone == order[..i]
  {
    var at := IndexOf(order, failed);
    forall m | DependsOn(legs, failed, m)
      ensures m in order[..at]
    {
      var k: nat :| k >= 1 && After(legs, failed, k) == Some(m);
      AncestorsComeFirst(legs, order, at, k);
    }
    forall m | m in Numbers(legs) && DependsOn(legs, m, failed)
      ensures m !in order[..at]
    {
      var k: nat :| k >= 1 && After(legs, m, k) == Some(failed);
      var i :| 0 <= i < |order| && order[i] == m;
      AncestorsComeFirst(legs, order, i, k);
    }
  }

  /** A leg number that is not part of the plan rolls back every leg but the last: `indexOf` answers -1. */
  lemma RollbackOfUnknownLeg(order: seq<int>, failed: int)
    requires failed !in order && order != []
    ensures DeterminePartialFailureAction(order, failed, RollbackPlan) == RollingBack(order[..|order| - 1])
  {
  }

  ghost predicate Precedes(order: seq<int>, m: int, n: int) {
    exists i, j :: 0 <= i < j < |order| && order[i] == m && order[j] == n
  }

  /**
   A rollback undoes only legs that were to run before the failed one exactly when the failed leg is part of the
   plan, or the plan has a single leg.
   */
  lemma RollbackIsEarlierIff(legs: seq<Leg>, order: seq<int>, failed: int)
    requires Topological(legs, order)
    ensures (forall m :: m in DeterminePartialFailureAction(order, failed, RollbackPlan).legs ==> Precedes(order, m, failed))
      <==> failed in Numbers(legs) || |order| <= 1
  {
    var undone := DeterminePartialFailureAction(order, failed, RollbackPlan).legs;
    if failed in Numbers(legs) {
      var at := IndexOf(order, failed);
      forall m | m in undone
        ensures Precedes(order, m, failed)
      {
        var i :| 0 <= i < at && order[..at][i] == m;
        assert order[i] == m && order[at] == failed;
      }
    } else if |order| > 1 {
      RollbackOfUnknownLeg(order, failed);
      assert undone[0] in undone;
    }
  }

  /** The other two ways to handle a failed leg: going on needs nothing else, and waiting is 30 seconds unless configured. */
  lemma OtherFailureActions(order: seq<int>, failed: int, handling: FailureHandling)
    requires !handling.RollbackPlan?
    ensures var action := DeterminePartialFailureAction(order, failed, handling);
      && (action == Continuing <==> handling.ContinuePlan?)
      && (forall ms :: action == Waiting(ms) <==> handling == WaitFor(Some(ms)) || (handling == WaitFor(None) && ms == 30000))
  {
  }
}
