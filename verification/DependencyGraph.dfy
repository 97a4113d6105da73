/** The dependency graph of registered passes: walks, cycles and topological orders. */
module DependencyGraphs {
  import opened Sequences

  /** Every registered name with the names it depends on, registered or not. */
  type DepGraph = map<string, set<string>>

  ghost predicate DependsOn(g: DepGraph, a: string, b: string) {
    a in g && b in g[a]
  }

  /** Each name of the walk is a dependency of the name before it. */
  ghost predicate IsWalk(g: DepGraph, walk: seq<string>) {
    && |walk| > 0
    && forall i :: 0 < i < |walk| ==> DependsOn(g, walk[i - 1], walk[i])
  }

  ghost predicate IsCycle(g: DepGraph, walk: seq<string>) {
    IsWalk(g, walk) && |walk| > 1 && walk[0] == walk[|walk| - 1]
  }

  ghost predicate HasCycle(g: DepGraph) {
    exists walk :: IsCycle(g, walk)
  }

  /** `b` is a transitive dependency of `a`. */
  ghost predicate Reaches(g: DepGraph, a: string, b: string) {
    exists walk :: IsWalk(g, walk) && |walk| > 1 && walk[0] == a && walk[|walk| - 1] == b
  }

  /** `order` lists names once, each after all its dependencies. */
  ghost predicate Topological(g: DepGraph, order: seq<string>) {
    && Distinct(order)
    && forall i :: 0 <= i < |order| && order[i] in g ==> forall dep :: dep in g[order[i]] ==> dep in order[..i]
  }

  lemma TopologicalExtends(g: DepGraph, order: seq<string>, name: string)
    requires Topological(g, order) && name !in order
    requires name in g ==> forall dep :: dep in g[name] ==> dep in order
    ensures Topological(g, order + [name])
  {
    var extended := order + [name];
    forall i | 0 <= i < |extended| && extended[i] in g
      ensures forall dep :: dep in g[extended[i]] ==> dep in extended[..i]
    {
      if i < |order| {
        assert extended[..i] == order[..i];
      } else {
        assert extended[..i] == order;
      }
    }
  }

  /** Along a walk, positions in a topological order strictly fall. */
  lemma {:induction false} WalkDescends(g: DepGraph, order: seq<string>, walk: seq<string>, i: nat) returns (j: nat)
    requires Topological(g, order) && IsWalk(g, walk) && i < |order| && order[i] == walk[0]
    ensures j + |walk| <= i + 1 && order[j] == walk[|walk| - 1]
  {
    if |walk| == 1 {
      return i;
    }
    assert DependsOn(g, walk[0], walk[1]);
    assert walk[1] in order[..i];
    var k :| 0 <= k < i && order[k] == walk[1];
    WalkSlice(g, walk, 1, |walk|);
    j := WalkDescends(g, order, walk[1..], k);
  }

  /** A graph whose registered names can all be put in topological order has no cycle. */
  lemma TopologicalHasNoCycle(g: DepGraph, order: seq<string>)
    requires Topological(g, order) && forall name :: name in g ==> name in order
    ensures !HasCycle(g)
  {
    if HasCycle(g) {
      var walk :| IsCycle(g, walk);
      assert DependsOn(g, walk[0], walk[1]);
      var i :| 0 <= i < |order| && order[i] == walk[0];
      var j := WalkDescends(g, order, walk, i);
    }
  }

  /** A repeated name on a walk closes a cycle. */
  lemma RepetitionIsCycle(g: DepGraph, walk: seq<string>, i: nat, j: nat)
    requires IsWalk(g, walk) && i < j < |walk| && walk[i] == walk[j]
    ensures IsCycle(g, walk[i..j + 1])
  {
    WalkSlice(g, walk, i, j + 1);
  }

  lemma WalkSlice(g: DepGraph, walk: seq<string>, i: nat, j: nat)
    requires IsWalk(g, walk) && i < j <= |walk|
    ensures IsWalk(g, walk[i..j])
  {
    forall k | 0 < k < j - i ensures DependsOn(g, walk[i..j][k - 1], walk[i..j][k]) {
      assert DependsOn(g, walk[i + k - 1], walk[i + k]);
    }
  }

  lemma WalkConcat(g: DepGraph, a: seq<string>, b: seq<string>)
    requires IsWalk(g, a) && IsWalk(g, b) && DependsOn(g, a[|a| - 1], b[0])
    ensures IsWalk(g, a + b)
  {
    var w := a + b;
    forall k | 0 < k < |w| ensures DependsOn(g, w[k - 1], w[k]) {
      if k > |a| {
        assert DependsOn(g, b[k - |a| - 1], b[k - |a|]);
      }
    }
  }

  /** All names the graph mentions. */
  function Universe(g: DepGraph): set<string> {
    g.Keys + set name, dep | name in g && dep in g[name] :: dep
  }

  ghost predicate WalkFrom(g: DepGraph, name: string, walk: seq<string>) {
    IsWalk(g, walk) && walk[0] == name
  }

  /** Everything `name` transitively depends on is registered, and no dependency chain from
      it runs into a cycle. */
  ghost predicate Schedulable(g: DepGraph, name: string) {
    forall walk :: WalkFrom(g, name, walk) ==> Distinct(walk) && forall x :: x in walk ==> x in g
  }

  /** All dependency chains from `name` have at most `k` names, all of them registered. */
  ghost predicate ChainsWithin(g: DepGraph, name: string, k: nat) {
    forall walk :: WalkFrom(g, name, walk) ==> |walk| <= k && forall x :: x in walk ==> x in g
  }

  /** The chains from a name are the name itself and the chains from its dependencies. */
  lemma ChainsStep(g: DepGraph, name: string, k: nat)
    ensures ChainsWithin(g, name, k + 1) <==> name in g && forall dep :: dep in g[name] ==> ChainsWithin(g, dep, k)
    ensures !ChainsWithin(g, name, 0)
  {
    assert WalkFrom(g, name, [name]) && name in [name];
    if ChainsWithin(g, name, k + 1) {
      forall dep, walk | dep in g[name] && WalkFrom(g, dep, walk) ensures |walk| <= k && forall x :: x in walk ==> x in g {
        assert DependsOn(g, name, dep);
        WalkConcat(g, [name], walk);
        assert WalkFrom(g, name, [name] + walk);
        assert forall x :: x in walk ==> x in [name] + walk;
      }
    }
    if name in g && forall dep :: dep in g[name] ==> ChainsWithin(g, dep, k) {
      forall walk | WalkFrom(g, name, walk) ensures |walk| <= k + 1 && forall x :: x in walk ==> x in g {
        if |walk| > 1 {
          assert DependsOn(g, name, walk[1]);
          WalkSlice(g, walk, 1, |walk|);
          assert WalkFrom(g, walk[1], walk[1..]);
          assert walk == [name] + walk[1..];
        }
      }
    }
  }

  lemma ChainsGrow(g: DepGraph, name: string, k: nat)
    requires ChainsWithin(g, name, k)
    ensures ChainsWithin(g, name, k + 1)
  {
  }

  /** Where a chain repeats a name, chains of any length start. */
  lemma {:induction false} RepetitionPumps(g: DepGraph, walk: seq<string>, i: nat, j: nat, n: nat) returns (long: seq<string>)
    requires IsWalk(g, walk) && i < j < |walk| && walk[i] == walk[j]
    ensures WalkFrom(g, walk[0], long) && n <= |long| && long[|long| - 1] == walk[i]
  {
    if n == 0 {
      long := walk[..i + 1];
      WalkSlice(g, walk, 0, i + 1);
    } else {
      var shorter := RepetitionPumps(g, walk, i, j, n - 1);
      WalkSlice(g, walk, i + 1, j + 1);
      assert DependsOn(g, walk[i], walk[i + 1]);
      WalkConcat(g, shorter, walk[i + 1..j + 1]);
      long := shorter + walk[i + 1..j + 1];
    }
  }

  /** Chains of bounded length never repeat a name; chains without repetition are bounded. */
  lemma BoundedIffSchedulable(g: DepGraph, name: string)
    ensures Schedulable(g, name) <==> exists k: nat :: ChainsWithin(g, name, k)
  {
    if Schedulable(g, name) {
      forall walk | WalkFrom(g, name, walk) ensures |walk| <= |g.Keys| {
        DistinctFits(walk, g.Keys);
      }
      assert ChainsWithin(g, name, |g.Keys|);
    }
    if k: nat :| ChainsWithin(g, name, k) {
      forall walk | WalkFrom(g, name, walk) ensures Distinct(walk) {
        if i, j :| 0 <= i < j < |walk| && walk[i] == walk[j] {
          var long := RepetitionPumps(g, walk, i, j, k + 1);
        }
      }
    }
  }

  ghost predicate AllRegistered(g: DepGraph) {
    forall a, b :: DependsOn(g, a, b) ==> b in g
  }

  /** Everything `name` transitively depends on is registered. */
  ghost predicate ReachesRegistered(g: DepGraph, name: string) {
    forall b :: Reaches(g, name, b) ==> b in g
  }

  /** Without cycles a name is schedulable exactly when it and everything it transitively
      depends on is registered. */
  lemma SchedulableIffRegistered(g: DepGraph, name: string)
    requires !HasCycle(g)
    ensures Schedulable(g, name) <==> name in g && ReachesRegistered(g, name)
  {
    if Schedulable(g, name) {
      assert WalkFrom(g, name, [name]) && name in [name];
      forall b | Reaches(g, name, b) ensures b in g {
        var walk :| IsWalk(g, walk) && |walk| > 1 && walk[0] == name && walk[|walk| - 1] == b;
        assert WalkFrom(g, name, walk) && b in walk;
      }
    }
    if name in g && ReachesRegistered(g, name) {
      forall walk | WalkFrom(g, name, walk) ensures Distinct(walk) && forall x :: x in walk ==> x in g {
        WalkIsRegistered(g, name, walk);
        if i, j :| 0 <= i < j < |walk| && walk[i] == walk[j] {
          RepetitionIsCycle(g, walk, i, j);
        }
      }
    }
  }

  lemma WalkIsRegistered(g: DepGraph, name: string, walk: seq<string>)
    requires WalkFrom(g, name, walk) && name in g && ReachesRegistered(g, name)
    ensures forall x :: x in walk ==> x in g
  {
    forall i | 0 <= i < |walk| ensures walk[i] in g {
      if i > 0 {
        WalkSlice(g, walk, 0, i + 1);
        assert Reaches(g, name, walk[..i + 1][i]);
      }
    }
  }

  lemma AllRegisteredIffReached(g: DepGraph)
    ensures AllRegistered(g) <==> forall a :: a in g ==> ReachesRegistered(g, a)
  {
    if AllRegistered(g) {
      forall a, b | a in g && Reaches(g, a, b) ensures b in g {
        var walk :| IsWalk(g, walk) && |walk| > 1 && walk[0] == a && walk[|walk| - 1] == b;
        assert DependsOn(g, walk[|walk| - 2], walk[|walk| - 1]);
      }
    }
    if forall a :: a in g ==> ReachesRegistered(g, a) {
      forall a, b | DependsOn(g, a, b) ensures b in g {
        assert IsWalk(g, [a, b]);
        assert Reaches(g, a, b);
      }
    }
  }
}
