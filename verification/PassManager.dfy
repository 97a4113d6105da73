/** The pass scheduler: a depth-first topological order for sequential runs and greedy
    dependency levels for parallel ones. */
module PassManagers {
  import opened Sequences
  import opened DependencyGraphs
  import opened PassContexts

  datatype Pass = Pass(name: string, dependencies: seq<string>, body: Program)

  function ToSet(s: seq<string>): set<string> {
    set x | x in s
  }

  /** Dependencies by name; of passes that share a name the last one counts. */
  function GraphOf(passes: seq<Pass>): DepGraph {
    if passes == [] then map[]
    else
      var last := passes[|passes| - 1];
      GraphOf(passes[..|passes| - 1])[last.name := ToSet(last.dependencies)]
  }

  /** `idx` is the last pass registered under its name. */
  ghost predicate LastNamed(passes: seq<Pass>, idx: int) {
    0 <= idx < |passes| && forall j :: idx < j < |passes| ==> passes[j].name != passes[idx].name
  }

  ghost predicate UniqueNames(passes: seq<Pass>) {
    forall i, j :: 0 <= i < j < |passes| ==> passes[i].name != passes[j].name
  }

  lemma {:induction false} GraphOfNames(passes: seq<Pass>, name: string)
    ensures name in GraphOf(passes) <==> exists i :: 0 <= i < |passes| && passes[i].name == name
  {
    if passes != [] {
      GraphOfNames(passes[..|passes| - 1], name);
    }
  }

  lemma {:induction false} GraphOfLastNamed(passes: seq<Pass>, idx: nat)
    requires LastNamed(passes, idx)
    ensures passes[idx].name in GraphOf(passes)
    ensures GraphOf(passes)[passes[idx].name] == ToSet(passes[idx].dependencies)
  {
    if idx < |passes| - 1 {
      GraphOfLastNamed(passes[..|passes| - 1], idx);
    }
  }

  // ----- Depth-first order -----

  /** The names finished so far, in an order that respects the graph. */
  ghost predicate Finished(g: DepGraph, visited: set<string>, order: seq<string>) {
    Topological(g, order) && visited == set name | name in order
  }

  /** The names on the current path of the search are those in `temp`. */
  ghost predicate OnPath(g: DepGraph, path: seq<string>, node: string, temp: set<string>) {
    IsWalk(g, path + [node]) && forall name :: name in temp <==> name in path
  }

  /** Visits a name and everything it depends on. The search fails exactly by finding a
      dependency cycle; dependencies are visited in an arbitrary order. */
  method Visit(node: string, g: DepGraph, visited: set<string>, temp: set<string>, order: seq<string>, ghost path: seq<string>)
    returns (ok: bool, visited': set<string>, temp': set<string>, order': seq<string>)
    requires Finished(g, visited, order) && OnPath(g, path, node, temp) && visited !! temp
    requires temp + {node} <= Universe(g)
    ensures ok ==>
      && Finished(g, visited', order') && visited <= visited' && node in visited'
      && temp' == temp && visited' !! temp
    ensures !ok ==> HasCycle(g)
    decreases Universe(g) - temp
  {
    visited', temp', order' := visited, temp, order;
    if node in temp {
      ghost var i :| 0 <= i < |path| && path[i] == node;
      RepetitionIsCycle(g, path + [node], i, |path|);
      return false, visited', temp', order';
    }
    if node in visited {
      return true, visited', temp', order';
    }
    temp' := temp' + {node};
    if node in g {
      var remaining := g[node];
      while remaining != {}
        invariant remaining <= g[node]
        invariant Finished(g, visited', order') && visited <= visited'
        invariant temp' == temp + {node} && visited' !! temp'
        invariant g[node] - remaining <= visited'
        decreases remaining
      {
        var dep :| dep in remaining;
        WalkConcat(g, path + [node], [dep]);
        assert path + [node] + [dep] == (path + [node]) + [dep];
        ok, visited', temp', order' := Visit(dep, g, visited', temp', order', path + [node]);
        if !ok {
          return;
        }
        remaining := remaining - {dep};
      }
    }
    temp' := temp' - {node};
    assert node in g ==> forall dep :: dep in g[node] ==> dep in visited';
    TopologicalExtends(g, order', node);
    visited' := visited' + {node};
    order' := order' + [node];
    ok := true;
  }

  /** The index of each registered name; the last registration of a name counts. */
  function IndexOf(passes: seq<Pass>): map<string, nat> {
    if passes == [] then map[]
    else IndexOf(passes[..|passes| - 1])[passes[|passes| - 1].name := |passes| - 1]
  }

  lemma {:induction false} IndexOfIsLast(passes: seq<Pass>, name: string)
    ensures name in IndexOf(passes) <==> name in GraphOf(passes)
    ensures name in IndexOf(passes) ==>
      LastNamed(passes, IndexOf(passes)[name]) && passes[IndexOf(passes)[name]].name == name
  {
    if passes != [] {
      IndexOfIsLast(passes[..|passes| - 1], name);
    }
  }

  lemma LastNamedIsIndex(passes: seq<Pass>, idx: nat)
    requires LastNamed(passes, idx)
    ensures passes[idx].name in IndexOf(passes) && IndexOf(passes)[passes[idx].name] == idx
  {
    GraphOfLastNamed(passes, idx);
    IndexOfIsLast(passes, passes[idx].name);
  }

  /** The indices of the registered names among `names`, in the same order. */
  function ToIndices(m: map<string, nat>, names: seq<string>): seq<nat> {
    if names == [] then []
    else
      var last := names[|names| - 1];
      ToIndices(m, names[..|names| - 1]) + (if last in m then [m[last]] else [])
  }

  lemma {:induction false} ToIndicesMembers(m: map<string, nat>, names: seq<string>, idx: nat)
    ensures idx in ToIndices(m, names) <==> exists i :: 0 <= i < |names| && names[i] in m && m[names[i]] == idx
  {
    if names != [] {
      ToIndicesMembers(m, names[..|names| - 1], idx);
    }
  }

  /** Pass `i` names the pass that counts under `j`'s name as a dependency. */
  ghost predicate DependsOnPass(passes: seq<Pass>, i: int, j: int) {
    0 <= i < |passes| && LastNamed(passes, j) && passes[j].name in passes[i].dependencies
  }

  ghost predicate DependenciesFirst(passes: seq<Pass>, order: seq<nat>) {
    Distinct(order) && forall i, j :: 0 <= i < |order| && DependsOnPass(passes, order[i], j) ==> j in order[..i]
  }

  /** Every pass that counts occurs once, after every pass it depends on. */
  ghost predicate IsExecutionOrder(passes: seq<Pass>, order: seq<nat>) {
    DependenciesFirst(passes, order) && forall idx :: idx in order <==> LastNamed(passes, idx)
  }

  /** Dropping unregistered names from a topological order keeps dependencies first. */
  lemma {:induction false} ToIndicesKeepsOrder(passes: seq<Pass>, names: seq<string>)
    requires Topological(GraphOf(passes), names)
    ensures DependenciesFirst(passes, ToIndices(IndexOf(passes), names))
  {
    var g, m := GraphOf(passes), IndexOf(passes);
    if names != [] {
      var init, last := names[..|names| - 1], names[|names| - 1];
      forall i | 0 <= i < |init| && init[i] in g ensures forall dep :: dep in g[init[i]] ==> dep in init[..i] {
        assert init[..i] == names[..i];
      }
      ToIndicesKeepsOrder(passes, init);
      var before, order := ToIndices(m, init), ToIndices(m, names);
      if last in m {
        var idx := m[last];
        IndexOfIsLast(passes, last);
        GraphOfLastNamed(passes, idx);
        ToIndicesMembers(m, init, idx);
        forall i | 0 <= i < |init| && init[i] in m ensures m[init[i]] != idx {
          IndexOfIsLast(passes, init[i]);
        }
        forall i, j | 0 <= i < |order| && DependsOnPass(passes, order[i], j) ensures j in order[..i] {
          if i < |before| {
            assert order[..i] == before[..i];
          } else {
            assert order[..i] == before;
            LastNamedIsIndex(passes, j);
            assert passes[j].name in names[..|names| - 1];
            ToIndicesMembers(m, init, j);
          }
        }
      } else {
        assert order == before;
      }
    }
  }

  // ----- Dependency levels -----

  predicate Ready(passes: seq<Pass>, completed: set<string>, i: nat)
    requires i < |passes|
  {
    passes[i].name !in completed && ToSet(passes[i].dependencies) <= completed
  }

  /** The passes among the first `n` that are ready, in registration order. */
  function ReadyBelow(passes: seq<Pass>, completed: set<string>, n: nat): seq<nat>
    requires n <= |passes|
  {
    if n == 0 then []
    else ReadyBelow(passes, completed, n - 1) + (if Ready(passes, completed, n - 1) then [n - 1] else [])
  }

  lemma {:induction false} ReadyBelowMembers(passes: seq<Pass>, completed: set<string>, n: nat)
    requires n <= |passes|
    ensures forall i :: i in ReadyBelow(passes, completed, n) <==> 0 <= i < n && Ready(passes, completed, i)
    ensures Distinct(ReadyBelow(passes, completed, n))
  {
    if n > 0 {
      ReadyBelowMembers(passes, completed, n - 1);
    }
  }

  ghost function ReadyNamesBelow(passes: seq<Pass>, completed: set<string>, n: nat): set<string>
    requires n <= |passes|
  {
    if n == 0 then {}
    else ReadyNamesBelow(passes, completed, n - 1) + (if Ready(passes, completed, n - 1) then {passes[n - 1].name} else {})
  }

  ghost function ReadyNames(passes: seq<Pass>, completed: set<string>): set<string> {
    ReadyNamesBelow(passes, completed, |passes|)
  }

  lemma {:induction false} ReadyNamesMembers(passes: seq<Pass>, completed: set<string>, n: nat, name: string)
    requires n <= |passes|
    ensures name in ReadyNamesBelow(passes, completed, n)
            <==> exists i :: 0 <= i < n && Ready(passes, completed, i) && passes[i].name == name
  {
    if n > 0 {
      ReadyNamesMembers(passes, completed, n - 1, name);
    }
  }

  /** With unique names a name is ready exactly when its pass is. */
  lemma ReadyNameOf(passes: seq<Pass>, completed: set<string>, i: nat)
    requires UniqueNames(passes) && i < |passes|
    ensures passes[i].name in ReadyNames(passes, completed) <==> Ready(passes, completed, i)
  {
    ReadyNamesMembers(passes, completed, |passes|, passes[i].name);
    if j :| 0 <= j < |passes| && Ready(passes, completed, j) && passes[j].name == passes[i].name {
      assert i == j;
    }
  }

  /** The names completed after `k` levels. */
  ghost function CompletedAfter(passes: seq<Pass>, k: nat): set<string> {
    if k == 0 then {}
    else
      var completed := CompletedAfter(passes, k - 1);
      completed + ReadyNames(passes, completed)
  }

  ghost function Level(passes: seq<Pass>, k: nat): seq<nat> {
    ReadyBelow(passes, CompletedAfter(passes, k), |passes|)
  }

  ghost predicate LevelsSoFar(passes: seq<Pass>, levels: seq<seq<nat>>) {
    forall k :: 0 <= k < |levels| ==> levels[k] == Level(passes, k) && levels[k] != []
  }

  lemma LevelsExtend(passes: seq<Pass>, levels: seq<seq<nat>>, level: seq<nat>)
    requires LevelsSoFar(passes, levels) && level == Level(passes, |levels|) != []
    ensures LevelsSoFar(passes, levels + [level])
  {
  }

  /** The levels in order up to the first empty one. */
  ghost predicate AreLevels(passes: seq<Pass>, levels: seq<seq<nat>>) {
    LevelsSoFar(passes, levels) && Level(passes, |levels|) == []
  }

  // ----- The levels, from the registered passes alone -----

  ghost predicate InRegistrationOrder(level: seq<nat>) {
    forall a, b :: 0 <= a < b < |level| ==> level[a] < level[b]
  }

  /** A pass of this name is in one of the first `k` levels. */
  ghost predicate DoneBefore(passes: seq<Pass>, levels: seq<seq<nat>>, k: nat, name: string) {
    exists j: nat, i: nat :: j < k && j < |levels| && i in levels[j] && i < |passes| && passes[i].name == name
  }

  /** The pass is not done before level `k`, but all its dependencies are. */
  ghost predicate IsDue(passes: seq<Pass>, levels: seq<seq<nat>>, k: nat, i: nat)
    requires i < |passes|
  {
    && !DoneBefore(passes, levels, k, passes[i].name)
    && forall name :: name in passes[i].dependencies ==> DoneBefore(passes, levels, k, name)
  }

  ghost predicate HoldsDue(passes: seq<Pass>, levels: seq<seq<nat>>, k: nat)
    requires k < |levels|
  {
    && levels[k] != [] && InRegistrationOrder(levels[k])
    && (forall i :: i in levels[k] ==> i < |passes|)
    && (forall i: nat :: i < |passes| ==> (i in levels[k] <==> IsDue(passes, levels, k, i)))
  }

  /** Each level holds exactly the passes that are due, in registration order, and after the
      last level none is. */
  ghost predicate TakesWhatIsDue(passes: seq<Pass>, levels: seq<seq<nat>>) {
    && (forall k: nat :: k < |levels| ==> HoldsDue(passes, levels, k))
    && (forall i: nat :: i < |passes| ==> !IsDue(passes, levels, |levels|, i))
  }

  lemma {:induction false} ReadyBelowAscends(passes: seq<Pass>, completed: set<string>, n: nat)
    requires n <= |passes|
    ensures InRegistrationOrder(ReadyBelow(passes, completed, n))
  {
    if n > 0 {
      ReadyBelowAscends(passes, completed, n - 1);
      ReadyBelowMembers(passes, completed, n - 1);
      var front := ReadyBelow(passes, completed, n - 1);
      assert forall a :: 0 <= a < |front| ==> front[a] in front;
    }
  }

  lemma NamesOfLevel(passes: seq<Pass>, k: nat, name: string)
    ensures name in ReadyNames(passes, CompletedAfter(passes, k))
            <==> exists i: nat :: i in Level(passes, k) && i < |passes| && passes[i].name == name
  {
    var completed := CompletedAfter(passes, k);
    ReadyNamesMembers(passes, completed, |passes|, name);
    ReadyBelowMembers(passes, completed, |passes|);
    if i: nat :| i in Level(passes, k) && i < |passes| && passes[i].name == name {
      assert Ready(passes, completed, i);
    }
    if i :| 0 <= i < |passes| && Ready(passes, completed, i) && passes[i].name == name {
      assert i in Level(passes, k);
    }
  }

  lemma {:induction false} CompletedIffDone(passes: seq<Pass>, levels: seq<seq<nat>>, k: nat, name: string)
    requires LevelsSoFar(passes, levels) && k <= |levels|
    ensures name in CompletedAfter(passes, k) <==> DoneBefore(passes, levels, k, name)
  {
    if k > 0 {
      CompletedIffDone(passes, levels, k - 1, name);
      NamesOfLevel(passes, k - 1, name);
      assert levels[k - 1] == Level(passes, k - 1);
    }
  }

  lemma ReadyIffDue(passes: seq<Pass>, levels: seq<seq<nat>>, k: nat, i: nat)
    requires LevelsSoFar(passes, levels) && k <= |levels| && i < |passes|
    ensures Ready(passes, CompletedAfter(passes, k), i) <==> IsDue(passes, levels, k, i)
  {
    CompletedIffDone(passes, levels, k, passes[i].name);
    forall name | name in passes[i].dependencies
      ensures name in CompletedAfter(passes, k) <==> DoneBefore(passes, levels, k, name)
    {
      CompletedIffDone(passes, levels, k, name);
    }
  }

  lemma LevelHoldsDue(passes: seq<Pass>, levels: seq<seq<nat>>, k: nat)
    requires LevelsSoFar(passes, levels) && k < |levels|
    ensures HoldsDue(passes, levels, k)
  {
    var completed := CompletedAfter(passes, k);
    ReadyBelowMembers(passes, completed, |passes|);
    ReadyBelowAscends(passes, completed, |passes|);
    assert levels[k] == ReadyBelow(passes, completed, |passes|);
    forall i: nat | i < |passes| ensures i in levels[k] <==> IsDue(passes, levels, k, i) {
      ReadyIffDue(passes, levels, k, i);
    }
  }

  lemma LevelsTakeWhatIsDue(passes: seq<Pass>, levels: seq<seq<nat>>)
    requires AreLevels(passes, levels)
    ensures TakesWhatIsDue(passes, levels)
  {
    forall k: nat | k < |levels| ensures HoldsDue(passes, levels, k) {
      LevelHoldsDue(passes, levels, k);
    }
    ReadyBelowMembers(passes, CompletedAfter(passes, |levels|), |passes|);
    forall i: nat | i < |passes| ensures !IsDue(passes, levels, |levels|, i) {
      ReadyIffDue(passes, levels, |levels|, i);
      assert i !in Level(passes, |levels|);
    }
  }

  lemma {:induction false} UniqueNamesAreLast(passes: seq<Pass>, name: string)
    requires UniqueNames(passes)
    ensures name in GraphOf(passes) <==> exists i :: 0 <= i < |passes| && passes[i].name == name
    ensures forall i :: 0 <= i < |passes| ==>
      passes[i].name in GraphOf(passes) && GraphOf(passes)[passes[i].name] == ToSet(passes[i].dependencies)
  {
    GraphOfNames(passes, name);
    forall i | 0 <= i < |passes|
      ensures passes[i].name in GraphOf(passes) && GraphOf(passes)[passes[i].name] == ToSet(passes[i].dependencies)
    {
      assert LastNamed(passes, i);
      GraphOfLastNamed(passes, i);
    }
  }

  /** A name is completed after `k` levels exactly when its dependency chains have at most
      `k` names, all registered. */
  lemma {:induction false} CompletedIffChainsWithin(passes: seq<Pass>, k: nat, name: string)
    requires UniqueNames(passes)
    ensures name in CompletedAfter(passes, k) <==> ChainsWithin(GraphOf(passes), name, k)
    decreases k
  {
    var g := GraphOf(passes);
    if k == 0 {
      ChainsStep(g, name, 0);
    } else {
      var j := k - 1;
      var completed := CompletedAfter(passes, j);
      CompletedIffChainsWithin(passes, j, name);
      UniqueNamesAreLast(passes, name);
      ChainsStep(g, name, j);
      ReadyNamesMembers(passes, completed, |passes|, name);
      if name in g {
        var i :| 0 <= i < |passes| && passes[i].name == name;
        forall dep | dep in g[name] ensures dep in completed <==> ChainsWithin(g, dep, j) {
          CompletedIffChainsWithin(passes, j, dep);
        }
        ReadyNameOf(passes, completed, i);
        if ChainsWithin(g, name, j) {
          ChainsGrow(g, name, j);
        }
      }
    }
  }

  lemma {:induction false} CompletedGrows(passes: seq<Pass>, j: nat, k: nat)
    requires j <= k
    ensures CompletedAfter(passes, j) <= CompletedAfter(passes, k)
    decreases k
  {
    if j < k {
      CompletedGrows(passes, j, k - 1);
    }
  }

  lemma {:induction false} CompletedStays(passes: seq<Pass>, j: nat, k: nat)
    requires j <= k && Level(passes, j) == []
    ensures CompletedAfter(passes, k) == CompletedAfter(passes, j)
    decreases k
  {
    if j < k {
      CompletedStays(passes, j, k - 1);
      NoneIsReady(passes, CompletedAfter(passes, j));
    }
  }

  lemma NoneIsReady(passes: seq<Pass>, completed: set<string>)
    requires ReadyBelow(passes, completed, |passes|) == []
    ensures ReadyNames(passes, completed) == {}
  {
    ReadyBelowMembers(passes, completed, |passes|);
    forall name ensures name !in ReadyNames(passes, completed) {
      ReadyNamesMembers(passes, completed, |passes|, name);
      assert forall i :: 0 <= i < |passes| ==> i !in ReadyBelow(passes, completed, |passes|);
    }
  }

  /** A pass is in level `k` exactly when its longest dependency chain has `k + 1` names. */
  lemma LevelIsLongestChain(passes: seq<Pass>, k: nat, i: nat)
    requires UniqueNames(passes) && i < |passes|
    ensures i in Level(passes, k) <==>
      ChainsWithin(GraphOf(passes), passes[i].name, k + 1) && !ChainsWithin(GraphOf(passes), passes[i].name, k)
  {
    var name := passes[i].name;
    CompletedIffChainsWithin(passes, k, name);
    CompletedIffChainsWithin(passes, k + 1, name);
    ReadyBelowMembers(passes, CompletedAfter(passes, k), |passes|);
    ReadyNameOf(passes, CompletedAfter(passes, k), i);
  }

  lemma {:induction false} ChainEndsInLevel(passes: seq<Pass>, k: nat, i: nat) returns (j: nat)
    requires UniqueNames(passes) && i < |passes| && ChainsWithin(GraphOf(passes), passes[i].name, k)
    ensures j < k && i in Level(passes, j)
  {
    var g, name := GraphOf(passes), passes[i].name;
    assert WalkFrom(g, name, [name]);
    j := k - 1;
    if ChainsWithin(g, name, j) {
      j := ChainEndsInLevel(passes, j, i);
    } else {
      LevelIsLongestChain(passes, j, i);
    }
  }

  lemma CompletedWasLevelled(passes: seq<Pass>, k: nat, i: nat) returns (j: nat)
    requires UniqueNames(passes) && i < |passes| && passes[i].name in CompletedAfter(passes, k)
    ensures j < k && i in Level(passes, j)
  {
    CompletedIffChainsWithin(passes, k, passes[i].name);
    j := ChainEndsInLevel(passes, k, i);
  }

  ghost predicate Placed(levels: seq<seq<nat>>, i: nat) {
    exists k :: 0 <= k < |levels| && i in levels[k]
  }

  lemma CompletedIsPlaced(passes: seq<Pass>, levels: seq<seq<nat>>, k: nat, i: nat)
    requires UniqueNames(passes) && AreLevels(passes, levels)
    requires i < |passes| && passes[i].name in CompletedAfter(passes, k)
    ensures Placed(levels, i)
  {
    CompletedGrows(passes, k, k + |levels|);
    CompletedStays(passes, |levels|, k + |levels|);
    var j := CompletedWasLevelled(passes, |levels|, i);
    assert i in levels[j];
  }

  /** Exactly the passes whose transitive dependencies are all registered and free of cycles
      are placed in some level. */
  lemma PlacedIffSchedulable(passes: seq<Pass>, levels: seq<seq<nat>>, i: nat)
    requires UniqueNames(passes) && AreLevels(passes, levels) && i < |passes|
    ensures Placed(levels, i) <==> Schedulable(GraphOf(passes), passes[i].name)
  {
    var g, name := GraphOf(passes), passes[i].name;
    BoundedIffSchedulable(g, name);
    if k :| 0 <= k < |levels| && i in levels[k] {
      LevelIsLongestChain(passes, k, i);
    }
    if k: nat :| ChainsWithin(g, name, k) {
      CompletedIffChainsWithin(passes, k, name);
      CompletedIsPlaced(passes, levels, k, i);
    }
  }

  /** Once the order is computed, a sequential run has every pass, while a parallel run drops
      exactly those passes that transitively depend on a name nobody registered. */
  lemma PlacedIffRegistered(passes: seq<Pass>, order: seq<nat>, levels: seq<seq<nat>>, i: nat)
    requires UniqueNames(passes) && !HasCycle(GraphOf(passes)) && i < |passes|
    requires IsExecutionOrder(passes, order) && AreLevels(passes, levels)
    ensures i in order && (Placed(levels, i) <==> ReachesRegistered(GraphOf(passes), passes[i].name))
  {
    assert LastNamed(passes, i);
    UniqueNamesAreLast(passes, passes[i].name);
    PlacedIffSchedulable(passes, levels, i);
    SchedulableIffRegistered(GraphOf(passes), passes[i].name);
  }

  ghost predicate SamePasses(order: seq<nat>, levels: seq<seq<nat>>) {
    forall i: nat :: i in order <==> Placed(levels, i)
  }

  /** Both modes run the same passes exactly when every dependency is registered. */
  lemma SamePassesIffAllRegistered(passes: seq<Pass>, order: seq<nat>, levels: seq<seq<nat>>)
    requires UniqueNames(passes) && !HasCycle(GraphOf(passes))
    requires IsExecutionOrder(passes, order) && AreLevels(passes, levels)
    ensures SamePasses(order, levels) <==> AllRegistered(GraphOf(passes))
  {
    var g := GraphOf(passes);
    AllRegisteredIffReached(g);
    if AllRegistered(g) {
      forall i: nat ensures i in order <==> Placed(levels, i) {
        PlacedIsPass(passes, levels, i);
        if i < |passes| {
          PlacedIffRegistered(passes, order, levels, i);
          UniqueNamesAreLast(passes, passes[i].name);
        } else {
          assert !LastNamed(passes, i);
        }
      }
    }
    if SamePasses(order, levels) {
      forall a | a in g ensures ReachesRegistered(g, a) {
        UniqueNamesAreLast(passes, a);
        var i :| 0 <= i < |passes| && passes[i].name == a;
        PlacedIffRegistered(passes, order, levels, i);
      }
    }
  }

  lemma PlacedIsPass(passes: seq<Pass>, levels: seq<seq<nat>>, i: nat)
    requires AreLevels(passes, levels)
    ensures Placed(levels, i) ==> i < |passes|
  {
    if k :| 0 <= k < |levels| && i in levels[k] {
      ReadyBelowMembers(passes, CompletedAfter(passes, k), |passes|);
    }
  }

  /** A pass whose only dependency is not registered: a sequential run executes it, a parallel
      run has no level for it. */
  lemma UnregisteredDependencyDropsPass(name: string, missing: string, body: Program)
    requires name != missing
    ensures var passes := [Pass(name, [missing], body)];
      UniqueNames(passes) && IsExecutionOrder(passes, [0]) && AreLevels(passes, [])
  {
    var passes := [Pass(name, [missing], body)];
    assert forall i, j :: !DependsOnPass(passes, i, j);
    assert missing in ToSet(passes[0].dependencies);
    assert ReadyBelow(passes, {}, 0) == [];
    assert Level(passes, 0) == [];
  }

  /** A placed pass occurs once: in one level, at one position. */
  lemma PlacedOnce(passes: seq<Pass>, levels: seq<seq<nat>>, j: nat, k: nat, i: nat)
    requires UniqueNames(passes) && AreLevels(passes, levels) && j <= k < |levels|
    requires i in levels[j] && i in levels[k]
    ensures j == k && Distinct(levels[k])
  {
    ReadyBelowMembers(passes, CompletedAfter(passes, j), |passes|);
    ReadyBelowMembers(passes, CompletedAfter(passes, k), |passes|);
    if j < k {
      ReadyNameOf(passes, CompletedAfter(passes, j), i);
      CompletedGrows(passes, j + 1, k);
    }
  }

  /** The dependencies of a pass are all in earlier levels. */
  lemma DependenciesInEarlierLevels(passes: seq<Pass>, levels: seq<seq<nat>>, k: nat, i: nat, dep: string) returns (j: nat, d: nat)
    requires UniqueNames(passes) && AreLevels(passes, levels) && k < |levels| && i in levels[k]
    requires i < |passes| && dep in passes[i].dependencies
    ensures j < k && d in levels[j] && d < |passes| && passes[d].name == dep
  {
    ReadyBelowMembers(passes, CompletedAfter(passes, k), |passes|);
    assert dep in ToSet(passes[i].dependencies);
    CompletedIffChainsWithin(passes, k, dep);
    UniqueNamesAreLast(passes, dep);
    assert WalkFrom(GraphOf(passes), dep, [dep]) && dep in [dep];
    d :| 0 <= d < |passes| && passes[d].name == dep;
    j := CompletedWasLevelled(passes, k, d);
  }

  /** A way to spread names over numbered levels that puts every dependency strictly lower. */
  ghost predicate RespectsDependencies(g: DepGraph, level: map<string, nat>) {
    forall a, b :: a in level && DependsOn(g, a, b) ==> b in level && level[b] < level[a]
  }

  lemma {:induction false} LevelFallsAlongWalk(g: DepGraph, level: map<string, nat>, walk: seq<string>)
    requires RespectsDependencies(g, level) && IsWalk(g, walk) && walk[0] in level
    ensures |walk| <= level[walk[0]] + 1
  {
    if |walk| > 1 {
      assert DependsOn(g, walk[0], walk[1]);
      WalkSlice(g, walk, 1, |walk|);
      LevelFallsAlongWalk(g, level, walk[1..]);
    }
  }

  /** No dependency-respecting schedule places a pass earlier, so none has fewer levels. */
  lemma LevelsAreFewest(passes: seq<Pass>, levels: seq<seq<nat>>, k: nat, i: nat, level: map<string, nat>)
    requires UniqueNames(passes) && AreLevels(passes, levels) && k < |levels| && i < |passes| && i in levels[k]
    requires RespectsDependencies(GraphOf(passes), level) && passes[i].name in level
    ensures k <= level[passes[i].name]
  {
    var g, name := GraphOf(passes), passes[i].name;
    LevelIsLongestChain(passes, k, i);
    var walk :| WalkFrom(g, name, walk) && !(|walk| <= k && forall x :: x in walk ==> x in g);
    LevelFallsAlongWalk(g, level, walk);
  }

  class PassManager {
    var passes: seq<Pass>
    var executionOrder: seq<nat>

    constructor ()
      ensures passes == [] && executionOrder == []
    {
      passes, executionOrder := [], [];
    }

    method Register(pass: Pass)
      modifies this`passes
      ensures passes == old(passes) + [pass]
    {
      passes := passes + [pass];
    }

    method BuildGraph() returns (g: DepGraph, index: map<string, nat>)
      ensures g == GraphOf(passes) && index == IndexOf(passes)
    {
      g, index := map[], map[];
      for i := 0 to |passes|
        invariant g == GraphOf(passes[..i]) && index == IndexOf(passes[..i])
      {
        g := g[passes[i].name := ToSet(passes[i].dependencies)];
        index := index[passes[i].name := i];
        assert passes[..i + 1][..i] == passes[..i];
      }
      assert passes[..|passes|] == passes;
    }

    /** Fails exactly when some registered pass depends on itself through registered passes;
        otherwise the execution order holds every pass once, dependencies first. On failure
        the previous execution order stays. */
    method ComputeOrder() returns (ok: bool)
      modifies this`executionOrder
      ensures ok <==> !HasCycle(GraphOf(passes))
      ensures ok ==> IsExecutionOrder(passes, executionOrder)
      ensures !ok ==> executionOrder == old(executionOrder)
    {
      var g, index := BuildGraph();
      var visited: set<string>, temp: set<string>, order: seq<string> := {}, {}, [];
      for i := 0 to |passes|
        invariant executionOrder == old(executionOrder)
        invariant Finished(g, visited, order) && temp == {}
        invariant forall j :: 0 <= j < i ==> passes[j].name in visited
      {
        GraphOfNames(passes, passes[i].name);
        ok, visited, temp, order := Visit(passes[i].name, g, visited, temp, order, []);
        if !ok {
          return;
        }
      }
      forall name | name in g ensures name in order {
        GraphOfNames(passes, name);
      }
      TopologicalHasNoCycle(g, order);
      var indices: seq<nat> := [];
      for i := 0 to |order|
        invariant indices == ToIndices(index, order[..i])
      {
        if order[i] in index {
          indices := indices + [index[order[i]]];
        }
        assert order[..i + 1][..i] == order[..i];
      }
      assert order[..|order|] == order;
      ToIndicesKeepsOrder(passes, order);
      forall idx ensures idx in indices <==> LastNamed(passes, idx) {
        if idx >= 0 {
          ToIndicesMembers(index, order, idx);
          if idx in indices {
            var i :| 0 <= i < |order| && order[i] in index && index[order[i]] == idx;
            IndexOfIsLast(passes, order[i]);
          }
          if LastNamed(passes, idx) {
            LastNamedIsIndex(passes, idx);
          }
        }
      }
      executionOrder := indices;
      ok := true;
    }

    /** Repeatedly collects the passes whose dependencies are complete, until none is left or
        none is ready. */
    method ComputeLevels() returns (levels: seq<seq<nat>>)
      ensures TakesWhatIsDue(passes, levels)
      ensures AreLevels(passes, levels)
    {
      levels := [];
      var completed: set<string> := {};
      while |completed| < |passes|
        invariant completed == CompletedAfter(passes, |levels|)
        invariant completed <= NamesOf(passes)
        invariant LevelsSoFar(passes, levels)
        decreases NamesOf(passes) - completed
      {
        var level := CollectReady(passes, completed);
        if level == [] {
          LevelsTakeWhatIsDue(passes, levels);
          return;
        }
        NamesAtReady(passes, completed);
        LevelsExtend(passes, levels, level);
        completed := MarkCompleted(passes, completed, level);
        levels := levels + [level];
      }
      NothingLeft(passes, completed);
      LevelsTakeWhatIsDue(passes, levels);
    }
  }

  /** One pass over the registered passes, in registration order. */
  method CollectReady(passes: seq<Pass>, completed: set<string>) returns (level: seq<nat>)
    ensures level == ReadyBelow(passes, completed, |passes|)
  {
    level := [];
    for idx := 0 to |passes|
      invariant level == ReadyBelow(passes, completed, idx)
    {
      if passes[idx].name !in completed && ToSet(passes[idx].dependencies) <= completed {
        level := level + [idx];
      }
    }
  }

  ghost function NamesAt(passes: seq<Pass>, level: seq<nat>): set<string>
    requires forall q :: 0 <= q < |level| ==> level[q] < |passes|
  {
    set q | 0 <= q < |level| :: passes[level[q]].name
  }

  method MarkCompleted(passes: seq<Pass>, completed: set<string>, level: seq<nat>) returns (completed': set<string>)
    requires forall q :: 0 <= q < |level| ==> level[q] < |passes|
    ensures completed' == completed + NamesAt(passes, level)
  {
    completed' := completed;
    for p := 0 to |level|
      invariant completed' == completed + set q | 0 <= q < p :: passes[level[q]].name
    {
      completed' := completed' + {passes[level[p]].name};
    }
  }

  lemma NamesAtReady(passes: seq<Pass>, completed: set<string>)
    ensures var level := ReadyBelow(passes, completed, |passes|);
      && (forall q :: 0 <= q < |level| ==> level[q] < |passes|)
      && NamesAt(passes, level) == ReadyNames(passes, completed)
      && (level != [] ==> completed < completed + ReadyNames(passes, completed))
      && (completed <= NamesOf(passes) ==> completed + ReadyNames(passes, completed) <= NamesOf(passes))
  {
    var level := ReadyBelow(passes, completed, |passes|);
    ReadyBelowMembers(passes, completed, |passes|);
    assert forall q :: 0 <= q < |level| ==> level[q] in level;
    forall x ensures x in ReadyNames(passes, completed) <==> x in NamesAt(passes, level) {
      ReadyNamesMembers(passes, completed, |passes|, x);
      if i :| 0 <= i < |passes| && Ready(passes, completed, i) && passes[i].name == x {
        assert i in level;
      }
    }
    if level != [] {
      assert passes[level[0]].name in NamesAt(passes, level);
    }
  }

  ghost function NamesOf(passes: seq<Pass>): set<string> {
    set i | 0 <= i < |passes| :: passes[i].name
  }

  lemma ReadyAreNew(passes: seq<Pass>, completed: set<string>, i: nat)
    requires i in ReadyBelow(passes, completed, |passes|)
    ensures i < |passes| && passes[i].name !in completed && passes[i].name in NamesOf(passes)
  {
    ReadyBelowMembers(passes, completed, |passes|);
  }

  /** Once as many names are completed as there are passes, every name is. */
  lemma NothingLeft(passes: seq<Pass>, completed: set<string>)
    requires completed <= NamesOf(passes) && |passes| <= |completed|
    ensures ReadyBelow(passes, completed, |passes|) == []
  {
    NamesFit(passes, |passes|);
    SubsetOfSameSize(completed, NamesOf(passes));
    if ReadyBelow(passes, completed, |passes|) != [] {
      ReadyAreNew(passes, completed, ReadyBelow(passes, completed, |passes|)[0]);
    }
  }

  lemma {:induction false} NamesFit(passes: seq<Pass>, n: nat)
    requires n <= |passes|
    ensures |set i | 0 <= i < n :: passes[i].name| <= n
  {
    if n > 0 {
      NamesFit(passes, n - 1);
      assert (set i | 0 <= i < n :: passes[i].name) == (set i | 0 <= i < n - 1 :: passes[i].name) + {passes[n - 1].name};
    }
  }

  lemma {:induction false} SubsetOfSameSize(a: set<string>, b: set<string>)
    requires a <= b && |b| <= |a|
    ensures a == b
  {
    if a != {} {
      var x :| x in a;
      SubsetOfSameSize(a - {x}, b - {x});
    } else {
      assert |b| == 0;
    }
  }
}
