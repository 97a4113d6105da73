/** When sequential and level-parallel execution agree. */
module Agreement {
  import opened Sequences
  import opened DependencyGraphs
  import opened PassContexts
  import opened PassManagers
  import opened PassRunners
  import opened Schedules
  import opened Confluence

  // Both schedules must place writers alike and let updates come last. Passes that depend on one
  // another whenever they access a common key are placed alike by all schedules.

  // ----- The theorem -----

  /** Passes that do not interfere leave the same shared store and the same findings, up to
      order and ids, under any two schedules that place writers alike. */
  lemma SchedulesAgree(gate: Gate, passes: seq<Pass>, levels1: seq<seq<nat>>, levels2: seq<seq<nat>>, c: Context)
    requires IsSchedule(passes, levels1) && IsSchedule(passes, levels2) && PlacedAlike(passes, levels1, levels2)
    requires NonInterfering(gate, passes, levels1, c.shared) && NonInterfering(gate, passes, levels2, c.shared)
    ensures var a, b := RunLevels(gate, passes, levels1, c), RunLevels(gate, passes, levels2, c);
      a.shared == b.shared && SameFindings(a, b)
  {
    SchedulesEndInOneStore(gate, passes, levels1, levels2, c);
    forall x ensures Count(RunLevels(gate, passes, levels1, c), x) == Count(RunLevels(gate, passes, levels2, c), x) {
      SchedulesFindTheSame(gate, passes, levels1, levels2, c, x);
    }
  }

  /** The levels of the greedy scheduler form a schedule once every dependency is registered
      and there is no cycle. */
  lemma LevelsAreSchedule(passes: seq<Pass>, levels: seq<seq<nat>>)
    requires UniqueNames(passes) && AreLevels(passes, levels) && !HasCycle(GraphOf(passes))
    requires AllRegistered(GraphOf(passes))
    ensures IsSchedule(passes, levels)
  {
    forall k | 0 <= k < |levels| ensures InRange(passes, levels[k]) && Distinct(levels[k]) {
      ReadyBelowMembers(passes, CompletedAfter(passes, k), |passes|);
      assert forall p :: 0 <= p < |levels[k]| ==> levels[k][p] in levels[k];
    }
    forall i | 0 <= i < |passes| ensures Placed(levels, i) {
      UniqueNamesAreLast(passes, passes[i].name);
      AllRegisteredIffReached(GraphOf(passes));
      SchedulableIffRegistered(GraphOf(passes), passes[i].name);
      PlacedIffSchedulable(passes, levels, i);
    }
    forall j, k, i | 0 <= j < |levels| && 0 <= k < |levels| && i in levels[j] && i in levels[k] ensures j == k {
      if j <= k {
        PlacedOnce(passes, levels, j, k, i);
      } else {
        PlacedOnce(passes, levels, k, j, i);
      }
    }
    forall k, i, dep | 0 <= k < |levels| && i in levels[k] && 0 <= i < |passes| && dep in passes[i].dependencies
      ensures exists d: nat :: PlacedBefore(levels, k, d) && d < |passes| && passes[d].name == dep
    {
      var j, d := DependenciesInEarlierLevels(passes, levels, k, i, dep);
      assert PlacedBefore(levels, k, d);
    }
  }

  /** The execution order of the depth-first scheduler forms a schedule of one-pass levels. */
  lemma OrderIsSchedule(passes: seq<Pass>, order: seq<nat>)
    requires UniqueNames(passes) && IsExecutionOrder(passes, order)
    requires AllRegistered(GraphOf(passes))
    ensures InRange(passes, order) && IsSchedule(passes, Singletons(order))
  {
    var levels := Singletons(order);
    forall p | 0 <= p < |order| ensures order[p] < |passes| {
      assert order[p] in order;
    }
    forall i | 0 <= i < |passes| ensures Placed(levels, i) {
      assert LastNamed(passes, i);
      assert i in order;
      var p :| 0 <= p < |order| && order[p] == i;
      assert i in levels[p];
    }
    forall k, i, dep | 0 <= k < |levels| && i in levels[k] && 0 <= i < |passes| && dep in passes[i].dependencies
      ensures exists d: nat :: PlacedBefore(levels, k, d) && d < |passes| && passes[d].name == dep
    {
      UniqueNamesAreLast(passes, passes[i].name);
      assert DependsOn(GraphOf(passes), passes[i].name, dep);
      UniqueNamesAreLast(passes, dep);
      var d: nat :| d < |passes| && passes[d].name == dep;
      assert DependsOnPass(passes, order[k], d);
      assert d in order[..k];
      var j :| 0 <= j < k && order[j] == d;
      assert d in levels[j];
      assert PlacedBefore(levels, k, d);
    }
  }

  /** In levels of one pass no two passes write one key, and every pass comes last. */
  lemma OnePassLevels(passes: seq<Pass>, levels: seq<seq<nat>>, base: map<string, Any>)
    requires AllInRange(passes, levels) && forall k :: 0 <= k < |levels| ==> |levels[k]| == 1
    ensures OneWriterPerLevel(passes, levels) && UpdatesComeLast(passes, levels, base)
  {
  }

  /** Sequential and level-parallel execution agree: the same shared store, and the same
      findings up to order and ids. */
  lemma ParallelEqualsSequential(gate: Gate, passes: seq<Pass>, order: seq<nat>, levels: seq<seq<nat>>, c: Context)
    requires UniqueNames(passes) && NonInterfering(gate, passes, levels, c.shared)
    requires !HasCycle(GraphOf(passes)) && AllRegistered(GraphOf(passes))
    requires IsExecutionOrder(passes, order) && AreLevels(passes, levels)
    requires PlacedAlike(passes, Singletons(order), levels)
    requires InRange(passes, order) && LooksAtNothing(passes, order, c)
    ensures AllInRange(passes, levels)
    ensures var sequential, parallel := RunInOrder(gate, passes, order, c), RunLevels(gate, passes, levels, c);
      sequential.shared == parallel.shared && SameFindings(sequential, parallel)
  {
    OrderIsSchedule(passes, order);
    LevelsAreSchedule(passes, levels);
    SequentialIsLevelled(gate, passes, order, c);
    OnePassLevels(passes, Singletons(order), c.shared);
    SchedulesAgree(gate, passes, Singletons(order), levels, c);
  }

  // ----- Passes without races -----

  /** One of the two passes transitively depends on the other. */
  ghost predicate Ordered(passes: seq<Pass>, i: nat, j: nat)
    requires i < |passes| && j < |passes|
  {
    Reaches(GraphOf(passes), passes[i].name, passes[j].name) || Reaches(GraphOf(passes), passes[j].name, passes[i].name)
  }

  /** Of two passes that access the same key, at least one of them writing it, one transitively
      depends on the other. */
  ghost predicate RaceFree(passes: seq<Pass>) {
    forall i, j, key :: 0 <= i < |passes| && 0 <= j < |passes| && i != j && Accesses(passes, i, key) && Writes(passes, j, key) ==>
      Ordered(passes, i, j)
  }

  /** What a pass transitively depends on is placed earlier. */
  lemma {:induction false} WalkGoesEarlier(passes: seq<Pass>, levels: seq<seq<nat>>, k: nat, i: nat, walk: seq<string>, j: nat)
    requires UniqueNames(passes) && IsSchedule(passes, levels) && IsWalk(GraphOf(passes), walk) && |walk| > 1
    requires k < |levels| && i in levels[k] && i < |passes| && passes[i].name == walk[0]
    requires j < |passes| && passes[j].name == walk[|walk| - 1]
    ensures PlacedBefore(levels, k, j)
    decreases |walk|
  {
    assert DependsOn(GraphOf(passes), walk[0], walk[1]);
    UniqueNamesAreLast(passes, walk[0]);
    assert walk[1] in passes[i].dependencies;
    var d: nat :| PlacedBefore(levels, k, d) && d < |passes| && passes[d].name == walk[1];
    if |walk| == 2 {
      assert d == j;
    } else {
      var l :| 0 <= l < k && l < |levels| && d in levels[l];
      WalkSlice(GraphOf(passes), walk, 1, |walk|);
      WalkGoesEarlier(passes, levels, l, d, walk[1..], j);
    }
  }

  /** Of two ordered passes the schedule places the one first that the other depends on. */
  lemma OrderDecides(passes: seq<Pass>, levels: seq<seq<nat>>, k: nat, i: nat, j: nat)
    requires UniqueNames(passes) && IsSchedule(passes, levels) && i < |passes| && j < |passes| && Ordered(passes, i, j)
    requires k < |levels| && i in levels[k]
    ensures PlacedBefore(levels, k, j) <==> Reaches(GraphOf(passes), passes[i].name, passes[j].name)
  {
    if Reaches(GraphOf(passes), passes[i].name, passes[j].name) {
      DependencyIsEarlier(passes, levels, k, i, j);
    } else if PlacedBefore(levels, k, j) {
      var l: nat :| l < k && l < |levels| && j in levels[l];
      DependencyIsEarlier(passes, levels, l, j, i);
    }
  }

  lemma DependencyIsEarlier(passes: seq<Pass>, levels: seq<seq<nat>>, k: nat, i: nat, j: nat)
    requires UniqueNames(passes) && IsSchedule(passes, levels) && i < |passes| && j < |passes|
    requires k < |levels| && i in levels[k] && Reaches(GraphOf(passes), passes[i].name, passes[j].name)
    ensures PlacedBefore(levels, k, j)
  {
    var walk :| IsWalk(GraphOf(passes), walk) && |walk| > 1 && walk[0] == passes[i].name && walk[|walk| - 1] == passes[j].name;
    WalkGoesEarlier(passes, levels, k, i, walk, j);
  }

  /** Passes that do not race are placed alike by all schedules. */
  lemma RaceFreeIsPlacedAlike(passes: seq<Pass>, levels1: seq<seq<nat>>, levels2: seq<seq<nat>>)
    requires UniqueNames(passes) && IsSchedule(passes, levels1) && IsSchedule(passes, levels2) && RaceFree(passes)
    ensures PlacedAlike(passes, levels1, levels2)
  {
    forall k1: nat, k2: nat, i: nat, key
      | k1 < |levels1| && i in levels1[k1] && k2 < |levels2| && i in levels2[k2] && i < |passes| && Accesses(passes, i, key)
      ensures SameWritersBefore(passes, levels1, k1, levels2, k2, key)
    {
      WritersAroundPass(passes, levels1, k1, levels2, k2, i, key);
    }
  }

  lemma WritersAroundPass(passes: seq<Pass>, levels1: seq<seq<nat>>, k1: nat, levels2: seq<seq<nat>>, k2: nat, i: nat, key: string)
    requires UniqueNames(passes) && IsSchedule(passes, levels1) && IsSchedule(passes, levels2) && RaceFree(passes)
    requires k1 < |levels1| && i in levels1[k1] && k2 < |levels2| && i in levels2[k2]
    requires i < |passes| && Accesses(passes, i, key)
    ensures SameWritersBefore(passes, levels1, k1, levels2, k2, key)
  {
    forall j: nat | j < |passes| && Writes(passes, j, key)
      ensures PlacedBefore(levels1, k1, j) <==> PlacedBefore(levels2, k2, j)
    {
      if i != j {
        OrderDecides(passes, levels1, k1, i, j);
        OrderDecides(passes, levels2, k2, i, j);
      }
    }
  }

  /** Nor do two of them write one key in one level. */
  lemma RaceFreeHasOneWriter(passes: seq<Pass>, levels: seq<seq<nat>>)
    requires UniqueNames(passes) && IsSchedule(passes, levels) && RaceFree(passes)
    ensures OneWriterPerLevel(passes, levels)
  {
    forall k, p, q, key | 0 <= k < |levels| && 0 <= p < |levels[k]| && 0 <= q < |levels[k]|
      && Writes(passes, levels[k][p], key) && Writes(passes, levels[k][q], key)
      ensures p == q
    {
      if p != q {
        SameLevelIsUnordered(passes, levels, k, p, q);
        assert Accesses(passes, levels[k][p], key);
      }
    }
  }

  lemma SameLevelIsUnordered(passes: seq<Pass>, levels: seq<seq<nat>>, k: nat, p: nat, q: nat)
    requires UniqueNames(passes) && IsSchedule(passes, levels) && k < |levels| && p < |levels[k]| && q < |levels[k]| && p != q
    ensures levels[k][p] != levels[k][q] && !Ordered(passes, levels[k][p], levels[k][q])
  {
    var i, j := levels[k][p], levels[k][q];
    assert i in levels[k] && j in levels[k] && Distinct(levels[k]);
    if Ordered(passes, i, j) {
      OrderDecides(passes, levels, k, i, j);
      OrderDecides(passes, levels, k, j, i);
    }
  }

  /** Passes without races leave the same store and the same findings under all schedules, as
      long as updates come last in their level. */
  lemma RaceFreeSchedulesAgree(gate: Gate, passes: seq<Pass>, levels1: seq<seq<nat>>, levels2: seq<seq<nat>>, c: Context)
    requires UniqueNames(passes) && IsSchedule(passes, levels1) && IsSchedule(passes, levels2)
    requires GateIgnoresIds(gate) && AllIgnoreIds(passes) && RaceFree(passes)
    requires UpdatesComeLast(passes, levels1, c.shared) && UpdatesComeLast(passes, levels2, c.shared)
    ensures var a, b := RunLevels(gate, passes, levels1, c), RunLevels(gate, passes, levels2, c);
      a.shared == b.shared && SameFindings(a, b)
  {
    RaceFreeHasOneWriter(passes, levels1);
    RaceFreeHasOneWriter(passes, levels2);
    RaceFreeIsPlacedAlike(passes, levels1, levels2);
    SchedulesAgree(gate, passes, levels1, levels2, c);
  }
}
