/** Where two schedules place the same writers before a point, the shared store is the same there,
    and so are the findings of every pass. */
module Confluence {
  import opened PassContexts
  import opened PassManagers
  import opened PassRunners
  import opened Schedules
  import opened Totals

  // ----- Two schedules -----

  lemma WriterIsPlaced(passes: seq<Pass>, levels: seq<seq<nat>>, k: nat, key: string)
    requires AllInRange(passes, levels) && k <= |levels|
    ensures WrittenBefore(passes, levels, k, key)
            <==> exists j: nat :: j < |passes| && Writes(passes, j, key) && PlacedBefore(levels, k, j)
  {
    if WrittenBefore(passes, levels, k, key) {
      var l, p :| 0 <= l < k && 0 <= p < |levels[l]| && Writes(passes, levels[l][p], key);
      assert levels[l][p] in levels[l];
      assert PlacedBefore(levels, k, levels[l][p]);
    }
    if j: nat :| j < |passes| && Writes(passes, j, key) && PlacedBefore(levels, k, j) {
      var l :| 0 <= l < k && l < |levels| && j in levels[l];
      MemberWrites(passes, levels[l], j, key);
    }
  }

  lemma MemberWrites(passes: seq<Pass>, level: seq<nat>, i: nat, key: string)
    requires InRange(passes, level) && i in level && i < |passes| && Writes(passes, i, key)
    ensures WrittenIn(passes, level, key)
  {
    var p :| 0 <= p < |level| && level[p] == i;
  }

  /** Every other writer placed before the point is placed before the last one. */
  lemma OthersAreEarlier(passes: seq<Pass>, levels: seq<seq<nat>>, k: nat, key: string, l: nat, j: nat, other: nat)
    requires IsSchedule(passes, levels) && OneWriterPerLevel(passes, levels)
    requires k <= |levels| && IsLastWriter(passes, levels, k, key, l, j)
    requires other < |passes| && other != j && Writes(passes, other, key) && PlacedBefore(levels, k, other)
    ensures PlacedBefore(levels, l, other)
  {
    var m: nat :| m < k && m < |levels| && other in levels[m];
    MemberWrites(passes, levels[m], other, key);
    if m == l {
      SameLevelWriters(passes, levels, l, j, other, key);
    }
  }

  lemma SameLevelWriters(passes: seq<Pass>, levels: seq<seq<nat>>, k: nat, i: nat, j: nat, key: string)
    requires AllInRange(passes, levels) && OneWriterPerLevel(passes, levels) && k < |levels| && i in levels[k] && j in levels[k]
    requires i < |passes| && Writes(passes, i, key) && j < |passes| && Writes(passes, j, key)
    ensures i == j
  {
    var p :| 0 <= p < |levels[k]| && levels[k][p] == i;
    var q :| 0 <= q < |levels[k]| && levels[k][q] == j;
    assert Writes(passes, levels[k][p], key) && Writes(passes, levels[k][q], key);
  }

  /** With the same writers before them, two points have the same last writer. */
  lemma SameLastWriter(
      passes: seq<Pass>, levels1: seq<seq<nat>>, k1: nat, levels2: seq<seq<nat>>, k2: nat, key: string,
      l1: nat, j1: nat, l2: nat, j2: nat)
    requires IsSchedule(passes, levels1) && IsSchedule(passes, levels2) && PlacedAlike(passes, levels1, levels2)
    requires OneWriterPerLevel(passes, levels1) && OneWriterPerLevel(passes, levels2)
    requires k1 <= |levels1| && k2 <= |levels2| && SameWritersBefore(passes, levels1, k1, levels2, k2, key)
    requires IsLastWriter(passes, levels1, k1, key, l1, j1) && IsLastWriter(passes, levels2, k2, key, l2, j2)
    ensures j1 == j2
  {
    assert PlacedBefore(levels1, k1, j1) && PlacedBefore(levels2, k2, j2);
    if j1 != j2 {
      OthersAreEarlier(passes, levels1, k1, key, l1, j1, j2);
      OthersAreEarlier(passes, levels2, k2, key, l2, j2, j1);
      assert Accesses(passes, j1, key);
    }
  }

  /** Contexts without findings show nothing, whatever a program looks at. */
  lemma EmptyContextsAgree(p: Program, c: Context, d: Context)
    requires c.diagnostics == d.diagnostics == [] && c.facts == d.facts == []
    requires c.issues == d.issues == [] && c.suppressed == d.suppressed == []
    ensures AgreeOnFindings(p, c, d)
  {
  }

  /** Clones that agree on what a pass accesses end alike. */
  lemma ClonesRunAlike(gate: Gate, passes: seq<Pass>, i: nat, c: Context, d: Context, x: Finding, key: string)
    requires i < |passes| && GateIgnoresIds(gate) && Alike(passes[i].body, passes[i].body)
    requires forall r :: Accesses(passes, i, r) ==> Lookup(c.shared, r) == Lookup(d.shared, r)
    ensures var run1, run2 := Exec(gate, passes[i].body, CloneOf(c)), Exec(gate, passes[i].body, CloneOf(d));
      && Count(run1, x) == Count(run2, x)
      && (Accesses(passes, i, key) ==> Lookup(run1.shared, key) == Lookup(run2.shared, key))
  {
    var body := passes[i].body;
    assert AgreeOn(body, c.shared, d.shared) by {
      forall r | !NeverReads(body, r) ensures Lookup(c.shared, r) == Lookup(d.shared, r) {
        assert Accesses(passes, i, r);
      }
    }
    EmptyContextsAgree(body, CloneOf(c), CloneOf(d));
    EqualViewsEqualFindings(gate, body, body, CloneOf(c), CloneOf(d), x);
    EqualViewsEqualWrites(gate, body, body, CloneOf(c), CloneOf(d), key);
  }

  /** Where the same writers come before, two schedules hold the same value, by induction along
      the levels of the first: the last writer has seen the same values in both. */
  lemma {:induction false} ValuesAgree(
      gate: Gate, passes: seq<Pass>, levels1: seq<seq<nat>>, k1: nat, levels2: seq<seq<nat>>, k2: nat, c: Context, key: string)
    requires IsSchedule(passes, levels1) && IsSchedule(passes, levels2) && PlacedAlike(passes, levels1, levels2)
    requires NonInterfering(gate, passes, levels1, c.shared) && NonInterfering(gate, passes, levels2, c.shared)
    requires k1 <= |levels1| && k2 <= |levels2| && SameWritersBefore(passes, levels1, k1, levels2, k2, key)
    ensures Lookup(After(gate, passes, levels1, c, k1).shared, key) == Lookup(After(gate, passes, levels2, c, k2).shared, key)
    decreases k1
  {
    WriterIsPlaced(passes, levels1, k1, key);
    WriterIsPlaced(passes, levels2, k2, key);
    if WrittenBefore(passes, levels1, k1, key) {
      var l1, j1 := LastWriterDecides(gate, passes, levels1, c, k1, key);
      var l2, j2 := LastWriterDecides(gate, passes, levels2, c, k2, key);
      SameLastWriter(passes, levels1, k1, levels2, k2, key, l1, j1, l2, j2);
      forall r | Accesses(passes, j1, r)
        ensures Lookup(After(gate, passes, levels1, c, l1).shared, r) == Lookup(After(gate, passes, levels2, c, l2).shared, r)
      {
        assert SameWritersBefore(passes, levels1, l1, levels2, l2, r);
        ValuesAgree(gate, passes, levels1, l1, levels2, l2, c, r);
      }
      ClonesRunAlike(gate, passes, j1, After(gate, passes, levels1, c, l1), After(gate, passes, levels2, c, l2), Diagnosed(NOTED), key);
    } else {
      UnwrittenBefore(gate, passes, levels1, c, k1, key);
      UnwrittenBefore(gate, passes, levels2, c, k2, key);
    }
  }

  /** A pass that accesses a key sees the same value in all schedules. */
  lemma PassSeesTheSame(
      gate: Gate, passes: seq<Pass>, levels1: seq<seq<nat>>, k1: nat, levels2: seq<seq<nat>>, k2: nat, c: Context, i: nat, key: string)
    requires IsSchedule(passes, levels1) && IsSchedule(passes, levels2) && PlacedAlike(passes, levels1, levels2)
    requires NonInterfering(gate, passes, levels1, c.shared) && NonInterfering(gate, passes, levels2, c.shared)
    requires k1 < |levels1| && i in levels1[k1] && k2 < |levels2| && i in levels2[k2]
    requires i < |passes| && Accesses(passes, i, key)
    ensures Lookup(After(gate, passes, levels1, c, k1).shared, key) == Lookup(After(gate, passes, levels2, c, k2).shared, key)
  {
    assert SameWritersBefore(passes, levels1, k1, levels2, k2, key);
    ValuesAgree(gate, passes, levels1, k1, levels2, k2, c, key);
  }

  lemma SameLookups(f: map<string, Any>, g: map<string, Any>)
    requires forall key :: Lookup(f, key) == Lookup(g, key)
    ensures f == g
  {
    forall key | key in f ensures key in g && f[key] == g[key] {
      assert Lookup(f, key) == Lookup(g, key);
    }
    forall key | key in g ensures key in f {
      assert Lookup(f, key) == Lookup(g, key);
    }
  }

  lemma SchedulesEndInOneStore(gate: Gate, passes: seq<Pass>, levels1: seq<seq<nat>>, levels2: seq<seq<nat>>, c: Context)
    requires IsSchedule(passes, levels1) && IsSchedule(passes, levels2) && PlacedAlike(passes, levels1, levels2)
    requires NonInterfering(gate, passes, levels1, c.shared) && NonInterfering(gate, passes, levels2, c.shared)
    ensures RunLevels(gate, passes, levels1, c).shared == RunLevels(gate, passes, levels2, c).shared
  {
    var f, g := RunLevels(gate, passes, levels1, c).shared, RunLevels(gate, passes, levels2, c).shared;
    assert levels1[..|levels1|] == levels1 && levels2[..|levels2|] == levels2;
    forall key ensures Lookup(f, key) == Lookup(g, key) {
      forall j: nat | j < |passes| ensures PlacedBefore(levels1, |levels1|, j) && PlacedBefore(levels2, |levels2|, j) {
        assert Placed(levels1, j) && Placed(levels2, j);
      }
      ValuesAgree(gate, passes, levels1, |levels1|, levels2, |levels2|, c, key);
    }
    SameLookups(f, g);
  }

  // ----- Findings -----

  /** `f` counts for every pass how often its run in the schedule makes finding `x`. */
  ghost predicate CountsRuns(gate: Gate, passes: seq<Pass>, levels: seq<seq<nat>>, c: Context, x: Finding, f: nat -> nat)
    requires AllInRange(passes, levels)
  {
    forall k: nat, i: nat :: k < |levels| && i < |passes| && i in levels[k] ==>
      f(i) == Count(RunAt(gate, passes, levels, c, k, i), x)
  }

  lemma {:induction false} LevelFindings(
      gate: Gate, passes: seq<Pass>, levels: seq<seq<nat>>, c: Context, k: nat, q: nat, x: Finding, f: nat -> nat)
    requires AllInRange(passes, levels) && CountsRuns(gate, passes, levels, c, x, f)
    requires k < |levels| && q <= |levels[k]|
    ensures var now := After(gate, passes, levels, c, k);
      Count(RunLevel(gate, passes, levels[k][..q], now), x) == Count(now, x) + TotalOf(f, levels[k][..q])
  {
    if q > 0 {
      var now := After(gate, passes, levels, c, k);
      LevelFindings(gate, passes, levels, c, k, q - 1, x, f);
      assert levels[k][..q][..q - 1] == levels[k][..q - 1];
      var i := levels[k][q - 1];
      assert i in levels[k];
      assert f(i) == Count(RunAt(gate, passes, levels, c, k, i), x);
      MergeAddsFindings(RunLevel(gate, passes, levels[k][..q - 1], now), Exec(gate, passes[i].body, CloneOf(now)), x);
    }
  }

  lemma {:induction false} FindingsAfter(
      gate: Gate, passes: seq<Pass>, levels: seq<seq<nat>>, c: Context, k: nat, x: Finding, f: nat -> nat)
    requires AllInRange(passes, levels) && CountsRuns(gate, passes, levels, c, x, f) && k <= |levels|
    ensures Count(After(gate, passes, levels, c, k), x) == Count(c, x) + TotalOf(f, Flatten(levels[..k]))
  {
    if k > 0 {
      FindingsAfter(gate, passes, levels, c, k - 1, x, f);
      AfterStep(gate, passes, levels, c, k - 1);
      LevelFindings(gate, passes, levels, c, k - 1, |levels[k - 1]|, x, f);
      assert levels[k - 1][..|levels[k - 1]|] == levels[k - 1];
      assert levels[..k][..k - 1] == levels[..k - 1];
      TotalOfConcat(f, Flatten(levels[..k - 1]), levels[k - 1]);
    }
  }

  /** The findings of a schedule are those of its passes, whatever their order. */
  lemma ScheduleFindings(gate: Gate, passes: seq<Pass>, levels: seq<seq<nat>>, c: Context, x: Finding, f: nat -> nat)
    requires IsSchedule(passes, levels) && CountsRuns(gate, passes, levels, c, x, f)
    ensures Count(RunLevels(gate, passes, levels, c), x) == Count(c, x) + TotalBelow(f, |passes|)
  {
    FindingsAfter(gate, passes, levels, c, |levels|, x, f);
    assert levels[..|levels|] == levels;
    FlattenDistinct(levels);
    forall i: nat ensures i in Flatten(levels) <==> i < |passes| {
      FlattenMembers(levels, i);
      if i < |passes| {
        assert Placed(levels, i);
      }
    }
    TotalOfPermutation(f, Flatten(levels), |passes|);
  }

  /** The level of a pass; level 0 for a pass that is not placed. */
  ghost function LevelOf(levels: seq<seq<nat>>, i: nat): nat {
    if Placed(levels, i) then
      var k :| 0 <= k < |levels| && i in levels[k];
      k
    else 0
  }

  ghost function CountIn(gate: Gate, passes: seq<Pass>, levels: seq<seq<nat>>, c: Context, x: Finding, i: nat): nat
    requires AllInRange(passes, levels)
  {
    if i < |passes| then Count(RunAt(gate, passes, levels, c, LevelOf(levels, i), i), x) else 0
  }

  lemma CountInCounts(gate: Gate, passes: seq<Pass>, levels: seq<seq<nat>>, c: Context, x: Finding, f: nat -> nat)
    requires IsSchedule(passes, levels) && forall i :: f(i) == CountIn(gate, passes, levels, c, x, i)
    ensures CountsRuns(gate, passes, levels, c, x, f)
  {
    forall k: nat, i: nat | k < |levels| && i < |passes| && i in levels[k]
      ensures f(i) == Count(RunAt(gate, passes, levels, c, k, i), x)
    {
      assert Placed(levels, i) && LevelOf(levels, i) == k;
    }
  }

  /** In all schedules a pass makes the same findings. */
  lemma PassFindsTheSame(
      gate: Gate, passes: seq<Pass>, levels1: seq<seq<nat>>, levels2: seq<seq<nat>>, c: Context, x: Finding, i: nat)
    requires IsSchedule(passes, levels1) && IsSchedule(passes, levels2) && PlacedAlike(passes, levels1, levels2) && i < |passes|
    requires NonInterfering(gate, passes, levels1, c.shared) && NonInterfering(gate, passes, levels2, c.shared)
    ensures CountIn(gate, passes, levels1, c, x, i) == CountIn(gate, passes, levels2, c, x, i)
  {
    assert Placed(levels1, i) && Placed(levels2, i);
    var k1, k2 := LevelOf(levels1, i), LevelOf(levels2, i);
    forall r | Accesses(passes, i, r)
      ensures Lookup(After(gate, passes, levels1, c, k1).shared, r) == Lookup(After(gate, passes, levels2, c, k2).shared, r)
    {
      PassSeesTheSame(gate, passes, levels1, k1, levels2, k2, c, i, r);
    }
    ClonesRunAlike(gate, passes, i, After(gate, passes, levels1, c, k1), After(gate, passes, levels2, c, k2), x, "");
  }

  lemma SchedulesFindTheSame(
      gate: Gate, passes: seq<Pass>, levels1: seq<seq<nat>>, levels2: seq<seq<nat>>, c: Context, x: Finding)
    requires IsSchedule(passes, levels1) && IsSchedule(passes, levels2) && PlacedAlike(passes, levels1, levels2)
    requires NonInterfering(gate, passes, levels1, c.shared) && NonInterfering(gate, passes, levels2, c.shared)
    ensures Count(RunLevels(gate, passes, levels1, c), x) == Count(RunLevels(gate, passes, levels2, c), x)
  {
    var f: nat -> nat := i => CountIn(gate, passes, levels1, c, x, i);
    var g: nat -> nat := i => CountIn(gate, passes, levels2, c, x, i);
    CountInCounts(gate, passes, levels1, c, x, f);
    CountInCounts(gate, passes, levels2, c, x, g);
    ScheduleFindings(gate, passes, levels1, c, x, f);
    ScheduleFindings(gate, passes, levels2, c, x, g);
    forall i: nat | i < |passes| ensures f(i) == g(i) {
      PassFindsTheSame(gate, passes, levels1, levels2, c, x, i);
    }
    SameTotals(f, g, |passes|);
  }
}
