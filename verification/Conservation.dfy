/** What a level-parallel run does with emitted issues and issue ids: nothing is lost or filed
    twice, order is kept, and ids of different levels never collide. */
module Conservation {
  import opened Sequences
  import opened Wrappers
  import opened PassContexts
  import opened PassManagers
  import opened PassRunners
  import opened Schedules
  import opened RunExamples

  // ----- Emitted issues -----

  /** An emitted issue and whether the gate let it pass. */
  datatype Emission = Emission(issue: Issue, allowed: bool)

  /** The issues a program emits, in order. */
  ghost function Emissions(gate: Gate, p: Program, c: Context): seq<Emission>
    decreases p
  {
    var (rest, c') := Step(gate, p, c);
    if rest.Some? then FirstEmission(gate, p, c) + Emissions(gate, rest.value, c') else FirstEmission(gate, p, c)
  }

  function Select(emissions: seq<Emission>, allowed: bool): seq<Issue> {
    if emissions == [] then []
    else
      var last := emissions[|emissions| - 1];
      Select(emissions[..|emissions| - 1], allowed) + (if last.allowed == allowed then [last.issue] else [])
  }

  lemma {:induction false} SelectConcat(a: seq<Emission>, b: seq<Emission>, allowed: bool)
    ensures Select(a + b, allowed) == Select(a, allowed) + Select(b, allowed)
  {
    if b == [] {
      assert a + b == a;
    } else {
      SelectConcat(a, b[..|b| - 1], allowed);
      assert (a + b)[..|a + b| - 1] == a + b[..|b| - 1];
    }
  }

  /** Every emission is selected on exactly one side. */
  lemma {:induction false} SelectPartitions(emissions: seq<Emission>)
    ensures |Select(emissions, true)| + |Select(emissions, false)| == |emissions|
  {
    if emissions != [] {
      SelectPartitions(emissions[..|emissions| - 1]);
    }
  }

  /** The list of issues with the given verdict. */
  function Filed(c: Context, allowed: bool): seq<Issue> {
    if allowed then c.issues else c.suppressed
  }

  ghost function FirstEmission(gate: Gate, p: Program, c: Context): seq<Emission> {
    if p.Emit? then [Emission(p.issue, EmitOutcomeOf(gate, c.shared, p.issue).Allowed?)] else []
  }

  lemma StepFilesEmission(gate: Gate, p: Program, c: Context, allowed: bool)
    ensures Filed(Step(gate, p, c).1, allowed) == Filed(c, allowed) + Select(FirstEmission(gate, p, c), allowed)
  {
    var first := FirstEmission(gate, p, c);
    assert first != [] ==> first[..0] == [];
  }

  /** A program files each issue it emits under exactly one of the two lists, in order. */
  lemma {:induction false} ExecFilesEmissions(gate: Gate, p: Program, c: Context, allowed: bool)
    ensures Filed(Exec(gate, p, c), allowed) == Filed(c, allowed) + Select(Emissions(gate, p, c), allowed)
    decreases p
  {
    var rest, c' := Step(gate, p, c).0, Step(gate, p, c).1;
    var first := FirstEmission(gate, p, c);
    StepFilesEmission(gate, p, c, allowed);
    if rest.Some? {
      var later := Emissions(gate, rest.value, c');
      ExecFilesEmissions(gate, rest.value, c', allowed);
      assert Exec(gate, p, c) == Exec(gate, rest.value, c') && Emissions(gate, p, c) == first + later;
      SelectConcat(first, later, allowed);
      ConcatAssociates(Filed(c, allowed), Select(first, allowed), Select(later, allowed));
    } else {
      assert Exec(gate, p, c) == c' && Emissions(gate, p, c) == first;
    }
  }

  ghost function LevelEmissions(gate: Gate, passes: seq<Pass>, level: seq<nat>, c: Context): seq<Emission>
    requires InRange(passes, level)
  {
    if level == [] then []
    else
      LevelEmissions(gate, passes, level[..|level| - 1], c)
        + Emissions(gate, passes[level[|level| - 1]].body, CloneOf(c))
  }

  /** Everything emitted in a run, level by level and in level order within a level. */
  ghost function RunEmissions(gate: Gate, passes: seq<Pass>, levels: seq<seq<nat>>, c: Context): seq<Emission>
    requires AllInRange(passes, levels)
  {
    if levels == [] then []
    else
      var before := levels[..|levels| - 1];
      RunEmissions(gate, passes, before, c)
        + LevelEmissions(gate, passes, levels[|levels| - 1], RunLevels(gate, passes, before, c))
  }

  lemma MergeFiles(c: Context, other: Context, allowed: bool)
    ensures Filed(MergeInto(c, other), allowed) == Filed(c, allowed) + Filed(other, allowed)
  {
  }

  lemma {:induction false} LevelFilesEmissions(gate: Gate, passes: seq<Pass>, level: seq<nat>, c: Context, allowed: bool)
    requires InRange(passes, level)
    ensures Filed(RunLevel(gate, passes, level, c), allowed)
         == Filed(c, allowed) + Select(LevelEmissions(gate, passes, level, c), allowed)
  {
    if level != [] {
      var init, body := level[..|level| - 1], passes[level[|level| - 1]].body;
      LevelFilesEmissions(gate, passes, init, c, allowed);
      ExecFilesEmissions(gate, body, CloneOf(c), allowed);
      var earlier, later := LevelEmissions(gate, passes, init, c), Emissions(gate, body, CloneOf(c));
      assert Filed(Exec(gate, body, CloneOf(c)), allowed) == Select(later, allowed);
      SelectConcat(earlier, later, allowed);
      ConcatAssociates(Filed(c, allowed), Select(earlier, allowed), Select(later, allowed));
      MergeFiles(RunLevel(gate, passes, init, c), Exec(gate, body, CloneOf(c)), allowed);
    }
  }

  /** After a parallel run each issue list is exactly the emitted issues with that verdict, in
      level order. */
  lemma {:induction false} RunFilesEmissions(gate: Gate, passes: seq<Pass>, levels: seq<seq<nat>>, c: Context, allowed: bool)
    requires AllInRange(passes, levels)
    ensures Filed(RunLevels(gate, passes, levels, c), allowed)
         == Filed(c, allowed) + Select(RunEmissions(gate, passes, levels, c), allowed)
  {
    if levels != [] {
      var before := levels[..|levels| - 1];
      var now := RunLevels(gate, passes, before, c);
      RunFilesEmissions(gate, passes, before, c, allowed);
      LevelFilesEmissions(gate, passes, levels[|levels| - 1], now, allowed);
      var earlier, later := RunEmissions(gate, passes, before, c), LevelEmissions(gate, passes, levels[|levels| - 1], now);
      SelectConcat(earlier, later, allowed);
      ConcatAssociates(Filed(c, allowed), Select(earlier, allowed), Select(later, allowed));
    }
  }

  /** Both lists are the emitted issues with their verdict, in level order, and together they
      are all of them: no emission is lost and none is filed twice. */
  lemma EmissionsAreConserved(gate: Gate, passes: seq<Pass>, levels: seq<seq<nat>>, c: Context)
    requires AllInRange(passes, levels)
    ensures var end, emissions := RunLevels(gate, passes, levels, c), RunEmissions(gate, passes, levels, c);
      && end.issues == c.issues + Select(emissions, true)
      && end.suppressed == c.suppressed + Select(emissions, false)
      && |end.issues| + |end.suppressed| == |c.issues| + |c.suppressed| + |emissions|
  {
    RunFilesEmissions(gate, passes, levels, c, true);
    RunFilesEmissions(gate, passes, levels, c, false);
    SelectPartitions(RunEmissions(gate, passes, levels, c));
  }

  // ----- Issue ids -----

  /** The ids a program is handed. */
  ghost function HandedOut(gate: Gate, p: Program, c: Context): seq<nat>
    decreases p
  {
    var (rest, c') := Step(gate, p, c);
    (if p.NewId? then [c.nextIssueId] else [])
      + (if rest.Some? then HandedOut(gate, rest.value, c') else [])
  }

  /** Ids are handed out consecutively, starting at the context's counter. */
  lemma {:induction false} IdsAreConsecutive(gate: Gate, p: Program, c: Context)
    ensures var ids := HandedOut(gate, p, c);
      && Exec(gate, p, c).nextIssueId == c.nextIssueId + |ids|
      && forall i :: 0 <= i < |ids| ==> ids[i] == c.nextIssueId + i
    decreases p
  {
    var (rest, c') := Step(gate, p, c);
    if rest.Some? {
      IdsAreConsecutive(gate, rest.value, c');
    }
  }

  /** Two passes of the same level are handed a common id exactly when each is handed one. */
  lemma SameLevelIdsCollide(gate: Gate, p: Program, q: Program, c: Context)
    ensures (exists id :: id in HandedOut(gate, p, CloneOf(c)) && id in HandedOut(gate, q, CloneOf(c)))
      <==> HandedOut(gate, p, CloneOf(c)) != [] && HandedOut(gate, q, CloneOf(c)) != []
  {
    IdsAreConsecutive(gate, p, CloneOf(c));
    IdsAreConsecutive(gate, q, CloneOf(c));
    var ps, qs := HandedOut(gate, p, CloneOf(c)), HandedOut(gate, q, CloneOf(c));
    if ps != [] && qs != [] {
      assert ps[0] == qs[0] == c.nextIssueId;
      assert c.nextIssueId in ps && c.nextIssueId in qs;
    }
  }

  /** After a level the counter is past every id handed out in it. */
  lemma {:induction false} LevelCounterPassesIds(gate: Gate, passes: seq<Pass>, level: seq<nat>, c: Context, q: nat, id: nat)
    requires InRange(passes, level)
    ensures c.nextIssueId <= RunLevel(gate, passes, level, c).nextIssueId
    ensures q < |level| && id in HandedOut(gate, passes[level[q]].body, CloneOf(c)) ==>
      c.nextIssueId <= id < RunLevel(gate, passes, level, c).nextIssueId
  {
    if level != [] {
      LevelCounterPassesIds(gate, passes, level[..|level| - 1], c, q, id);
      IdsAreConsecutive(gate, passes[level[|level| - 1]].body, CloneOf(c));
    }
  }

  lemma {:induction false} CounterNeverFalls(gate: Gate, passes: seq<Pass>, levels: seq<seq<nat>>, c: Context, j: nat, k: nat)
    requires AllInRange(passes, levels) && j <= k <= |levels|
    ensures After(gate, passes, levels, c, j).nextIssueId <= After(gate, passes, levels, c, k).nextIssueId
    decreases k - j
  {
    if j < k {
      CounterNeverFalls(gate, passes, levels, c, j, k - 1);
      AfterStep(gate, passes, levels, c, k - 1);
      LevelCounterPassesIds(gate, passes, levels[k - 1], After(gate, passes, levels, c, k - 1), 0, 0);
    }
  }

  /** The id `id` is handed to pass `levels[k][q]` in a parallel run. */
  ghost predicate HandedIn(gate: Gate, passes: seq<Pass>, levels: seq<seq<nat>>, c: Context, k: nat, q: nat, id: nat)
    requires AllInRange(passes, levels) && k < |levels| && q < |levels[k]|
  {
    id in HandedOut(gate, passes[levels[k][q]].body, CloneOf(After(gate, passes, levels, c, k)))
  }

  /** After any later level the counter exceeds every id handed out so far, so ids handed out
      in different levels are different. */
  lemma LevelsNeverShareIds(gate: Gate, passes: seq<Pass>, levels: seq<seq<nat>>, c: Context, j: nat, p: nat, k: nat, q: nat, a: nat, b: nat)
    requires AllInRange(passes, levels) && j < k < |levels| && p < |levels[j]| && q < |levels[k]|
    requires HandedIn(gate, passes, levels, c, j, p, a) && HandedIn(gate, passes, levels, c, k, q, b)
    ensures a < After(gate, passes, levels, c, k).nextIssueId <= b
  {
    LevelCounterPassesIds(gate, passes, levels[j], After(gate, passes, levels, c, j), p, a);
    LevelCounterPassesIds(gate, passes, levels[k], After(gate, passes, levels, c, k), q, b);
    AfterStep(gate, passes, levels, c, j);
    CounterNeverFalls(gate, passes, levels, c, j + 1, k);
  }

  // ----- When ids are unique in a whole run -----

  /** The ids handed to pass `levels[k][q]` in a parallel run. */
  ghost function IdsOf(gate: Gate, passes: seq<Pass>, levels: seq<seq<nat>>, c: Context, k: nat, q: nat): seq<nat>
    requires AllInRange(passes, levels) && k < |levels| && q < |levels[k]|
  {
    HandedOut(gate, passes[levels[k][q]].body, CloneOf(After(gate, passes, levels, c, k)))
  }

  /** All ids handed out in the run, in whatever pass and at whatever moment, are different. */
  ghost predicate IdsDiffer(gate: Gate, passes: seq<Pass>, levels: seq<seq<nat>>, c: Context)
    requires AllInRange(passes, levels)
  {
    forall j, p, m, k, q, n ::
      && 0 <= j < |levels| && 0 <= p < |levels[j]| && 0 <= m < |IdsOf(gate, passes, levels, c, j, p)|
      && 0 <= k < |levels| && 0 <= q < |levels[k]| && 0 <= n < |IdsOf(gate, passes, levels, c, k, q)|
      && IdsOf(gate, passes, levels, c, j, p)[m] == IdsOf(gate, passes, levels, c, k, q)[n]
      ==> j == k && p == q && m == n
  }

  /** In each level at most one pass is handed an id. */
  ghost predicate OneTakerPerLevel(gate: Gate, passes: seq<Pass>, levels: seq<seq<nat>>, c: Context)
    requires AllInRange(passes, levels)
  {
    forall k, p, q ::
      && 0 <= k < |levels| && 0 <= p < |levels[k]| && 0 <= q < |levels[k]|
      && IdsOf(gate, passes, levels, c, k, p) != [] && IdsOf(gate, passes, levels, c, k, q) != []
      ==> p == q
  }

  lemma SameLevelFirstIds(gate: Gate, passes: seq<Pass>, levels: seq<seq<nat>>, c: Context, k: nat, q: nat)
    requires AllInRange(passes, levels) && k < |levels| && q < |levels[k]|
    ensures forall n :: 0 <= n < |IdsOf(gate, passes, levels, c, k, q)| ==>
      && IdsOf(gate, passes, levels, c, k, q)[n] == After(gate, passes, levels, c, k).nextIssueId + n
      && HandedIn(gate, passes, levels, c, k, q, IdsOf(gate, passes, levels, c, k, q)[n])
  {
    IdsAreConsecutive(gate, passes[levels[k][q]].body, CloneOf(After(gate, passes, levels, c, k)));
  }

  lemma EqualIdsAreInOneLevel(gate: Gate, passes: seq<Pass>, levels: seq<seq<nat>>, c: Context, j: nat, p: nat, m: nat, k: nat, q: nat, n: nat)
    requires AllInRange(passes, levels) && j < |levels| && p < |levels[j]| && k < |levels| && q < |levels[k]|
    requires m < |IdsOf(gate, passes, levels, c, j, p)| && n < |IdsOf(gate, passes, levels, c, k, q)|
    requires IdsOf(gate, passes, levels, c, j, p)[m] == IdsOf(gate, passes, levels, c, k, q)[n]
    ensures j == k && m == n
  {
    SameLevelFirstIds(gate, passes, levels, c, j, p);
    SameLevelFirstIds(gate, passes, levels, c, k, q);
    var id := IdsOf(gate, passes, levels, c, j, p)[m];
    if j < k {
      LevelsNeverShareIds(gate, passes, levels, c, j, p, k, q, id, id);
    } else if k < j {
      LevelsNeverShareIds(gate, passes, levels, c, k, q, j, p, id, id);
    }
  }

  /** The ids of a parallel run are pairwise different exactly when each level has at most one
      pass that takes one. */
  lemma IdsDifferIffOneTakerPerLevel(gate: Gate, passes: seq<Pass>, levels: seq<seq<nat>>, c: Context)
    requires AllInRange(passes, levels)
    ensures IdsDiffer(gate, passes, levels, c) <==> OneTakerPerLevel(gate, passes, levels, c)
  {
    if OneTakerPerLevel(gate, passes, levels, c) {
      forall j, p, m, k, q, n
        | && 0 <= j < |levels| && 0 <= p < |levels[j]| && 0 <= m < |IdsOf(gate, passes, levels, c, j, p)|
          && 0 <= k < |levels| && 0 <= q < |levels[k]| && 0 <= n < |IdsOf(gate, passes, levels, c, k, q)|
          && IdsOf(gate, passes, levels, c, j, p)[m] == IdsOf(gate, passes, levels, c, k, q)[n]
        ensures j == k && p == q && m == n
      {
        EqualIdsAreInOneLevel(gate, passes, levels, c, j, p, m, k, q, n);
      }
    }
    if IdsDiffer(gate, passes, levels, c) {
      forall k, p, q | 0 <= k < |levels| && 0 <= p < |levels[k]| && 0 <= q < |levels[k]|
        && IdsOf(gate, passes, levels, c, k, p) != [] && IdsOf(gate, passes, levels, c, k, q) != []
        ensures p == q
      {
        SameLevelFirstIds(gate, passes, levels, c, k, p);
        SameLevelFirstIds(gate, passes, levels, c, k, q);
        assert IdsOf(gate, passes, levels, c, k, p)[0] == IdsOf(gate, passes, levels, c, k, q)[0];
      }
    }
  }

  /** Two independent passes that each report one issue. */
  ghost function TwoReporters(kind: string): seq<Pass> {
    [Pass("first", [], ReportOne(kind)), Pass("second", [], ReportOne(kind))]
  }

  /** Whatever the gate decides, one issue is filed, under the context's next id. */
  lemma ReportFilesOne(gate: Gate, kind: string, c: Context)
    ensures var report, end := Issue(c.nextIssueId, kind, "", None, ""), Exec(gate, ReportOne(kind), CloneOf(c));
      (end.issues == [report] && end.suppressed == []) || (end.issues == [] && end.suppressed == [report])
  {
    var clone, issue := CloneOf(c), Issue(c.nextIssueId, kind, "", None, "");
    var counted := clone.(nextIssueId := c.nextIssueId + 1);
    assert Step(gate, ReportOne(kind), clone) == (Some(RecordAndEmit(kind, c.nextIssueId)), counted);
    var recorded := counted.(facts := counted.facts + [Fact(c.nextIssueId, FFIBoundary, "ffi_analysis")]);
    var emitting := RecordAndEmit(kind, c.nextIssueId).next;
    assert Step(gate, RecordAndEmit(kind, c.nextIssueId), counted) == (Some(emitting), recorded);
    var filed := EmitInto(recorded, issue, EmitOutcomeOf(gate, recorded.shared, issue));
    assert Step(gate, emitting, recorded) == (None, filed);
    assert Exec(gate, RecordAndEmit(kind, c.nextIssueId), counted) == Exec(gate, emitting, recorded) == filed;
  }

  /** A run whose two reported issues carry the same id: both passes are in the only level. */
  lemma TwoReportersCollide(gate: Gate, kind: string)
    ensures var passes, c := TwoReporters(kind), Context(map[], [], [], [], [], 1);
      && AreLevels(passes, [[0, 1]]) && AllInRange(passes, [[0, 1]])
      && var end := RunLevels(gate, passes, [[0, 1]], c);
         var filed := end.issues + end.suppressed;
         |filed| == 2 && filed[0].id == filed[1].id == 1
  {
    var passes, c := TwoReporters(kind), Context(map[], [], [], [], [], 1);
    IndependentPairSharesALevel(passes[0], passes[1]);
    OneLevelRuns(gate, passes, 0, 1, c);
    ReportFilesOne(gate, kind, c);
  }
}
