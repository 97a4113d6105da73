/** Passes that meet the hypotheses of the agreement theorem, runs on which the two modes differ
    because one of the hypotheses fails, and a family of passes for which agreement holds exactly
    when both schedules place the writer of a key alike around its reader. */
module RunExamples {
  import opened Sequences
  import opened Wrappers
  import opened DependencyGraphs
  import opened PassContexts
  import opened PassManagers
  import opened PassRunners
  import opened Confluence
  import opened Schedules
  import opened Agreement
  import opened Totals

  // ----- Passes that meet the hypotheses -----

  ghost function RecordAndEmit(kind: string, id: nat): Program {
    AddFact(Fact(id, FFIBoundary, "ffi_analysis"), Emit(Issue(id, kind, "", None, ""), imap[]))
  }

  /** Takes an id, records it in a fact and emits an issue under it. */
  ghost function ReportOne(kind: string): Program {
    NewId(imap id: nat | true :: RecordAndEmit(kind, id))
  }

  lemma ReportIsAlike(kind: string)
    ensures Alike(ReportOne(kind), ReportOne(kind))
  {
    forall i: nat, j: nat ensures Alike(RecordAndEmit(kind, i), RecordAndEmit(kind, j)) {
    }
  }

  /** The facts an earlier pass may have left about allocations. */
  const LEGACY: set<Part> := {Facts(AllocSite), Facts(DeallocSite)}

  /** One raw fact per legacy fact: an acquire or a release. */
  function RawFacts(facts: seq<Fact>): string {
    seq(|facts|, i requires 0 <= i < |facts| => if facts[i].kind.AllocSite? then 'A' else 'D')
  }

  function Collected(collected: string, seen: Seen): Any {
    Any("Vec<RawResourceFact>", collected + RawFacts(seen.facts))
  }

  /** Adds to what it has collected from the code one raw fact for each legacy fact of the
      context, and stores the result. */
  ghost function Collector(key: string, collected: string): Program {
    ReadBack(LEGACY, imap seen: Seen | true :: Store(key, Collected(collected, seen), Done))
  }

  function Refined(value: Any): Any {
    value.(content := value.content + "R")
  }

  ghost function RefineAndReport(key: string, kind: string, found: Option<Any>): Program {
    if found.Some? then Store(key, Refined(found.value), ReportOne(kind)) else Done
  }

  /** Reads what was collected, overwrites it with a refined version and reports an issue. */
  ghost function Reporter(key: string, kind: string): Program {
    Read(key, imap found: Option<Any> | true :: RefineAndReport(key, kind, found))
  }

  /** A pass that collects and stores raw facts, and one that depends on it and refines them: both
      write the same key. */
  ghost function Pipeline(key: string, collected: string, kind: string): seq<Pass> {
    [Pass("collector", [], Collector(key, collected)), Pass("reporter", ["collector"], Reporter(key, kind))]
  }

  lemma ReporterIsAlike(key: string, kind: string)
    ensures Alike(Reporter(key, kind), Reporter(key, kind))
  {
    forall found ensures Alike(RefineAndReport(key, kind, found), RefineAndReport(key, kind, found)) {
      ReportIsAlike(kind);
    }
  }

  lemma ReporterNeverReadsBack(key: string, kind: string, part: Part)
    ensures NeverReadsBack(Reporter(key, kind), part)
  {
    assert forall id: nat :: NeverReadsBack(RecordAndEmit(kind, id), part);
    assert NeverReadsBack(ReportOne(kind), part);
    assert forall found :: NeverReadsBack(RefineAndReport(key, kind, found), part);
  }

  /** Ids are not collected. */
  lemma RawFactsIgnoreIds(collected: string, a: Seen, b: Seen)
    requires SameSeen(a, b)
    ensures Collected(collected, a) == Collected(collected, b)
  {
    forall i | 0 <= i < |a.facts| ensures a.facts[i].kind == b.facts[i].kind {
      assert AsRecorded(a.facts[i]) == AsRecorded(b.facts[i]);
    }
    assert RawFacts(a.facts) == RawFacts(b.facts);
  }

  lemma CollectorIsAlike(key: string, collected: string)
    ensures Alike(Collector(key, collected), Collector(key, collected))
  {
    forall a, b | SameSeen(a, b) ensures Alike(Store(key, Collected(collected, a), Done), Store(key, Collected(collected, b), Done)) {
      RawFactsIgnoreIds(collected, a, b);
      assert Alike(Done, Done);
    }
  }

  lemma CollectorLooksAtLegacyFacts(key: string, collected: string, part: Part)
    ensures NeverReadsBack(Collector(key, collected), part) <==> part !in LEGACY
  {
    var collector := Collector(key, collected);
    assert NeverReadsBack(Done, part);
    assert forall seen :: NeverReadsBack(collector.whenSeen[seen], part);
  }

  /** A pass and one that depends on it take two levels, in every mode. */
  lemma DependentPairTakesTwoLevels(first: Pass, second: Pass)
    requires first.name != second.name && first.dependencies == [] && second.dependencies == [first.name]
    ensures var passes := [first, second];
      && UniqueNames(passes) && !HasCycle(GraphOf(passes)) && AllRegistered(GraphOf(passes))
      && IsExecutionOrder(passes, [0, 1]) && AreLevels(passes, [[0], [1]])
      && Reaches(GraphOf(passes), second.name, first.name)
  {
    var passes := [first, second];
    var g := GraphOf(passes);
    GraphOfLastNamed(passes, 0);
    GraphOfLastNamed(passes, 1);
    forall name ensures name in g <==> name == first.name || name == second.name {
      GraphOfNames(passes, name);
      assert passes[0].name == first.name && passes[1].name == second.name;
    }
    assert DependsOn(g, second.name, first.name) by { assert first.name in passes[1].dependencies; }
    assert IsWalk(g, [second.name, first.name]);
    PairIsOrdered(first, second, g);
    PairIsLevelled(first, second);
    PairExecutes(first, second);
  }

  lemma PairIsOrdered(first: Pass, second: Pass, g: DepGraph)
    requires first.name != second.name && first.dependencies == [] && second.dependencies == [first.name]
    requires g == map[first.name := ToSet(first.dependencies), second.name := ToSet(second.dependencies)]
    ensures !HasCycle(g) && AllRegistered(g)
  {
    var order := [first.name, second.name];
    assert order[..1] == [first.name] && order[..0] == [];
    assert Topological(g, order);
    assert first.name in order && second.name in order;
    TopologicalHasNoCycle(g, order);
  }

  lemma PairExecutes(first: Pass, second: Pass)
    requires first.name != second.name && first.dependencies == [] && second.dependencies == [first.name]
    ensures IsExecutionOrder([first, second], [0, 1])
  {
    var passes, order: seq<nat> := [first, second], [0, 1];
    assert order[..1] == [0] && order[..0] == [];
    forall i, j | 0 <= i < 2 && DependsOnPass(passes, order[i], j) ensures j in order[..i] {
      assert i == 1 && passes[j].name == first.name;
    }
  }

  lemma PairIsLevelled(first: Pass, second: Pass)
    requires first.name != second.name && first.dependencies == [] && second.dependencies == [first.name]
    ensures AreLevels([first, second], [[0], [1]])
  {
    var passes := [first, second];
    assert first.name in ToSet(second.dependencies);
    assert ReadyBelow(passes, {}, 1) == [0];
    assert Level(passes, 0) == [0];
    var one := CompletedAfter(passes, 1);
    assert ReadyNamesBelow(passes, {}, 1) == {first.name};
    assert one == {first.name};
    assert ReadyBelow(passes, one, 1) == [];
    assert Level(passes, 1) == [1];
    var two := CompletedAfter(passes, 2);
    assert ReadyNamesBelow(passes, one, 1) == {};
    assert second.name in two && first.name in two;
    assert ReadyBelow(passes, two, 1) == [];
    assert Level(passes, 2) == [];
  }

  /** Two passes of which the second depends on the first cannot race. */
  lemma DependentPairIsPlacedAlike(passes: seq<Pass>, order: seq<nat>, levels: seq<seq<nat>>)
    requires |passes| == 2 && UniqueNames(passes) && Reaches(GraphOf(passes), passes[1].name, passes[0].name)
    requires !HasCycle(GraphOf(passes)) && AllRegistered(GraphOf(passes))
    requires IsExecutionOrder(passes, order) && AreLevels(passes, levels)
    ensures RaceFree(passes) && PlacedAlike(passes, Singletons(order), levels)
  {
    assert Ordered(passes, 0, 1) && Ordered(passes, 1, 0);
    OrderIsSchedule(passes, order);
    LevelsAreSchedule(passes, levels);
    RaceFreeIsPlacedAlike(passes, Singletons(order), levels);
  }

  /** All hypotheses of the agreement theorem are met by a collector of raw facts and a reporter
      that depends on it, in every context without legacy facts. */
  lemma PipelineMeetsHypotheses(gate: Gate, key: string, collected: string, kind: string, c: Context)
    requires GateIgnoresIds(gate) && Lacks(c, Facts(AllocSite)) && Lacks(c, Facts(DeallocSite))
    ensures var passes := Pipeline(key, collected, kind);
      && UniqueNames(passes) && NonInterfering(gate, passes, [[0], [1]], c.shared)
      && !HasCycle(GraphOf(passes)) && AllRegistered(GraphOf(passes))
      && IsExecutionOrder(passes, [0, 1]) && AreLevels(passes, [[0], [1]])
      && PlacedAlike(passes, Singletons([0, 1]), [[0], [1]])
      && InRange(passes, [0, 1]) && LooksAtNothing(passes, [0, 1], c)
  {
    var passes := Pipeline(key, collected, kind);
    DependentPairTakesTwoLevels(passes[0], passes[1]);
    DependentPairIsPlacedAlike(passes, [0, 1], [[0], [1]]);
    PipelineDoesNotInterfere(gate, key, collected, kind, c.shared);
    PipelineLooksAtNothing(key, collected, kind, c);
  }

  lemma PipelineDoesNotInterfere(gate: Gate, key: string, collected: string, kind: string, base: map<string, Any>)
    requires GateIgnoresIds(gate)
    ensures NonInterfering(gate, Pipeline(key, collected, kind), [[0], [1]], base)
  {
    var passes := Pipeline(key, collected, kind);
    ReporterIsAlike(key, kind);
    CollectorIsAlike(key, collected);
    OnePassLevels(passes, [[0], [1]], base);
  }

  lemma PipelineLooksAtNothing(key: string, collected: string, kind: string, c: Context)
    requires Lacks(c, Facts(AllocSite)) && Lacks(c, Facts(DeallocSite))
    ensures InRange(Pipeline(key, collected, kind), [0, 1]) && LooksAtNothing(Pipeline(key, collected, kind), [0, 1], c)
  {
    var passes, order: seq<nat> := Pipeline(key, collected, kind), [0, 1];
    forall part ensures NeverReadsBack(passes[0].body, part) <==> part !in LEGACY {
      CollectorLooksAtLegacyFacts(key, collected, part);
    }
    assert LooksAtNothingOf(passes, order[0], order[..0], c);
    forall part ensures NeverReadsBack(passes[1].body, part) {
      ReporterNeverReadsBack(key, kind, part);
    }
    assert LooksAtNothingOf(passes, order[1], order[..1], c);
  }

  // ----- Why a pass must not look at findings of earlier ones -----

  /** A pass that records an allocation, and the collector, which depends on it. */
  ghost function AllocationThenCollector(key: string): seq<Pass> {
    [Pass("allocations", [], AddFact(Fact(0, AllocSite, ""), Done)), Pass("collector", ["allocations"], Collector(key, ""))]
  }

  lemma CollectorRuns(gate: Gate, key: string, collected: string, c: Context)
    ensures Exec(gate, Collector(key, collected), c).shared
         == c.shared[key := Any("Vec<RawResourceFact>", collected + RawFacts(FactsIn(c.facts, LEGACY)))]
  {
    var seen := View(c, LEGACY);
    var storing := Program.Store(key, Collected(collected, seen), Done);
    var stored := c.(shared := c.shared[key := Collected(collected, seen)]);
    assert Step(gate, Collector(key, collected), c) == (Some(storing), c);
    assert Step(gate, storing, c) == (Some(Done), stored);
    assert Exec(gate, Done, stored) == stored;
  }

  lemma AllocationRuns(gate: Gate, c: Context)
    ensures Exec(gate, AddFact(Fact(0, AllocSite, ""), Done), c) == c.(facts := c.facts + [Fact(0, AllocSite, "")])
  {
    var p, added := AddFact(Fact(0, AllocSite, ""), Done), c.(facts := c.facts + [Fact(0, AllocSite, "")]);
    assert Step(gate, p, c) == (Some(Done), added);
    assert Exec(gate, Done, added) == added;
  }

  lemma TwoLevelsRun(gate: Gate, passes: seq<Pass>, c: Context)
    requires |passes| == 2
    ensures InRange(passes, [0, 1]) && AllInRange(passes, [[0], [1]])
    ensures RunInOrder(gate, passes, [0, 1], c) == Exec(gate, passes[1].body, Exec(gate, passes[0].body, c))
    ensures var first := MergeInto(c, Exec(gate, passes[0].body, CloneOf(c)));
      RunLevels(gate, passes, [[0], [1]], c) == MergeInto(first, Exec(gate, passes[1].body, CloneOf(first)))
  {
    var both: seq<nat>, zero: seq<nat>, one: seq<nat>, none: seq<nat> := [0, 1], [0], [1], [];
    assert both[..1] == zero && zero[..0] == none && one[..0] == none;
    assert RunInOrder(gate, passes, zero, c) == Exec(gate, passes[0].body, RunInOrder(gate, passes, none, c));
    var levels: seq<seq<nat>> := [zero, one];
    assert levels[..1] == [zero] && [zero][..0] == [];
    assert RunLevel(gate, passes, zero, c) == MergeInto(RunLevel(gate, passes, none, c), Exec(gate, passes[0].body, CloneOf(c)));
    var first := RunLevels(gate, passes, [zero], c);
    assert first == RunLevel(gate, passes, zero, RunLevels(gate, passes, [], c));
    assert RunLevel(gate, passes, one, first) == MergeInto(RunLevel(gate, passes, none, first), Exec(gate, passes[1].body, CloneOf(first)));
  }

  lemma OneLegacyFact()
    ensures "" + RawFacts(FactsIn([Fact(0, AllocSite, "")], LEGACY)) == "A"
    ensures "" + RawFacts(FactsIn([], LEGACY)) == ""
  {
    var alloc := Fact(0, AllocSite, "");
    FactsInPush([], alloc, LEGACY);
    assert [] + [alloc] == [alloc];
    assert FactsIn([alloc], LEGACY) == [alloc];
  }

  /** What the collector stores with the recorded allocation before it, and on a clone. */
  lemma CollectorAfterAllocation(gate: Gate, key: string, c: Context)
    requires c.facts == [Fact(0, AllocSite, "")] && c.shared == map[]
    ensures Exec(gate, Collector(key, ""), c).shared == map[key := Any("Vec<RawResourceFact>", "A")]
    ensures Exec(gate, Collector(key, ""), CloneOf(c)).shared == map[key := Any("Vec<RawResourceFact>", "")]
  {
    OneLegacyFact();
    CollectorRuns(gate, key, "", c);
    CollectorRuns(gate, key, "", CloneOf(c));
  }

  lemma AllocationIsRecorded(gate: Gate, c: Context)
    requires c.facts == []
    ensures var allocation := AddFact(Fact(0, AllocSite, ""), Done);
      && Exec(gate, allocation, c) == c.(facts := [Fact(0, AllocSite, "")])
      && MergeInto(c, Exec(gate, allocation, CloneOf(c))) == c.(facts := [Fact(0, AllocSite, "")])
  {
    AllocationRuns(gate, c);
    AllocationRuns(gate, CloneOf(c));
    assert [] + [Fact(0, AllocSite, "")] == [Fact(0, AllocSite, "")];
  }

  /** Facts are there for other passes to use, but a parallel run shows them to none: the
      collector finds the allocation its dependency recorded in a sequential run only. */
  lemma FactsNeverReachLaterLevels(gate: Gate, key: string)
    ensures var passes, c := AllocationThenCollector(key), Context(map[], [], [], [], [], 1);
      && AreLevels(passes, [[0], [1]]) && IsExecutionOrder(passes, [0, 1])
      && InRange(passes, [0, 1]) && AllInRange(passes, [[0], [1]])
      && RunInOrder(gate, passes, [0, 1], c).shared == map[key := Any("Vec<RawResourceFact>", "A")]
      && RunLevels(gate, passes, [[0], [1]], c).shared == map[key := Any("Vec<RawResourceFact>", "")]
  {
    var passes, c := AllocationThenCollector(key), Context(map[], [], [], [], [], 1);
    DependentPairTakesTwoLevels(passes[0], passes[1]);
    TwoLevelsRun(gate, passes, c);
    AllocationIsRecorded(gate, c);
    CollectorAfterAllocation(gate, key, c.(facts := [Fact(0, AllocSite, "")]));
  }

  // ----- Why an update of a present key must come last in its level -----

  /** Two independent passes: the first overwrites `key`, the second does nothing. */
  function WriterAndIdle(key: string, update: Any): seq<Pass> {
    [Pass("writer", [], Store(key, update, Done)), Pass("idle", [], Done)]
  }

  /** Two passes without dependencies share the only level. */
  lemma IndependentPairSharesALevel(first: Pass, second: Pass)
    requires first.name != second.name && first.dependencies == [] && second.dependencies == []
    ensures AreLevels([first, second], [[0, 1]])
  {
    var passes := [first, second];
    assert ReadyBelow(passes, {}, 1) == [0];
    assert Level(passes, 0) == [0, 1];
    var completed := CompletedAfter(passes, 1);
    assert Ready(passes, {}, 0) && Ready(passes, {}, 1);
    ReadyNameOf(passes, {}, 0);
    ReadyNameOf(passes, {}, 1);
    assert passes[0].name in completed && passes[1].name in completed;
    assert ReadyBelow(passes, completed, 1) == [];
    assert Level(passes, 1) == [];
  }

  lemma WriterRunsAlone(gate: Gate, key: string, update: Any, c: Context)
    ensures Exec(gate, Store(key, update, Done), c) == c.(shared := c.shared[key := update])
    ensures Exec(gate, Done, c) == c
  {
    var updated := c.(shared := c.shared[key := update]);
    assert Step(gate, Store(key, update, Done), c) == (Some(Done), updated);
    assert Exec(gate, Done, updated) == updated;
  }

  lemma OneLevelRuns(gate: Gate, passes: seq<Pass>, a: nat, b: nat, c: Context)
    requires a < |passes| && b < |passes|
    ensures InRange(passes, [a, b]) && AllInRange(passes, [[a, b]])
    ensures RunInOrder(gate, passes, [a, b], c) == Exec(gate, passes[b].body, Exec(gate, passes[a].body, c))
    ensures RunLevels(gate, passes, [[a, b]], c)
         == MergeInto(MergeInto(c, Exec(gate, passes[a].body, CloneOf(c))), Exec(gate, passes[b].body, CloneOf(c)))
  {
    var both: seq<nat>, first: seq<nat>, none: seq<nat> := [a, b], [a], [];
    assert both[..1] == first && first[..0] == none && [both][..0] == [];
    assert RunInOrder(gate, passes, first, c) == Exec(gate, passes[a].body, RunInOrder(gate, passes, none, c));
    assert RunLevel(gate, passes, first, c) == MergeInto(RunLevel(gate, passes, none, c), Exec(gate, passes[a].body, CloneOf(c)));
    assert RunLevels(gate, passes, [both], c) == RunLevel(gate, passes, both, RunLevels(gate, passes, [], c));
  }

  /** When the key was there before, the idle pass's clone carries a stale copy of it, and
      merging that clone last undoes the update; sequential execution keeps it. */
  lemma StaleCopyUndoesUpdate(gate: Gate, key: string, before: Any, update: Any)
    requires before != update
    ensures var passes, c := WriterAndIdle(key, update), Context(map[key := before], [], [], [], [], 1);
      && AreLevels(passes, [[0, 1]]) && InRange(passes, [0, 1]) && AllInRange(passes, [[0, 1]])
      && RunInOrder(gate, passes, [0, 1], c).shared == map[key := update]
      && RunLevels(gate, passes, [[0, 1]], c).shared == map[key := before]
  {
    var passes, c := WriterAndIdle(key, update), Context(map[key := before], [], [], [], [], 1);
    IndependentPairSharesALevel(passes[0], passes[1]);
    OneLevelRuns(gate, passes, 0, 1, c);
    WriterRunsAlone(gate, key, update, c);
    WriterRunsAlone(gate, key, update, CloneOf(c));
    WriterRunsAlone(gate, key, update, c.(shared := c.shared[key := update]));
  }

  // ----- Why a pass must depend on those whose values it reads -----

  /** A pass that stores resolutions for the gate, and one that emits an issue without depending
      on it. */
  ghost function ResolverAndEmitter(resolutions: Any, issue: Issue): seq<Pass> {
    [Pass("resolver", [], Store(GATE_KEY, resolutions, Done)), Pass("emitter", [], Emit(issue, imap[]))]
  }

  lemma IndependentPairExecutes(first: Pass, second: Pass)
    requires first.name != second.name && first.dependencies == [] && second.dependencies == []
    ensures IsExecutionOrder([first, second], [0, 1])
  {
    var passes := [first, second];
    assert forall i, j :: !DependsOnPass(passes, i, j);
  }

  lemma EmitterRuns(gate: Gate, issue: Issue, c: Context)
    ensures Exec(gate, Emit(issue, imap[]), c) == EmitInto(c, issue, EmitOutcomeOf(gate, c.shared, issue))
  {
    assert Step(gate, Emit(issue, imap[]), c).0 == None;
  }

  /** Emitting reads the resolutions of the gate. If the emitter does not depend on the pass that
      stores them, the two race: a sequential run suppresses an issue that a parallel run lets
      pass. */
  lemma UndeclaredReadRaces(gate: Gate, resolutions: Any, issue: Issue)
    requires gate(issue, None).None? && gate(issue, Some(resolutions)).Some?
    ensures var passes, c := ResolverAndEmitter(resolutions, issue), Context(map[], [], [], [], [], 1);
      && AreLevels(passes, [[0, 1]]) && IsExecutionOrder(passes, [0, 1])
      && InRange(passes, [0, 1]) && AllInRange(passes, [[0, 1]])
      && var sequential, parallel := RunInOrder(gate, passes, [0, 1], c), RunLevels(gate, passes, [[0, 1]], c);
         && sequential.issues == [] && sequential.suppressed == [issue]
         && parallel.issues == [issue] && parallel.suppressed == []
  {
    var passes, c := ResolverAndEmitter(resolutions, issue), Context(map[], [], [], [], [], 1);
    IndependentPairSharesALevel(passes[0], passes[1]);
    IndependentPairExecutes(passes[0], passes[1]);
    OneLevelRuns(gate, passes, 0, 1, c);
    WriterRunsAlone(gate, GATE_KEY, resolutions, c);
    EmitterRuns(gate, issue, c);
    EmitterRuns(gate, issue, c.(shared := c.shared[GATE_KEY := resolutions]));
  }

  // ----- Placing writers alike is what agreement takes -----

  function NoteIfFound(found: Option<Any>): Program {
    if found.Some? then AddDiagnostic(NOTED, Done) else Done
  }

  /** Adds a diagnostic if there is a value under `key`. */
  ghost function Tell(key: string): Program {
    Read(key, imap found: Option<Any> | true :: NoteIfFound(found))
  }

  /** One pass stores a value, another tells whether it is there, and the others do nothing. */
  ghost predicate OneStoresOneTells(passes: seq<Pass>, writer: nat, reader: nat, key: string, value: Any) {
    && writer < |passes| && reader < |passes| && writer != reader
    && passes[writer].body == Store(key, value, Done) && passes[reader].body == Tell(key)
    && forall i :: 0 <= i < |passes| && i != writer && i != reader ==> passes[i].body == Done
  }

  lemma TellEffects(key: string, k: string)
    ensures NeverWrites(Tell(key), k) && Alike(Tell(key), Tell(key))
    ensures NeverReads(Tell(key), k) <==> k != key
  {
    assert forall found :: NeverWrites(NoteIfFound(found), k) && NeverReads(NoteIfFound(found), k);
    assert forall found :: Alike(NoteIfFound(found), NoteIfFound(found));
  }

  lemma StoreEffects(key: string, value: Any, k: string)
    ensures NeverReads(Store(key, value, Done), k) && Alike(Store(key, value, Done), Store(key, value, Done))
    ensures NeverWrites(Store(key, value, Done), k) <==> k != key
  {
    assert NeverReads(Done, k) && NeverWrites(Done, k) && Alike(Done, Done);
  }

  /** Only the writer writes, and besides it only the reader accesses, and only `key`. */
  lemma WhoAccesses(passes: seq<Pass>, writer: nat, reader: nat, key: string, value: Any, i: nat, k: string)
    requires OneStoresOneTells(passes, writer, reader, key, value) && i < |passes|
    ensures Writes(passes, i, k) <==> i == writer && k == key
    ensures Accesses(passes, i, k) <==> (i == writer || i == reader) && k == key
    ensures Alike(passes[i].body, passes[i].body)
  {
    TellEffects(key, k);
    StoreEffects(key, value, k);
    assert NeverWrites(Done, k) && NeverReads(Done, k) && Alike(Done, Done);
  }

  const EMPTY := Context(map[], [], [], [], [], 1)

  lemma PairDoesNotInterfere(gate: Gate, passes: seq<Pass>, levels: seq<seq<nat>>, writer: nat, reader: nat, key: string, value: Any)
    requires GateIgnoresIds(gate) && IsSchedule(passes, levels) && OneStoresOneTells(passes, writer, reader, key, value)
    ensures NonInterfering(gate, passes, levels, EMPTY.shared)
  {
    forall i: nat, k | i < |passes|
      ensures (Writes(passes, i, k) <==> i == writer && k == key) && Alike(passes[i].body, passes[i].body)
    {
      WhoAccesses(passes, writer, reader, key, value, i, k);
    }
    forall k, p, k' | 0 <= k < |levels| && 0 <= p < |levels[k]| && Writes(passes, levels[k][p], k')
      ensures !WrittenBefore(passes, levels, k, k')
    {
      assert levels[k][p] in levels[k];
      WriterIsPlaced(passes, levels, k, k');
    }
    assert forall k :: 0 <= k < |levels| ==> Distinct(levels[k]);
  }

  /** The two passes are placed alike exactly when both schedules agree whether the writer comes
      before the reader. */
  lemma PairIsPlacedAlikeIff(
      passes: seq<Pass>, levels1: seq<seq<nat>>, levels2: seq<seq<nat>>, writer: nat, reader: nat, key: string, value: Any)
    requires IsSchedule(passes, levels1) && IsSchedule(passes, levels2) && OneStoresOneTells(passes, writer, reader, key, value)
    ensures Placed(levels1, reader) && Placed(levels2, reader)
    ensures PlacedAlike(passes, levels1, levels2)
      <==> (PlacedBefore(levels1, LevelOf(levels1, reader), writer) <==> PlacedBefore(levels2, LevelOf(levels2, reader), writer))
  {
    forall i: nat, k | i < |passes|
      ensures Writes(passes, i, k) <==> i == writer && k == key
      ensures Accesses(passes, i, k) <==> (i == writer || i == reader) && k == key
    {
      WhoAccesses(passes, writer, reader, key, value, i, k);
    }
    assert Placed(levels1, reader) && Placed(levels2, reader);
    var k1, k2 := LevelOf(levels1, reader), LevelOf(levels2, reader);
    if PlacedAlike(passes, levels1, levels2) {
      assert reader in levels1[k1] && reader in levels2[k2] && Accesses(passes, reader, key);
      assert SameWritersBefore(passes, levels1, k1, levels2, k2, key);
    }
  }

  lemma TellRuns(gate: Gate, key: string, c: Context)
    requires c.diagnostics == [] && c.facts == [] && c.issues == [] && c.suppressed == []
    ensures Count(Exec(gate, Tell(key), c), AsDiagnosed(NOTED)) == if key in c.shared then 1 else 0
  {
    var found := Lookup(c.shared, key);
    assert Step(gate, Tell(key), c) == (Some(NoteIfFound(found)), c);
    if key in c.shared {
      var noted := c.(diagnostics := c.diagnostics + [NOTED]);
      assert Step(gate, NoteIfFound(found), c) == (Some(Done), noted);
      assert Exec(gate, Done, noted) == noted;
      Push(AsDiagnosed, [], NOTED, AsDiagnosed(NOTED));
      assert [] + [NOTED] == [NOTED];
    } else {
      assert Exec(gate, Done, c) == c;
    }
  }

  /** The reader finds the value exactly when the writer is placed before it. */
  lemma ReaderFindsIffPlacedBefore(
      gate: Gate, passes: seq<Pass>, levels: seq<seq<nat>>, writer: nat, reader: nat, key: string, value: Any, k: nat)
    requires GateIgnoresIds(gate) && IsSchedule(passes, levels) && OneStoresOneTells(passes, writer, reader, key, value)
    requires k <= |levels|
    ensures key in After(gate, passes, levels, EMPTY, k).shared <==> PlacedBefore(levels, k, writer)
  {
    forall i: nat | i < |passes| ensures Writes(passes, i, key) <==> i == writer {
      WhoAccesses(passes, writer, reader, key, value, i, key);
    }
    PairDoesNotInterfere(gate, passes, levels, writer, reader, key, value);
    WriterIsPlaced(passes, levels, k, key);
    if WrittenBefore(passes, levels, k, key) {
      var l, j := LastWriterDecides(gate, passes, levels, EMPTY, k, key);
      WriterRunsAlone(gate, key, value, CloneOf(After(gate, passes, levels, EMPTY, l)));
    } else {
      UnwrittenBefore(gate, passes, levels, EMPTY, k, key);
    }
  }

  /** How often the diagnostic is added: only the reader adds it, if it finds the value. */
  lemma PassTells(gate: Gate, passes: seq<Pass>, levels: seq<seq<nat>>, writer: nat, reader: nat, key: string, value: Any, i: nat)
    requires GateIgnoresIds(gate) && IsSchedule(passes, levels) && OneStoresOneTells(passes, writer, reader, key, value) && i < |passes|
    ensures CountIn(gate, passes, levels, EMPTY, AsDiagnosed(NOTED), i)
         == if i == reader && PlacedBefore(levels, LevelOf(levels, reader), writer) then 1 else 0
  {
    assert Placed(levels, i);
    var k := LevelOf(levels, i);
    var here := CloneOf(After(gate, passes, levels, EMPTY, k));
    if i == reader {
      ReaderFindsIffPlacedBefore(gate, passes, levels, writer, reader, key, value, k);
      TellRuns(gate, key, here);
    } else {
      WriterRunsAlone(gate, key, value, here);
    }
  }

  lemma ScheduleTells(gate: Gate, passes: seq<Pass>, levels: seq<seq<nat>>, writer: nat, reader: nat, key: string, value: Any)
    requires GateIgnoresIds(gate) && IsSchedule(passes, levels) && OneStoresOneTells(passes, writer, reader, key, value)
    ensures Count(RunLevels(gate, passes, levels, EMPTY), AsDiagnosed(NOTED))
         == if PlacedBefore(levels, LevelOf(levels, reader), writer) then 1 else 0
  {
    var x := AsDiagnosed(NOTED);
    var f: nat -> nat := i => CountIn(gate, passes, levels, EMPTY, x, i);
    CountInCounts(gate, passes, levels, EMPTY, x, f);
    ScheduleFindings(gate, passes, levels, EMPTY, x, f);
    forall i: nat | i < |passes|
      ensures f(i) == if i == reader && PlacedBefore(levels, LevelOf(levels, reader), writer) then 1 else 0
    {
      PassTells(gate, passes, levels, writer, reader, key, value, i);
    }
    OneSummand(f, reader, |passes|);
  }

  /** For such passes two schedules agree if and only if they place the writer alike, so the
      hypothesis of the agreement theorem cannot be weakened for any pair of accesses. */
  lemma AgreeIffPlacedAlike(
      gate: Gate, passes: seq<Pass>, levels1: seq<seq<nat>>, levels2: seq<seq<nat>>, writer: nat, reader: nat, key: string, value: Any)
    requires GateIgnoresIds(gate) && IsSchedule(passes, levels1) && IsSchedule(passes, levels2)
    requires OneStoresOneTells(passes, writer, reader, key, value)
    ensures SameFindings(RunLevels(gate, passes, levels1, EMPTY), RunLevels(gate, passes, levels2, EMPTY))
            <==> PlacedAlike(passes, levels1, levels2)
  {
    if PlacedAlike(passes, levels1, levels2) {
      PairDoesNotInterfere(gate, passes, levels1, writer, reader, key, value);
      PairDoesNotInterfere(gate, passes, levels2, writer, reader, key, value);
      SchedulesAgree(gate, passes, levels1, levels2, EMPTY);
    } else {
      PairIsPlacedAlikeIff(passes, levels1, levels2, writer, reader, key, value);
      ScheduleTells(gate, passes, levels1, writer, reader, key, value);
      ScheduleTells(gate, passes, levels2, writer, reader, key, value);
    }
  }
}
