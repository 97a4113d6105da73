/** Running all passes, one after the other or level by level on clones of the context, and
    the conditions under which the two end with the same result. */
module PassRunners {
  import opened Wrappers
  import opened PassContexts
  import opened PassManagers

  // ----- The two ways of running -----

  ghost predicate InRange(passes: seq<Pass>, group: seq<nat>) {
    forall p :: 0 <= p < |group| ==> group[p] < |passes|
  }

  /** Sequential execution: every pass works on the one context. */
  ghost function RunInOrder(gate: Gate, passes: seq<Pass>, order: seq<nat>, c: Context): Context
    requires InRange(passes, order)
  {
    if order == [] then c
    else
      var last := order[|order| - 1];
      Exec(gate, passes[last].body, RunInOrder(gate, passes, order[..|order| - 1], c))
  }

  /** One level: every pass runs on its own clone of `c`; the clones are merged in level order. */
  ghost function RunLevel(gate: Gate, passes: seq<Pass>, level: seq<nat>, c: Context): Context
    requires InRange(passes, level)
  {
    if level == [] then c
    else
      var last := level[|level| - 1];
      MergeInto(RunLevel(gate, passes, level[..|level| - 1], c), Exec(gate, passes[last].body, CloneOf(c)))
  }

  ghost predicate AllInRange(passes: seq<Pass>, levels: seq<seq<nat>>) {
    forall k :: 0 <= k < |levels| ==> InRange(passes, levels[k])
  }

  ghost function RunLevels(gate: Gate, passes: seq<Pass>, levels: seq<seq<nat>>, c: Context): Context
    requires AllInRange(passes, levels)
  {
    if levels == [] then c
    else
      RunLevel(gate, passes, levels[|levels| - 1], RunLevels(gate, passes, levels[..|levels| - 1], c))
  }

  /** A sequential order seen as a schedule of one-pass levels. */
  function Singletons(order: seq<nat>): seq<seq<nat>> {
    seq(|order|, i requires 0 <= i < |order| => [order[i]])
  }

  // ----- What a program may add to the findings -----

  /** Emitting an issue files it under one of the two lists, as the gate decides. */
  ghost predicate NeverAdds(p: Program, part: Part)
    decreases p
  {
    match p
    case Done => true
    case Store(_, _, next) => NeverAdds(next, part)
    case AddDiagnostic(_, next) => part != Diagnostics && NeverAdds(next, part)
    case AddFact(fact, next) => part != Facts(fact.kind) && NeverAdds(next, part)
    case Read(_, andThen) => forall found :: found in andThen ==> NeverAdds(andThen[found], part)
    case ReadBack(_, whenSeen) => forall seen :: seen in whenSeen ==> NeverAdds(whenSeen[seen], part)
    case NewId(withId) => forall id :: id in withId ==> NeverAdds(withId[id], part)
    case Emit(_, after) =>
      part != Issues && part != SuppressedIssues && forall outcome :: outcome in after ==> NeverAdds(after[outcome], part)
  }

  /** A program that never adds to a part leaves a context without it. */
  lemma {:induction false} NeverAddedIsLacked(gate: Gate, p: Program, c: Context, part: Part)
    requires NeverAdds(p, part) && Lacks(c, part)
    ensures Lacks(Exec(gate, p, c), part)
    decreases p
  {
    var (rest, c') := Step(gate, p, c);
    if rest.Some? {
      NeverAddedIsLacked(gate, rest.value, c', part);
    }
  }

  /** What a pass looks at is neither there at the start nor added by a pass before it. */
  ghost predicate LooksAtNothing(passes: seq<Pass>, order: seq<nat>, c: Context)
    requires InRange(passes, order)
  {
    forall q :: 0 <= q < |order| ==> LooksAtNothingOf(passes, order[q], order[..q], c)
  }

  /** Pass `i` looks neither at findings of `c` nor at any that the passes in `before` add. */
  ghost predicate LooksAtNothingOf(passes: seq<Pass>, i: nat, before: seq<nat>, c: Context)
    requires i < |passes| && InRange(passes, before)
  {
    forall part :: !NeverReadsBack(passes[i].body, part) ==> Lacks(c, part) && AddedByNone(passes, before, part)
  }

  ghost predicate AddedByNone(passes: seq<Pass>, order: seq<nat>, part: Part)
    requires InRange(passes, order)
  {
    forall p :: 0 <= p < |order| ==> NeverAdds(passes[order[p]].body, part)
  }

  lemma {:induction false} AddedByNoneIsLacked(gate: Gate, passes: seq<Pass>, order: seq<nat>, c: Context, part: Part)
    requires InRange(passes, order) && Lacks(c, part) && AddedByNone(passes, order, part)
    ensures Lacks(RunInOrder(gate, passes, order, c), part)
  {
    if order != [] {
      var init := order[..|order| - 1];
      AddedByNoneIsLacked(gate, passes, init, c, part);
      NeverAddedIsLacked(gate, passes[order[|order| - 1]].body, RunInOrder(gate, passes, init, c), part);
    }
  }

  lemma LastLooksAtNothing(gate: Gate, passes: seq<Pass>, order: seq<nat>, c: Context)
    requires InRange(passes, order) && order != [] && LooksAtNothing(passes, order, c)
    ensures LooksAtNothing(passes, order[..|order| - 1], c)
    ensures Unseen(passes[order[|order| - 1]].body, RunInOrder(gate, passes, order[..|order| - 1], c))
  {
    var n := |order| - 1;
    var init := order[..n];
    forall q | 0 <= q < n ensures LooksAtNothingOf(passes, init[q], init[..q], c) {
      assert init[q] == order[q] && init[..q] == order[..q];
    }
    assert LooksAtNothingOf(passes, order[n], order[..n], c);
    forall part | !NeverReadsBack(passes[order[n]].body, part) ensures Lacks(RunInOrder(gate, passes, init, c), part) {
      AddedByNoneIsLacked(gate, passes, init, c, part);
    }
  }

  /** Sequential execution is the level schedule whose levels hold one pass each, if no pass
      looks at findings of others. */
  lemma {:induction false} SequentialIsLevelled(gate: Gate, passes: seq<Pass>, order: seq<nat>, c: Context)
    requires InRange(passes, order) && LooksAtNothing(passes, order, c)
    ensures AllInRange(passes, Singletons(order))
    ensures RunLevels(gate, passes, Singletons(order), c) == RunInOrder(gate, passes, order, c)
  {
    if order != [] {
      var init, last := order[..|order| - 1], order[|order| - 1];
      LastLooksAtNothing(gate, passes, order, c);
      SequentialIsLevelled(gate, passes, init, c);
      assert Singletons(order)[..|order| - 1] == Singletons(init);
      var before := RunInOrder(gate, passes, init, c);
      CloneRunMerge(gate, passes[last].body, before);
      assert [last][..0] == [];
      assert RunLevel(gate, passes, [last], before) == Exec(gate, passes[last].body, before);
    }
  }

  // ----- What a program may read and write -----

  ghost predicate NeverWrites(p: Program, key: string)
    decreases p
  {
    match p
    case Done => true
    case Store(k, v, next) => k != key && NeverWrites(next, key)
    case AddDiagnostic(_, next) => NeverWrites(next, key)
    case AddFact(_, next) => NeverWrites(next, key)
    case Read(_, andThen) => forall found :: found in andThen ==> NeverWrites(andThen[found], key)
    case ReadBack(_, whenSeen) => forall seen :: seen in whenSeen ==> NeverWrites(whenSeen[seen], key)
    case NewId(withId) => forall id :: id in withId ==> NeverWrites(withId[id], key)
    case Emit(_, after) => forall outcome :: outcome in after ==> NeverWrites(after[outcome], key)
  }

  /** Emitting an issue consults the gate, which reads the stored resolutions. */
  ghost predicate NeverReads(p: Program, key: string)
    decreases p
  {
    match p
    case Done => true
    case Store(_, _, next) => NeverReads(next, key)
    case AddDiagnostic(_, next) => NeverReads(next, key)
    case AddFact(_, next) => NeverReads(next, key)
    case Read(k, andThen) => k != key && forall found :: found in andThen ==> NeverReads(andThen[found], key)
    case ReadBack(_, whenSeen) => forall seen :: seen in whenSeen ==> NeverReads(whenSeen[seen], key)
    case NewId(withId) => forall id :: id in withId ==> NeverReads(withId[id], key)
    case Emit(_, after) => key != GATE_KEY && forall outcome :: outcome in after ==> NeverReads(after[outcome], key)
  }

  /** A key that a program never writes keeps its value. */
  lemma {:induction false} UnwrittenKeyIsKept(gate: Gate, p: Program, c: Context, key: string)
    requires NeverWrites(p, key)
    ensures Lookup(Exec(gate, p, c).shared, key) == Lookup(c.shared, key)
    decreases p
  {
    var (rest, c') := Step(gate, p, c);
    if rest.Some? {
      UnwrittenKeyIsKept(gate, rest.value, c', key);
    }
  }

  // ----- Findings up to ids -----

  datatype Finding =
    | Diagnosed(diagnostic: Diagnostic) | Recorded(fact: Fact) | Reported(issue: Issue) | Withheld(issue: Issue)

  function Anonymous(issue: Issue): Issue {
    issue.(id := 0)
  }

  function AsDiagnosed(diagnostic: Diagnostic): Finding { Diagnosed(diagnostic.(id := 0)) }
  function AsRecorded(fact: Fact): Finding { Recorded(fact.(id := 0)) }
  function AsReported(issue: Issue): Finding { Reported(Anonymous(issue)) }
  function AsWithheld(issue: Issue): Finding { Withheld(Anonymous(issue)) }

  /** The same findings in the same order, up to ids. */
  ghost predicate SameList<T>(tag: T -> Finding, a: seq<T>, b: seq<T>) {
    |a| == |b| && forall i :: 0 <= i < |a| ==> tag(a[i]) == tag(b[i])
  }

  ghost predicate SameSeen(a: Seen, b: Seen) {
    && SameList(AsDiagnosed, a.diagnostics, b.diagnostics) && SameList(AsRecorded, a.facts, b.facts)
    && SameList(AsReported, a.issues, b.issues) && SameList(AsWithheld, a.suppressed, b.suppressed)
  }

  // ----- Programs that do not depend on ids -----

  predicate SameVerdict(a: EmitOutcome, b: EmitOutcome) {
    match (a, b)
    case (Allowed(_), Allowed(_)) => true
    case (Suppressed(_, r), Suppressed(_, s)) => r == s
    case _ => false
  }

  /** The same calls in the same order, up to the ids of issues, facts and diagnostics. */
  ghost predicate Alike(p: Program, q: Program)
    decreases p
  {
    match p
    case Done => q.Done?
    case Store(k, v, next) => q.Store? && q.key == k && q.value == v && Alike(next, q.next)
    case AddDiagnostic(d, next) => q.AddDiagnostic? && AsDiagnosed(q.diagnostic) == AsDiagnosed(d) && Alike(next, q.next)
    case AddFact(f, next) => q.AddFact? && AsRecorded(q.fact) == AsRecorded(f) && Alike(next, q.next)
    case Read(k, andThen) =>
      && q.Read? && q.key == k
      && forall found :: (found in andThen <==> found in q.andThen) && (found in andThen ==> Alike(andThen[found], q.andThen[found]))
    case ReadBack(watch, whenSeen) =>
      && q.ReadBack? && q.watch == watch
      && forall a, b :: SameSeen(a, b) ==>
           (a in whenSeen <==> b in q.whenSeen) && (a in whenSeen ==> Alike(whenSeen[a], q.whenSeen[b]))
    case NewId(withId) =>
      && q.NewId?
      && forall i: nat, j: nat :: (i in withId <==> j in q.withId) && (i in withId ==> Alike(withId[i], q.withId[j]))
    case Emit(issue, after) =>
      && q.Emit? && Anonymous(issue) == Anonymous(q.issue)
      && forall a, b :: SameVerdict(a, b) ==>
           (a in after <==> b in q.after) && (a in after ==> Alike(after[a], q.after[b]))
  }

  /** The gate looks at everything but the id. */
  ghost predicate GateIgnoresIds(gate: Gate) {
    forall i, j, resolutions :: Anonymous(i) == Anonymous(j) ==> gate(i, resolutions) == gate(j, resolutions)
  }

  // ----- Findings up to order and ids -----

  function CountTagged<T>(tag: T -> Finding, items: seq<T>, x: Finding): nat {
    if items == [] then 0
    else CountTagged(tag, items[..|items| - 1], x) + (if tag(items[|items| - 1]) == x then 1 else 0)
  }

  /** How often finding `x` occurs in the four lists of a context, ids aside. */
  function Count(c: Context, x: Finding): nat {
    CountTagged(AsDiagnosed, c.diagnostics, x) + CountTagged(AsRecorded, c.facts, x)
      + CountTagged(AsReported, c.issues, x) + CountTagged(AsWithheld, c.suppressed, x)
  }

  /** The two contexts hold the same findings, up to order and ids. */
  ghost predicate SameFindings(c: Context, d: Context) {
    forall x :: Count(c, x) == Count(d, x)
  }

  lemma {:induction false} CountConcat<T>(tag: T -> Finding, a: seq<T>, b: seq<T>, x: Finding)
    ensures CountTagged(tag, a + b, x) == CountTagged(tag, a, x) + CountTagged(tag, b, x)
  {
    if b == [] {
      assert a + b == a;
    } else {
      CountConcat(tag, a, b[..|b| - 1], x);
      assert (a + b)[..|a + b| - 1] == a + b[..|b| - 1];
    }
  }

  /** Merging adds findings up. */
  lemma MergeAddsFindings(c: Context, other: Context, x: Finding)
    ensures Count(MergeInto(c, other), x) == Count(c, x) + Count(other, x)
  {
    CountConcat(AsDiagnosed, c.diagnostics, other.diagnostics, x);
    CountConcat(AsRecorded, c.facts, other.facts, x);
    CountConcat(AsReported, c.issues, other.issues, x);
    CountConcat(AsWithheld, c.suppressed, other.suppressed, x);
  }

  // ----- Equal views give equal effects -----

  ghost predicate AgreeOn(p: Program, a: map<string, Any>, b: map<string, Any>) {
    forall key :: !NeverReads(p, key) ==> Lookup(a, key) == Lookup(b, key)
  }

  ghost predicate ReadsAll(p: Program, watch: set<Part>) {
    forall part :: part in watch ==> !NeverReadsBack(p, part)
  }

  /** The two contexts show a program the same findings up to ids, whatever it looks at. */
  ghost predicate AgreeOnFindings(p: Program, c: Context, d: Context) {
    forall watch :: ReadsAll(p, watch) ==> SameSeen(View(c, watch), View(d, watch))
  }

  lemma Push<T>(tag: T -> Finding, items: seq<T>, item: T, x: Finding)
    ensures CountTagged(tag, items + [item], x) == CountTagged(tag, items, x) + (if tag(item) == x then 1 else 0)
  {
    assert (items + [item])[..|items|] == items;
  }

  /** What one call adds to the findings, if anything. */
  ghost function Added(gate: Gate, p: Program, c: Context): Option<Finding> {
    match p
    case AddDiagnostic(d, _) => Some(AsDiagnosed(d))
    case AddFact(f, _) => Some(AsRecorded(f))
    case Emit(issue, _) =>
      Some(if EmitOutcomeOf(gate, c.shared, issue).Allowed? then AsReported(issue) else AsWithheld(issue))
    case _ => None
  }

  lemma StepAddsFindings(gate: Gate, p: Program, c: Context, x: Finding)
    ensures Count(Step(gate, p, c).1, x) == Count(c, x) + (if Added(gate, p, c) == Some(x) then 1 else 0)
  {
    match p
    case AddDiagnostic(d, _) => Push(AsDiagnosed, c.diagnostics, d, x);
    case AddFact(f, _) => Push(AsRecorded, c.facts, f, x);
    case Emit(issue, _) =>
      Push(AsReported, c.issues, issue, x);
      Push(AsWithheld, c.suppressed, issue, x);
    case _ =>
  }

  lemma AlikeSteps(gate: Gate, p: Program, q: Program, c: Context, d: Context)
    requires Alike(p, q) && GateIgnoresIds(gate) && AgreeOn(p, c.shared, d.shared)
    ensures Added(gate, p, c) == Added(gate, q, d)
  {
    if p.Emit? {
      assert !NeverReads(p, GATE_KEY);
      assert SameVerdict(EmitOutcomeOf(gate, c.shared, p.issue), EmitOutcomeOf(gate, d.shared, q.issue));
    }
  }

  lemma SeesTheSame(gate: Gate, p: Program, q: Program, c: Context, d: Context)
    requires Alike(p, q) && p.ReadBack? && AgreeOnFindings(p, c, d)
    ensures SameSeen(View(c, p.watch), View(d, p.watch))
  {
    assert ReadsAll(p, p.watch);
  }

  lemma AlikeRests(gate: Gate, p: Program, q: Program, c: Context, d: Context)
    requires Alike(p, q) && GateIgnoresIds(gate) && AgreeOn(p, c.shared, d.shared) && AgreeOnFindings(p, c, d)
    ensures var p', q' := Step(gate, p, c).0, Step(gate, q, d).0;
      (p'.Some? <==> q'.Some?) && (p'.Some? ==> Alike(p'.value, q'.value))
  {
    match p
    case Emit(issue, _) =>
      assert !NeverReads(p, GATE_KEY);
      assert SameVerdict(EmitOutcomeOf(gate, c.shared, issue), EmitOutcomeOf(gate, d.shared, q.issue));
    case Read(k, _) =>
      assert !NeverReads(p, k);
    case ReadBack(_, _) =>
      SeesTheSame(gate, p, q, c, d);
    case _ =>
  }

  lemma StepKeepsAgreement(gate: Gate, p: Program, q: Program, c: Context, d: Context)
    requires Alike(p, q) && AgreeOn(p, c.shared, d.shared)
    ensures var (p', c') := Step(gate, p, c);
      p'.Some? ==> AgreeOn(p'.value, c'.shared, Step(gate, q, d).1.shared)
  {
    var (p', c') := Step(gate, p, c);
    if p'.Some? {
      forall key | !NeverReads(p'.value, key) ensures Lookup(c'.shared, key) == Lookup(Step(gate, q, d).1.shared, key) {
        assert (p.Store? && key == p.key) || !NeverReads(p, key);
      }
    }
  }

  lemma FactsInPush(facts: seq<Fact>, fact: Fact, watch: set<Part>)
    ensures FactsIn(facts + [fact], watch) == FactsIn(facts, watch) + (if Facts(fact.kind) in watch then [fact] else [])
  {
    assert (facts + [fact])[..|facts|] == facts;
  }

  lemma SameListPush<T>(tag: T -> Finding, a: seq<T>, b: seq<T>, x: T, y: T)
    requires SameList(tag, a, b) && tag(x) == tag(y)
    ensures SameList(tag, a + [x], b + [y])
  {
  }

  /** Like steps show more of the same. */
  lemma StepShowsTheSame(gate: Gate, p: Program, q: Program, c: Context, d: Context, watch: set<Part>)
    requires Alike(p, q) && GateIgnoresIds(gate) && AgreeOn(p, c.shared, d.shared)
    requires SameSeen(View(c, watch), View(d, watch))
    ensures SameSeen(View(Step(gate, p, c).1, watch), View(Step(gate, q, d).1, watch))
  {
    match p
    case AddDiagnostic(diagnostic, _) =>
      if Diagnostics in watch {
        SameListPush(AsDiagnosed, c.diagnostics, d.diagnostics, diagnostic, q.diagnostic);
      }
    case AddFact(fact, _) =>
      FactIsShown(c, d, fact, q.fact, watch);
    case Emit(issue, _) =>
      AlikeSteps(gate, p, q, c, d);
      EmissionIsShown(c, d, issue, q.issue, EmitOutcomeOf(gate, c.shared, issue), EmitOutcomeOf(gate, d.shared, q.issue), watch);
    case _ =>
  }

  lemma FactIsShown(c: Context, d: Context, x: Fact, y: Fact, watch: set<Part>)
    requires SameSeen(View(c, watch), View(d, watch)) && AsRecorded(x) == AsRecorded(y)
    ensures SameSeen(View(c.(facts := c.facts + [x]), watch), View(d.(facts := d.facts + [y]), watch))
  {
    FactsInPush(c.facts, x, watch);
    FactsInPush(d.facts, y, watch);
    assert x.(id := 0).kind == x.kind && y.(id := 0).kind == y.kind;
    SameListPush(AsRecorded, FactsIn(c.facts, watch), FactsIn(d.facts, watch), x, y);
  }

  lemma EmissionIsShown(c: Context, d: Context, x: Issue, y: Issue, a: EmitOutcome, b: EmitOutcome, watch: set<Part>)
    requires SameSeen(View(c, watch), View(d, watch)) && Anonymous(x) == Anonymous(y) && (a.Allowed? <==> b.Allowed?)
    ensures SameSeen(View(EmitInto(c, x, a), watch), View(EmitInto(d, y, b), watch))
  {
    if Issues in watch {
      SameListPush(AsReported, c.issues, d.issues, x, y);
    }
    if SuppressedIssues in watch {
      SameListPush(AsWithheld, c.suppressed, d.suppressed, x, y);
    }
  }

  lemma StepKeepsShown(gate: Gate, p: Program, q: Program, c: Context, d: Context)
    requires Alike(p, q) && GateIgnoresIds(gate) && AgreeOn(p, c.shared, d.shared) && AgreeOnFindings(p, c, d)
    ensures var (p', c') := Step(gate, p, c);
      p'.Some? ==> AgreeOnFindings(p'.value, c', Step(gate, q, d).1)
  {
    var (p', c') := Step(gate, p, c);
    if p'.Some? {
      forall watch | ReadsAll(p'.value, watch) ensures SameSeen(View(c', watch), View(Step(gate, q, d).1, watch)) {
        assert ReadsAll(p, watch);
        StepShowsTheSame(gate, p, q, c, d, watch);
      }
    }
  }

  /** Two runs that see the same values under every key the program may read, and the same
      findings where it looks, report the same findings up to ids. */
  lemma {:induction false} EqualViewsEqualFindings(gate: Gate, p: Program, q: Program, c: Context, d: Context, x: Finding)
    requires Alike(p, q) && GateIgnoresIds(gate) && AgreeOn(p, c.shared, d.shared) && AgreeOnFindings(p, c, d)
    requires Count(c, x) == Count(d, x)
    ensures Count(Exec(gate, p, c), x) == Count(Exec(gate, q, d), x)
    decreases p
  {
    AlikeSteps(gate, p, q, c, d);
    StepAddsFindings(gate, p, c, x);
    StepAddsFindings(gate, q, d, x);
    AlikeRests(gate, p, q, c, d);
    StepKeepsAgreement(gate, p, q, c, d);
    StepKeepsShown(gate, p, q, c, d);
    var ((p', c'), (q', d')) := (Step(gate, p, c), Step(gate, q, d));
    if p'.Some? {
      EqualViewsEqualFindings(gate, p'.value, q'.value, c', d', x);
    }
  }

  /** Two runs that see the same values under every key the program may read, and the same
      findings where it looks, write the same values: under each key they end equal, or neither has changed it. */
  lemma {:induction false} EqualViewsEqualWrites(gate: Gate, p: Program, q: Program, c: Context, d: Context, key: string)
    requires Alike(p, q) && GateIgnoresIds(gate) && AgreeOn(p, c.shared, d.shared) && AgreeOnFindings(p, c, d)
    ensures var c', d' := Exec(gate, p, c), Exec(gate, q, d);
      || Lookup(c'.shared, key) == Lookup(d'.shared, key)
      || (Lookup(c'.shared, key) == Lookup(c.shared, key) && Lookup(d'.shared, key) == Lookup(d.shared, key))
    decreases p
  {
    AlikeRests(gate, p, q, c, d);
    StepKeepsAgreement(gate, p, q, c, d);
    StepKeepsShown(gate, p, q, c, d);
    var ((p', c'), (q', d')) := (Step(gate, p, c), Step(gate, q, d));
    if p'.Some? {
      EqualViewsEqualWrites(gate, p'.value, q'.value, c', d', key);
    }
  }
}
