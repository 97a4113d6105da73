/** The context that analysis passes share, and the programs passes run against it. */
module PassContexts {
  import opened Wrappers

  /** A shared value of any type, tagged with the type it was stored as. */
  datatype Any = Any(typeName: string, content: string)

  datatype Issue = Issue(id: nat, kind: string, symbol: string, caller: Option<string>, description: string)

  datatype EmitOutcome = Allowed(id: nat) | Suppressed(id: nat, reason: string)

  /** The issue gate together with its fallback rules: given an issue and the stored
      resolutions, if any, the reason to suppress the issue, or `None` to let it pass. */
  type Gate = (Issue, Option<Any>) -> Option<string>

  const GATE_KEY := "srt_resolutions"

  /** A diagnostic as a pass adds it, under an id the pass chooses. */
  datatype Diagnostic = Diagnostic(id: nat, text: string)

  datatype FactKind =
    | AllocSite | DeallocSite | TaintSource | TaintSink | FFIBoundary | UnsafeOp
    | PointerDeref | FunctionCall | LockAcquire | LockRelease | ThreadSpawn | CallbackReg

  /** A fact as a pass adds it: the id is the pass's own choice, such as the id of an issue. */
  datatype Fact = Fact(id: nat, kind: FactKind, text: string)

  datatype Context = Context(
    shared: map<string, Any>,
    diagnostics: seq<Diagnostic>,
    facts: seq<Fact>,
    issues: seq<Issue>,
    suppressed: seq<Issue>,
    nextIssueId: nat)

  function Lookup(shared: map<string, Any>, key: string): Option<Any> {
    if key in shared then Some(shared[key]) else None
  }

  /** The parts of a context's findings that a pass can look at separately. */
  datatype Part = Diagnostics | Facts(kind: FactKind) | Issues | SuppressedIssues

  /** What a pass is shown of the findings. */
  datatype Seen = Seen(diagnostics: seq<Diagnostic>, facts: seq<Fact>, issues: seq<Issue>, suppressed: seq<Issue>)

  const NOTHING := Seen([], [], [], [])

  /** The facts whose kind is watched, in order. */
  function FactsIn(facts: seq<Fact>, watch: set<Part>): seq<Fact> {
    if facts == [] then []
    else
      var last := facts[|facts| - 1];
      FactsIn(facts[..|facts| - 1], watch) + (if Facts(last.kind) in watch then [last] else [])
  }

  /** The findings of a context, as far as they are watched. */
  function View(c: Context, watch: set<Part>): Seen {
    Seen(
      if Diagnostics in watch then c.diagnostics else [],
      FactsIn(c.facts, watch),
      if Issues in watch then c.issues else [],
      if SuppressedIssues in watch then c.suppressed else [])
  }

  /** What a pass does to the context it is given, as the tree of its calls: each call that
      returns something branches on the returned value. A pass that has no branch for a value
      stops there. `Read` looks up shared data, `ReadBack` looks at findings. */
  datatype Program =
    | Done
    | Store(key: string, value: Any, next: Program)
    | AddDiagnostic(diagnostic: Diagnostic, next: Program)
    | AddFact(fact: Fact, next: Program)
    | Read(key: string, andThen: imap<Option<Any>, Program>)
    | ReadBack(watch: set<Part>, whenSeen: imap<Seen, Program>)
    | NewId(withId: imap<nat, Program>)
    | Emit(issue: Issue, after: imap<EmitOutcome, Program>)

  function EmitOutcomeOf(gate: Gate, shared: map<string, Any>, issue: Issue): EmitOutcome {
    match gate(issue, Lookup(shared, GATE_KEY))
    case None => Allowed(issue.id)
    case Some(reason) => Suppressed(issue.id, reason)
  }

  function EmitInto(c: Context, issue: Issue, outcome: EmitOutcome): Context {
    if outcome.Allowed? then c.(issues := c.issues + [issue]) else c.(suppressed := c.suppressed + [issue])
  }

  /** The first call of a program: what is left to run, if anything, and the new context. */
  ghost function Step(gate: Gate, p: Program, c: Context): (r: (Option<Program>, Context))
    ensures r.0.Some? ==> (p decreases to r.0.value)
  {
    match p
    case Done => (None, c)
    case Store(k, v, next) => (Some(next), c.(shared := c.shared[k := v]))
    case AddDiagnostic(d, next) => (Some(next), c.(diagnostics := c.diagnostics + [d]))
    case AddFact(f, next) => (Some(next), c.(facts := c.facts + [f]))
    case Read(k, andThen) =>
      var found := Lookup(c.shared, k);
      (if found in andThen then Some(andThen[found]) else None, c)
    case ReadBack(watch, whenSeen) =>
      var seen := View(c, watch);
      (if seen in whenSeen then Some(whenSeen[seen]) else None, c)
    case NewId(withId) =>
      (if c.nextIssueId in withId then Some(withId[c.nextIssueId]) else None,
       c.(nextIssueId := c.nextIssueId + 1))
    case Emit(issue, after) =>
      var outcome := EmitOutcomeOf(gate, c.shared, issue);
      (if outcome in after then Some(after[outcome]) else None, EmitInto(c, issue, outcome))
  }

  /** The context a program leaves behind. */
  ghost function Exec(gate: Gate, p: Program, c: Context): Context
    decreases p
  {
    var (rest, c') := Step(gate, p, c);
    if rest.Some? then Exec(gate, rest.value, c') else c'
  }

  /** A context for a parallel pass: the shared data and the id counter, nothing else. */
  function CloneOf(c: Context): Context {
    Context(c.shared, [], [], [], [], c.nextIssueId)
  }

  /** Findings are appended, shared data overwritten key by key, and the id counter advanced. */
  function MergeInto(c: Context, other: Context): Context {
    Context(
      c.shared + other.shared,
      c.diagnostics + other.diagnostics,
      c.facts + other.facts,
      c.issues + other.issues,
      c.suppressed + other.suppressed,
      if other.nextIssueId > c.nextIssueId then other.nextIssueId else c.nextIssueId)
  }

  /** `c` with the findings of `other` appended and its shared data and counter taken over. */
  function Continue(c: Context, other: Context): Context {
    Context(
      other.shared,
      c.diagnostics + other.diagnostics,
      c.facts + other.facts,
      c.issues + other.issues,
      c.suppressed + other.suppressed,
      other.nextIssueId)
  }

  // ----- Programs that do not look at earlier findings -----

  ghost predicate NeverReadsBack(p: Program, part: Part)
    decreases p
  {
    match p
    case Done => true
    case Store(_, _, next) => NeverReadsBack(next, part)
    case AddDiagnostic(_, next) => NeverReadsBack(next, part)
    case AddFact(_, next) => NeverReadsBack(next, part)
    case Read(_, andThen) => forall found :: found in andThen ==> NeverReadsBack(andThen[found], part)
    case ReadBack(watch, whenSeen) =>
      part !in watch && forall seen :: seen in whenSeen ==> NeverReadsBack(whenSeen[seen], part)
    case NewId(withId) => forall id :: id in withId ==> NeverReadsBack(withId[id], part)
    case Emit(_, after) => forall outcome :: outcome in after ==> NeverReadsBack(after[outcome], part)
  }

  /** The context has no finding of this part. */
  ghost predicate Lacks(c: Context, part: Part) {
    match part
    case Diagnostics => c.diagnostics == []
    case Facts(kind) => forall i :: 0 <= i < |c.facts| ==> c.facts[i].kind != kind
    case Issues => c.issues == []
    case SuppressedIssues => c.suppressed == []
  }

  /** No finding of the context is one the program may look at. */
  ghost predicate Unseen(p: Program, c: Context) {
    forall part :: !NeverReadsBack(p, part) ==> Lacks(c, part)
  }

  lemma {:induction false} FactsInConcat(a: seq<Fact>, b: seq<Fact>, watch: set<Part>)
    ensures FactsIn(a + b, watch) == FactsIn(a, watch) + FactsIn(b, watch)
  {
    if b == [] {
      assert a + b == a;
    } else {
      FactsInConcat(a, b[..|b| - 1], watch);
      assert (a + b)[..|a + b| - 1] == a + b[..|b| - 1];
    }
  }

  lemma {:induction false} NoFactsIn(facts: seq<Fact>, watch: set<Part>)
    ensures FactsIn(facts, watch) == [] <==> forall i :: 0 <= i < |facts| ==> Facts(facts[i].kind) !in watch
  {
    if facts != [] {
      NoFactsIn(facts[..|facts| - 1], watch);
    }
  }

  /** A view shows nothing exactly when the context lacks every watched part. */
  lemma NothingSeen(c: Context, watch: set<Part>)
    ensures View(c, watch) == NOTHING <==> forall part :: part in watch ==> Lacks(c, part)
  {
    NoFactsIn(c.facts, watch);
    if forall part :: part in watch ==> Lacks(c, part) {
      forall i | 0 <= i < |c.facts| ensures Facts(c.facts[i].kind) !in watch {
        assert !Lacks(c, Facts(c.facts[i].kind));
      }
    }
  }

  lemma ViewOfContinued(base: Context, c: Context, watch: set<Part>)
    requires forall part :: part in watch ==> Lacks(base, part)
    ensures View(Continue(base, c), watch) == View(c, watch)
  {
    NothingSeen(base, watch);
    FactsInConcat(base.facts, c.facts, watch);
  }

  lemma StepAppends(gate: Gate, p: Program, base: Context, c: Context)
    requires Unseen(p, base)
    ensures Step(gate, p, Continue(base, c)).0 == Step(gate, p, c).0
    ensures Step(gate, p, Continue(base, c)).1 == Continue(base, Step(gate, p, c).1)
    ensures Step(gate, p, c).0.Some? ==> Unseen(Step(gate, p, c).0.value, base)
  {
    if p.ReadBack? {
      forall part | part in p.watch ensures Lacks(base, part) {
        assert !NeverReadsBack(p, part);
      }
      ViewOfContinued(base, c, p.watch);
    }
  }

  ghost predicate GoesOn<T(!new)>(branches: imap<T, Program>, result: T, rest: Option<Program>) {
    if result in branches then rest == Some(branches[result]) else rest == None
  }

  /** Shared data, counter, diagnostics and facts are the same. */
  predicate SameButIssues(c: Context, c': Context) {
    c'.shared == c.shared && c'.nextIssueId == c.nextIssueId && c'.diagnostics == c.diagnostics && c'.facts == c.facts
  }

  /** What a call does to the context, and how its result decides what is left to run: a stored
      value replaces the one under its key, findings go to the end of their lists, ids are
      counted up, a look at findings shows the watched lists and the facts of the watched
      kinds, and an issue is filed as the gate decides, given the stored resolutions. */
  ghost predicate TakesEffect(gate: Gate, p: Program, c: Context, rest: Option<Program>, c': Context) {
    match p
    case Done => rest == None && c' == c
    case Store(k, v, next) =>
      && rest == Some(next) && c'.shared == c.shared[k := v] && c'.nextIssueId == c.nextIssueId
      && c'.diagnostics == c.diagnostics && c'.facts == c.facts && c'.issues == c.issues && c'.suppressed == c.suppressed
    case AddDiagnostic(d, next) => rest == Some(next) && c' == c.(diagnostics := c.diagnostics + [d])
    case AddFact(f, next) => rest == Some(next) && c' == c.(facts := c.facts + [f])
    case Read(k, andThen) => c' == c && GoesOn(andThen, if k in c.shared then Some(c.shared[k]) else None, rest)
    case ReadBack(watch, whenSeen) => c' == c && exists seen :: Shows(c, watch, seen) && GoesOn(whenSeen, seen, rest)
    case NewId(withId) =>
      c' == c.(nextIssueId := c.nextIssueId + 1) && GoesOn(withId, c.nextIssueId, rest)
    case Emit(issue, after) =>
      var stored := if "srt_resolutions" in c.shared then Some(c.shared["srt_resolutions"]) else None;
      && SameButIssues(c, c')
      && match gate(issue, stored) {
           case None => c'.issues == c.issues + [issue] && c'.suppressed == c.suppressed && GoesOn(after, Allowed(issue.id), rest)
           case Some(reason) =>
             c'.issues == c.issues && c'.suppressed == c.suppressed + [issue] && GoesOn(after, Suppressed(issue.id, reason), rest)
         }
  }

  /** The watched lists, and of the facts those of a watched kind, in order. */
  ghost predicate Shows(c: Context, watch: set<Part>, seen: Seen) {
    && seen.diagnostics == (if Diagnostics in watch then c.diagnostics else [])
    && seen.issues == (if Issues in watch then c.issues else [])
    && seen.suppressed == (if SuppressedIssues in watch then c.suppressed else [])
    && exists at: seq<nat> :: PicksFacts(c.facts, watch, seen.facts, at)
  }

  ghost predicate PicksFacts(facts: seq<Fact>, watch: set<Part>, shown: seq<Fact>, at: seq<nat>) {
    && |at| == |shown| && (forall i, j :: 0 <= i < j < |at| ==> at[i] < at[j])
    && (forall i :: 0 <= i < |at| ==> at[i] < |facts| && shown[i] == facts[at[i]] && Facts(shown[i].kind) in watch)
    && (forall p: nat :: p < |facts| && Facts(facts[p].kind) in watch ==> p in at)
  }

  lemma SkipFact(facts: seq<Fact>, watch: set<Part>, shown: seq<Fact>, at: seq<nat>)
    requires facts != [] && PicksFacts(facts[..|facts| - 1], watch, shown, at) && Facts(facts[|facts| - 1].kind) !in watch
    ensures PicksFacts(facts, watch, shown, at)
  {
    var front := facts[..|facts| - 1];
    forall i | 0 <= i < |at| ensures shown[i] == facts[at[i]] {
      assert front[at[i]] == facts[at[i]];
    }
    forall p: nat | p < |facts| && Facts(facts[p].kind) in watch ensures p in at {
      assert front[p] == facts[p];
    }
  }

  lemma PickFact(facts: seq<Fact>, watch: set<Part>, shown: seq<Fact>, at: seq<nat>)
    requires facts != [] && PicksFacts(facts[..|facts| - 1], watch, shown, at) && Facts(facts[|facts| - 1].kind) in watch
    ensures PicksFacts(facts, watch, shown + [facts[|facts| - 1]], at + [|facts| - 1])
  {
    var front, longer := facts[..|facts| - 1], at + [|facts| - 1];
    forall i | 0 <= i < |at| ensures shown[i] == facts[at[i]] {
      assert front[at[i]] == facts[at[i]];
    }
    forall p: nat | p < |facts| && Facts(facts[p].kind) in watch ensures p in longer {
      if p < |front| {
        assert front[p] == facts[p];
        assert p in at;
      } else {
        assert longer[|at|] == p;
      }
    }
  }

  lemma NextFactPicked(facts: seq<Fact>, watch: set<Part>, at: seq<nat>) returns (longer: seq<nat>)
    requires facts != [] && var front := facts[..|facts| - 1]; PicksFacts(front, watch, FactsIn(front, watch), at)
    ensures PicksFacts(facts, watch, FactsIn(facts, watch), longer)
  {
    var shown := FactsIn(facts[..|facts| - 1], watch);
    if Facts(facts[|facts| - 1].kind) in watch {
      PickFact(facts, watch, shown, at);
      longer := at + [|facts| - 1];
    } else {
      SkipFact(facts, watch, shown, at);
      longer := at;
      assert shown + [] == shown;
    }
  }

  lemma {:induction false} FactsInArePicked(facts: seq<Fact>, watch: set<Part>) returns (at: seq<nat>)
    ensures PicksFacts(facts, watch, FactsIn(facts, watch), at)
  {
    if facts == [] {
      at := [];
    } else {
      var before := FactsInArePicked(facts[..|facts| - 1], watch);
      at := NextFactPicked(facts, watch, before);
    }
  }

  lemma StepTakesEffect(gate: Gate, p: Program, c: Context)
    ensures TakesEffect(gate, p, c, Step(gate, p, c).0, Step(gate, p, c).1)
  {
    if p.ReadBack? {
      var at := FactsInArePicked(c.facts, p.watch);
      assert Shows(c, p.watch, View(c, p.watch));
    }
  }

  /** A program only appends findings; what it does depends on the shared data, the counter and
      the findings it looks at. */
  lemma {:induction false} ExecAppends(gate: Gate, p: Program, base: Context, c: Context)
    requires Unseen(p, base)
    ensures Exec(gate, p, Continue(base, c)) == Continue(base, Exec(gate, p, c))
    decreases p
  {
    StepAppends(gate, p, base, c);
    var (rest, c') := Step(gate, p, c);
    if rest.Some? {
      ExecAppends(gate, rest.value, base, c');
    }
  }

  /** A program never forgets a key and never lowers the id counter. */
  lemma {:induction false} ExecGrows(gate: Gate, p: Program, c: Context)
    ensures c.shared.Keys <= Exec(gate, p, c).shared.Keys
    ensures c.nextIssueId <= Exec(gate, p, c).nextIssueId
    decreases p
  {
    var (rest, c') := Step(gate, p, c);
    if rest.Some? {
      ExecGrows(gate, rest.value, c');
    }
  }

  /** For a pass that looks at none of the findings there are, running on the main context is
      the same as running on a clone and merging. */
  lemma CloneRunMerge(gate: Gate, p: Program, c: Context)
    requires Unseen(p, c)
    ensures MergeInto(c, Exec(gate, p, CloneOf(c))) == Exec(gate, p, c)
  {
    ExecAppends(gate, p, c, CloneOf(c));
    ExecGrows(gate, p, CloneOf(c));
    assert Continue(c, CloneOf(c)) == c;
    var alone := Exec(gate, p, CloneOf(c));
    assert c.shared + alone.shared == alone.shared;
  }

  /** The program looks at these parts at most. */
  ghost predicate ReadsBackOnly(p: Program, watch: set<Part>) {
    forall part :: part !in watch ==> NeverReadsBack(p, part)
  }

  const NOTED := Diagnostic(0, "seen")

  function Noting(seen: Seen): Program {
    if seen == NOTHING then Done else AddDiagnostic(NOTED, Done)
  }

  /** Adds a diagnostic if there is a finding of a watched part. */
  ghost function Peek(watch: set<Part>): Program {
    ReadBack(watch, imap seen: Seen | true :: Noting(seen))
  }

  lemma PeekRuns(gate: Gate, watch: set<Part>, c: Context)
    ensures Exec(gate, Peek(watch), c) ==
      if View(c, watch) == NOTHING then c else c.(diagnostics := c.diagnostics + [NOTED])
  {
    assert Step(gate, Peek(watch), c) == (Some(Noting(View(c, watch))), c);
    if View(c, watch) != NOTHING {
      var noted := c.(diagnostics := c.diagnostics + [NOTED]);
      assert Step(gate, Noting(View(c, watch)), c) == (Some(Done), noted);
      assert Exec(gate, Done, noted) == noted;
    }
  }

  /** Clone, run and merge does the same as running on the context itself, for all passes that
      look at the watched parts at most, exactly when the context has no finding of them. */
  lemma CloneRunMergeIffUnseen(gate: Gate, watch: set<Part>, c: Context)
    ensures (forall p :: ReadsBackOnly(p, watch) ==> MergeInto(c, Exec(gate, p, CloneOf(c))) == Exec(gate, p, c))
            <==> forall part :: part in watch ==> Lacks(c, part)
  {
    if forall part :: part in watch ==> Lacks(c, part) {
      forall p | ReadsBackOnly(p, watch) ensures MergeInto(c, Exec(gate, p, CloneOf(c))) == Exec(gate, p, c) {
        CloneRunMerge(gate, p, c);
      }
    } else {
      NothingSeen(c, watch);
      NothingSeen(CloneOf(c), watch);
      PeekRuns(gate, watch, c);
      PeekRuns(gate, watch, CloneOf(c));
      assert forall part :: part !in watch ==> NeverReadsBack(Peek(watch), part);
      assert |MergeInto(c, CloneOf(c)).diagnostics| == |c.diagnostics|;
    }
  }

  class PassContext {
    var shared: map<string, Any>
    var diagnostics: seq<Diagnostic>
    var facts: seq<Fact>
    var issues: seq<Issue>
    var suppressedIssues: seq<Issue>
    var nextId: nat

    constructor ()
      ensures State() == Context(map[], [], [], [], [], 1)
    {
      shared, diagnostics, facts, issues, suppressedIssues, nextId := map[], [], [], [], [], 1;
    }

    function State(): Context
      reads this
    {
      Context(shared, diagnostics, facts, issues, suppressedIssues, nextId)
    }

    method Store(key: string, value: Any)
      modifies this
      ensures State() == old(State()).(shared := old(shared)[key := value])
    {
      shared := shared[key := value];
    }

    /** The stored value, provided it was stored as the type asked for. */
    function GetAs(key: string, typeName: string): Option<Any>
      reads this
    {
      if key in shared && shared[key].typeName == typeName then Some(shared[key]) else None
    }

    method AddDiagnostic(diagnostic: Diagnostic)
      modifies this
      ensures State() == old(State()).(diagnostics := old(diagnostics) + [diagnostic])
    {
      diagnostics := diagnostics + [diagnostic];
    }

    method AddFact(fact: Fact)
      modifies this
      ensures State() == old(State()).(facts := old(facts) + [fact])
    {
      facts := facts + [fact];
    }

    /** Hands out an id that was never handed out by this context before. */
    method NextIssueId() returns (id: nat)
      modifies this
      ensures id == old(nextId) && State() == old(State()).(nextIssueId := id + 1)
    {
      id := nextId;
      nextId := nextId + 1;
    }

    /** Files the issue under exactly one of the two lists, as the gate decides. */
    method EmitIssue(gate: Gate, issue: Issue) returns (outcome: EmitOutcome)
      modifies this
      ensures outcome == EmitOutcomeOf(gate, old(shared), issue)
      ensures State() == EmitInto(old(State()), issue, outcome)
      ensures var stored := if "srt_resolutions" in old(shared) then Some(old(shared)["srt_resolutions"]) else None;
        match gate(issue, stored) {
          case None =>
            outcome == Allowed(issue.id) && issues == old(issues) + [issue] && suppressedIssues == old(suppressedIssues)
          case Some(reason) =>
            outcome == Suppressed(issue.id, reason) && issues == old(issues) && suppressedIssues == old(suppressedIssues) + [issue]
        }
      ensures unchanged(`shared) && unchanged(`diagnostics) && unchanged(`facts) && unchanged(`nextId)
    {
      var reason := gate(issue, Lookup(shared, GATE_KEY));
      if reason.Some? {
        suppressedIssues := suppressedIssues + [issue];
        return Suppressed(issue.id, reason.value);
      }
      issues := issues + [issue];
      outcome := Allowed(issue.id);
    }

    /** A fresh context for a parallel pass. */
    method CloneForParallel() returns (c: PassContext)
      ensures fresh(c) && c.State() == CloneOf(State())
      ensures c.shared == shared && c.nextId == nextId
      ensures c.diagnostics == [] && c.facts == [] && c.issues == [] && c.suppressedIssues == []
    {
      c := new PassContext();
      c.shared := shared;
      c.nextId := nextId;
    }

    /** Folds another context into this one. */
    method Merge(other: PassContext)
      requires other != this
      modifies this
      ensures State() == MergeInto(old(State()), old(other.State()))
      ensures diagnostics == old(diagnostics) + other.diagnostics && facts == old(facts) + other.facts
      ensures issues == old(issues) + other.issues && suppressedIssues == old(suppressedIssues) + other.suppressedIssues
      ensures shared.Keys == old(shared).Keys + other.shared.Keys
      ensures forall key :: key in other.shared ==> shared[key] == other.shared[key]
      ensures forall key :: key in old(shared) && key !in other.shared ==> shared[key] == old(shared)[key]
      ensures nextId == if other.nextId > old(nextId) then other.nextId else old(nextId)
    {
      issues := issues + other.issues;
      suppressedIssues := suppressedIssues + other.suppressedIssues;
      diagnostics := diagnostics + other.diagnostics;
      facts := facts + other.facts;
      shared := shared + other.shared;
      if other.nextId > nextId {
        nextId := other.nextId;
      }
    }

    /** Runs a pass body call by call. */
    method Run(gate: Gate, p: Program)
      modifies this
      ensures State() == Exec(gate, p, old(State()))
      decreases p
    {
      match p
      case Done =>
      case Store(k, v, next) =>
        Store(k, v);
        Run(gate, next);
      case AddDiagnostic(d, next) =>
        AddDiagnostic(d);
        Run(gate, next);
      case AddFact(f, next) =>
        AddFact(f);
        Run(gate, next);
      case Read(k, andThen) =>
        var found := Lookup(shared, k);
        if found in andThen {
          Run(gate, andThen[found]);
        }
      case ReadBack(watch, whenSeen) =>
        var seen := View(State(), watch);
        if seen in whenSeen {
          Run(gate, whenSeen[seen]);
        }
      case NewId(withId) =>
        var id := NextIssueId();
        if id in withId {
          Run(gate, withId[id]);
        }
      case Emit(issue, after) =>
        var outcome := EmitIssue(gate, issue);
        if outcome in after {
          Run(gate, after[outcome]);
        }
    }
  }
}
