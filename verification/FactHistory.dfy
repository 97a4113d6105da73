/** What calls on the fact store achieve, over whole interleavings. */
module FactHistories {
  import opened Sequences
  import opened FactStores

  // A history is a sequence of steps of any threads. What a call promises is stated by the states
  // in which it begins and ends, whatever the other threads do in between.

  type History = seq<(Thread, Action)>

  /** The store after a history. */
  ghost function After(history: History): Store {
    Run(EMPTY, history)
  }

  lemma AfterStep(history: History, step: (Thread, Action))
    ensures var before := After(history);
      After(history + [step]) ==
        if Do(before, step.0, step.1).Some? then Do(before, step.0, step.1).value else before
  {
    assert (history + [step])[..|history|] == history;
  }

  /** Idle threads, and only they, can start a call; busy threads, and only they, can go on. */
  lemma StepIsPossible(s: Store, t: Thread, a: Action)
    ensures Do(s, t, a).Some? <==> (a.Continue? <==> !PcOf(s, t).Idle?)
  {
  }

  lemma TakeLast(start: History, more: History)
    requires more != []
    ensures start + more == start + more[..|more| - 1] + [more[|more| - 1]]
  {
  }

  // ----- Queries -----

  /** Thread `t` is in a query throughout `more`. */
  ghost predicate StaysInQuery(start: History, more: History, t: Thread) {
    forall i :: 0 <= i <= |more| ==> PcOf(After(start + more[..i]), t).Look?
  }

  predicate HasLookedUpAll(pc: Pc) {
    pc.Look? && pc.pending == []
  }

  lemma StaysInFront(start: History, more: History, t: Thread)
    requires more != [] && StaysInQuery(start, more, t)
    ensures StaysInQuery(start, more[..|more| - 1], t)
    ensures PcOf(After(start + more[..|more| - 1]), t).Look? && PcOf(After(start + more), t).Look?
  {
    var front := more[..|more| - 1];
    forall i | 0 <= i <= |front| ensures PcOf(After(start + front[..i]), t).Look? {
      assert front[..i] == more[..i];
    }
    assert more[..|more|] == more;
  }

  /** A step that leaves a thread in its query keeps what the query looks for. */
  lemma StepKeepsQuery(s: Store, t: Thread, step: (Thread, Action))
    requires PcOf(s, t).Look? && Do(s, step.0, step.1).Some? && PcOf(Do(s, step.0, step.1).value, t).Look?
    ensures var before, after := PcOf(s, t), PcOf(Do(s, step.0, step.1).value, t);
      && after.axis == before.axis && after.key == before.key && after.owed == before.owed
      && (after.found == before.found
          || exists id :: id in s.facts && after.found == before.found + [(id, s.facts[id])])
  {
    if step.0 != t {
      OthersLeaveThread(s, t, step);
    }
  }

  lemma {:induction false} QueryKeepsAim(start: History, more: History, t: Thread)
    requires StaysInQuery(start, more, t)
    ensures PcOf(After(start), t).Look? && PcOf(After(start + more), t).Look?
    ensures var first, last := PcOf(After(start), t), PcOf(After(start + more), t);
      last.axis == first.axis && last.key == first.key && last.owed == first.owed
  {
    if more == [] {
      assert start + more == start && start + more[..0] == start;
    } else {
      StaysInFront(start, more, t);
      QueryKeepsAim(start, more[..|more| - 1], t);
      var before := start + more[..|more| - 1];
      TakeLast(start, more);
      AfterStep(before, more[|more| - 1]);
      if Do(After(before), more[|more| - 1].0, more[|more| - 1].1).Some? {
        StepKeepsQuery(After(before), t, more[|more| - 1]);
      }
    }
  }

  lemma QueryBegins(steps: History, t: Thread, axis: Axis, key: string)
    requires PcOf(After(steps), t).Idle?
    ensures var query := PcOf(After(steps + [(t, StartQuery(axis, key))]), t);
      && query.Look? && query.axis == axis && query.key == key && query.found == []
      && forall id :: id in query.owed <==> id in After(steps).facts && Label(axis, After(steps).facts[id]) == key
  {
    AfterStep(steps, (t, StartQuery(axis, key)));
  }

  lemma StepKeepsIssued(s: Store, step: (Thread, Action), id: Id)
    requires id in s.issued && s.nextId !in s.issued && Do(s, step.0, step.1).Some?
    ensures var s' := Do(s, step.0, step.1).value;
      id in s'.issued && s'.issued[id] == s.issued[id]
  {
  }

  /** The fact of an id never changes. */
  lemma {:induction false} FactsAreFixed(start: History, more: History, id: Id)
    requires id in After(start).issued
    ensures id in After(start + more).issued && After(start + more).issued[id] == After(start).issued[id]
  {
    if more == [] {
      assert start + more == start;
    } else {
      var before, step := start + more[..|more| - 1], more[|more| - 1];
      FactsAreFixed(start, more[..|more| - 1], id);
      TakeLast(start, more);
      AfterStep(before, step);
      NextIdIsFresh(before);
      if Do(After(before), step.0, step.1).Some? {
        StepKeepsIssued(After(before), step, id);
      }
    }
  }

  lemma StoredIsIssued(steps: History, id: Id)
    requires id in After(steps).facts
    ensures id in After(steps).issued && After(steps).issued[id] == After(steps).facts[id]
  {
    RunKeepsInv(steps);
    assert StoredOk(After(steps));
  }

  lemma StoredStaysSame(start: History, more: History, id: Id)
    requires id in After(start).facts && id in After(start + more).facts
    ensures After(start + more).facts[id] == After(start).facts[id]
  {
    StoredIsIssued(start, id);
    StoredIsIssued(start + more, id);
    FactsAreFixed(start, more, id);
  }

  /** Until its end a query owes what was stored under its key when it began. */
  lemma StillOwed(steps: History, t: Thread, axis: Axis, key: string, more: History, id: Id)
    requires PcOf(After(steps), t).Idle? && StaysInQuery(steps + [(t, StartQuery(axis, key))], more, t)
    requires id in After(steps).facts && Label(axis, After(steps).facts[id]) == key
    ensures var query := PcOf(After(steps + [(t, StartQuery(axis, key))] + more), t);
      query.Look? && id in query.owed
  {
    QueryBegins(steps, t, axis, key);
    QueryKeepsAim(steps + [(t, StartQuery(axis, key))], more, t);
  }

  /** A query that has looked up everything has found every fact of its key that was stored when
      it began and still is. */
  lemma QueryFindsAll(steps: History, t: Thread, axis: Axis, key: string, more: History, id: Id)
    requires PcOf(After(steps), t).Idle? && StaysInQuery(steps + [(t, StartQuery(axis, key))], more, t)
    requires HasLookedUpAll(PcOf(After(steps + [(t, StartQuery(axis, key))] + more), t))
    requires id in After(steps).facts && Label(axis, After(steps).facts[id]) == key
    requires id in After(steps + [(t, StartQuery(axis, key))] + more).facts
    ensures var end := After(steps + [(t, StartQuery(axis, key))] + more);
      end.facts[id] == After(steps).facts[id] && (id, end.facts[id]) in PcOf(end, t).found
  {
    var rest := [(t, StartQuery(axis, key))] + more;
    assert steps + rest == steps + [(t, StartQuery(axis, key))] + more;
    StillOwed(steps, t, axis, key, more, id);
    StoredStaysSame(steps, rest, id);
    QueryAnswers(steps + rest, t);
  }

  /** Fact `f` was stored under `id` at some moment of `more`. */
  ghost predicate StoredDuring(start: History, more: History, id: Id, f: Fact) {
    exists i :: 0 <= i <= |more| && id in After(start + more[..i]).facts && After(start + more[..i]).facts[id] == f
  }

  lemma DuringFront(start: History, more: History, id: Id, f: Fact)
    requires more != [] && StoredDuring(start, more[..|more| - 1], id, f)
    ensures StoredDuring(start, more, id, f)
  {
    var front := more[..|more| - 1];
    var i :| 0 <= i <= |front| && id in After(start + front[..i]).facts && After(start + front[..i]).facts[id] == f;
    assert front[..i] == more[..i];
  }

  lemma {:induction false} FoundWasStored(start: History, more: History, t: Thread, e: (Id, Fact))
    requires StaysInQuery(start, more, t) && PcOf(After(start), t).Look? && PcOf(After(start), t).found == []
    requires PcOf(After(start + more), t).Look? && e in PcOf(After(start + more), t).found
    ensures StoredDuring(start, more, e.0, e.1)
  {
    assert start + [] == start;
    if more != [] {
      StaysInFront(start, more, t);
      var front, step := more[..|more| - 1], more[|more| - 1];
      var before := start + front;
      TakeLast(start, more);
      AfterStep(before, step);
      if e in PcOf(After(before), t).found {
        FoundWasStored(start, front, t, e);
        DuringFront(start, more, e.0, e.1);
      } else {
        StepKeepsQuery(After(before), t, step);
        assert start + more[..|more| - 1] == before;
      }
    }
  }

  /** Whatever a query has found has its key and was stored at some moment of the query, and no
      id is found twice. */
  lemma QueryFindsOnly(steps: History, t: Thread, axis: Axis, key: string, more: History)
    requires PcOf(After(steps), t).Idle? && StaysInQuery(steps + [(t, StartQuery(axis, key))], more, t)
    requires HasLookedUpAll(PcOf(After(steps + [(t, StartQuery(axis, key))] + more), t))
    ensures var start := steps + [(t, StartQuery(axis, key))];
      var found := PcOf(After(start + more), t).found;
      && (forall e :: e in found ==> Label(axis, e.1) == key && StoredDuring(start, more, e.0, e.1))
      && (forall i, j :: 0 <= i < j < |found| ==> found[i].0 != found[j].0)
  {
    var start := steps + [(t, StartQuery(axis, key))];
    var found := PcOf(After(start + more), t).found;
    QueryBegins(steps, t, axis, key);
    QueryKeepsAim(start, more, t);
    QueryAnswers(start + more, t);
    forall e | e in found ensures StoredDuring(start, more, e.0, e.1) {
      FoundWasStored(start, more, t, e);
    }
    forall i, j | 0 <= i < j < |found| ensures found[i].0 != found[j].0 {
      assert FoundIds(found)[i] != FoundIds(found)[j];
    }
  }

  // ----- Adding and removing -----

  /** How many steps thread `t` takes. */
  function Turns(more: History, t: Thread): nat {
    if more == [] then 0
    else Turns(more[..|more| - 1], t) + (if more[|more| - 1].0 == t then 1 else 0)
  }

  /** Thread `t` goes on with its call and starts no other. */
  ghost predicate GoesOn(more: History, t: Thread) {
    forall i :: 0 <= i < |more| && more[i].0 == t ==> more[i].1 == Continue
  }

  ghost predicate RemovedIn(more: History, id: Id) {
    exists i :: 0 <= i < |more| && more[i].1 == StartRemove(id)
  }

  /** Where the call stands after `turns` of its own steps. */
  function Stage(turns: nat, id: Id, fact: Fact): Pc {
    if turns == 0 then PushKind(id, fact)
    else if turns == 1 then PushFile(id, fact)
    else if turns == 2 then Insert(id, fact)
    else Idle
  }

  ghost predicate Holds(s: Store, id: Id, fact: Fact) {
    id in s.facts && s.facts[id] == fact
  }

  /** Another step keeps a stored fact, unless it removes it. */
  lemma StepKeepsFact(s: Store, step: (Thread, Action), id: Id, fact: Fact)
    requires Inv(s) && Holds(s, id, fact) && Do(s, step.0, step.1).Some? && step.1 != StartRemove(id)
    ensures Holds(Do(s, step.0, step.1).value, id, fact)
  {
    assert ThreadOk(s, step.0);
  }

  /** The call of `add` stands where its own steps have brought it. */
  ghost predicate AddStands(s: Store, t: Thread, id: Id, fact: Fact, more: History) {
    && PcOf(s, t) == Stage(Turns(more, t), id, fact)
    && (Turns(more, t) >= 3 ==> Holds(s, id, fact) || RemovedIn(more, id))
  }

  lemma RemovalStays(more: History, step: (Thread, Action), id: Id)
    ensures RemovedIn(more + [step], id) <==> RemovedIn(more, id) || step.1 == StartRemove(id)
  {
    var longer := more + [step];
    if RemovedIn(more, id) {
      var i :| 0 <= i < |more| && more[i].1 == StartRemove(id);
      assert longer[i].1 == StartRemove(id);
    }
    assert longer[|more|] == step;
  }

  lemma TurnsGrow(more: History, step: (Thread, Action), t: Thread)
    ensures Turns(more + [step], t) == Turns(more, t) + (if step.0 == t then 1 else 0)
  {
    assert (more + [step])[..|more|] == more;
  }

  lemma OthersLeaveThread(s: Store, t: Thread, step: (Thread, Action))
    requires step.0 != t && Do(s, step.0, step.1).Some?
    ensures PcOf(Do(s, step.0, step.1).value, t) == PcOf(s, t)
  {
  }

  lemma OwnStage(s: Store, t: Thread, id: Id, fact: Fact, turns: nat)
    requires PcOf(s, t) == Stage(turns, id, fact) && turns < 3
    ensures Do(s, t, Continue).Some?
    ensures PcOf(Do(s, t, Continue).value, t) == Stage(turns + 1, id, fact)
    ensures turns == 2 ==> Holds(Do(s, t, Continue).value, id, fact)
  {
  }

  /** The next stage, and at the last one the fact. */
  lemma AddStages(s: Store, t: Thread, id: Id, fact: Fact, turns: nat, step: (Thread, Action))
    requires PcOf(s, t) == Stage(turns, id, fact) && (step.0 == t ==> step.1 == Continue)
    ensures var s' := if Do(s, step.0, step.1).Some? then Do(s, step.0, step.1).value else s;
      && PcOf(s', t) == Stage(if step.0 == t then turns + 1 else turns, id, fact)
      && (step.0 == t && turns == 2 ==> Holds(s', id, fact))
  {
    if step.0 == t {
      if turns < 3 {
        OwnStage(s, t, id, fact, turns);
      } else {
        StepIsPossible(s, t, Continue);
      }
    } else if Do(s, step.0, step.1).Some? {
      OthersLeaveThread(s, t, step);
    }
  }

  lemma AddTakesStep(s: Store, t: Thread, id: Id, fact: Fact, more: History, step: (Thread, Action))
    requires Inv(s) && AddStands(s, t, id, fact, more) && (step.0 == t ==> step.1 == Continue)
    ensures AddStands(if Do(s, step.0, step.1).Some? then Do(s, step.0, step.1).value else s, t, id, fact, more + [step])
  {
    TurnsGrow(more, step, t);
    AddStages(s, t, id, fact, Turns(more, t), step);
    RemovalStays(more, step, id);
    if step.1 != StartRemove(id) && Holds(s, id, fact) && Do(s, step.0, step.1).Some? {
      StepKeepsFact(s, step, id, fact);
    }
  }

  lemma {:induction false} AddProceeds(steps: History, t: Thread, fact: Fact, more: History)
    requires PcOf(After(steps), t).Idle? && GoesOn(more, t)
    ensures AddStands(After(steps + [(t, StartAdd(fact))] + more), t, After(steps).nextId, fact, more)
  {
    var start, id := steps + [(t, StartAdd(fact))], After(steps).nextId;
    if more == [] {
      AfterStep(steps, (t, StartAdd(fact)));
      assert start + more == start;
    } else {
      var front, step := more[..|more| - 1], more[|more| - 1];
      AddProceeds(steps, t, fact, front);
      RunKeepsInv(start + front);
      TakeLast(start, more);
      AfterStep(start + front, step);
      AddTakesStep(After(start + front), t, id, fact, front, step);
      assert front + [step] == more;
    }
  }

  /** An `add` that has taken its steps has stored its fact under a fresh id, whatever other
      threads did in between, unless that id was removed. */
  lemma AddStores(steps: History, t: Thread, fact: Fact, more: History)
    requires PcOf(After(steps), t).Idle? && GoesOn(more, t) && Turns(more, t) >= 3
    ensures var id, end := After(steps).nextId, After(steps + [(t, StartAdd(fact))] + more);
      && id !in After(steps).issued && PcOf(end, t).Idle?
      && ((id in end.facts && end.facts[id] == fact) || exists i :: 0 <= i < |more| && more[i].1 == StartRemove(id))
  {
    AddProceeds(steps, t, fact, more);
    NextIdIsFresh(steps);
  }

  /** A removed fact is gone from the first step of `remove` on, for good. */
  lemma RemoveRemoves(steps: History, t: Thread, id: Id, more: History)
    requires PcOf(After(steps), t).Idle? && id in After(steps).facts
    ensures id !in After(steps + [(t, StartRemove(id))] + more).facts
  {
    RunKeepsInv(steps);
    StoredIsIssued(steps, id);
    AfterStep(steps, (t, StartRemove(id)));
    var s, s' := After(steps), After(steps + [(t, StartRemove(id))]);
    forall u | Adding(PcOf(s', u)) ensures PcOf(s', u).id != id {
      assert ThreadOk(s, u);
    }
    RemovedForGood(steps + [(t, StartRemove(id))], more, id);
  }

  // ----- The order of the indexes -----

  /** An id goes to the end of its list; other lists stay. */
  lemma PushAppends(index: Index, key: string, id: Id, other: string)
    ensures Ids(Push(index, key, id), other) == Ids(index, other) + (if other == key then [id] else [])
  {
  }

  lemma {:induction false} WithoutAbsent(ids: seq<Id>, id: Id)
    requires id !in ids
    ensures Without(ids, id) == ids
  {
    if ids != [] {
      WithoutAbsent(ids[..|ids| - 1], id);
      assert ids[..|ids| - 1] + [ids[|ids| - 1]] == ids;
    }
  }

  /** Taking an id out of its list keeps the order of the rest; other lists stay. */
  lemma {:induction false} WithoutKeepsOrder(ids: seq<Id>, id: Id, p: nat)
    requires Distinct(ids) && p < |ids| && ids[p] == id
    ensures Without(ids, id) == ids[..p] + ids[p + 1..]
  {
    var n := |ids| - 1;
    if p == n {
      WithoutAbsent(ids[..n], id);
    } else {
      WithoutKeepsOrder(ids[..n], id, p);
      assert ids[..n][..p] + ids[..n][p + 1..] + [ids[n]] == ids[..p] + ids[p + 1..];
    }
  }

  lemma RetainKeepsOrder(index: Index, key: string, id: Id, other: string, p: nat)
    requires Distinct(Ids(index, key)) && p < |Ids(index, key)| && Ids(index, key)[p] == id
    ensures Ids(Retain(index, key, id), other)
         == if other == key then Ids(index, key)[..p] + Ids(index, key)[p + 1..] else Ids(index, other)
  {
    WithoutKeepsOrder(Ids(index, key), id, p);
  }

  // ----- A query alone after an add -----

  /** Adding a fact and then asking for its kind, with nothing in between, finds the fact. */
  lemma AddedIsFound(fact: Fact)
    ensures var history := [(0, StartAdd(fact)), (0, Continue), (0, Continue), (0, Continue),
                            (1, StartQuery(ByKind, fact.kind)), (1, Continue)];
      PcOf(After(history), 1) == Look(ByKind, fact.kind, [], [(1, fact)], {1})
  {
    var history: History := [(0, StartAdd(fact)), (0, Continue), (0, Continue), (0, Continue),
                             (1, StartQuery(ByKind, fact.kind)), (1, Continue)];
    AddedAlone(fact);
    var added: History := [(0, StartAdd(fact)), (0, Continue), (0, Continue), (0, Continue)];
    var asked := added + [(1, StartQuery(ByKind, fact.kind))];
    assert history == asked + [(1, Continue)];
    AfterStep(added, (1, StartQuery(ByKind, fact.kind)));
    AfterStep(asked, (1, Continue));
    OneStored(After(added), fact);
    assert [1][1..] == [] && [] + [(1, fact)] == [(1, fact)];
  }

  lemma OneStored(s: Store, fact: Fact)
    requires s.facts == map[1 := fact]
    ensures StoredUnder(s, ByKind, fact.kind) == {1}
  {
    assert s.facts[1] == fact;
  }

  lemma AddedAlone(fact: Fact)
    ensures var s := After([(0, StartAdd(fact)), (0, Continue), (0, Continue), (0, Continue)]);
      s.facts == map[1 := fact] && s.byKind == map[fact.kind := [1]] && PcOf(s, 1).Idle?
  {
    var h0: History, h1: History, h2: History, h3: History, h4: History :=
      [], [(0, StartAdd(fact))], [(0, StartAdd(fact)), (0, Continue)],
      [(0, StartAdd(fact)), (0, Continue), (0, Continue)], [(0, StartAdd(fact)), (0, Continue), (0, Continue), (0, Continue)];
    assert h1 == h0 + [(0, StartAdd(fact))] && h2 == h1 + [(0, Continue)] && h3 == h2 + [(0, Continue)] && h4 == h3 + [(0, Continue)];
    AfterStep(h0, (0, StartAdd(fact)));
    AfterStep(h1, (0, Continue));
    AfterStep(h2, (0, Continue));
    AfterStep(h3, (0, Continue));
    assert [] + [1] == [1];
  }
}
