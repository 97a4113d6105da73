/** The concurrent fact store as a protocol of atomic steps. */
module FactStores {
  import opened Sequences
  import opened Wrappers

  // Adding, removing and querying are sequences of atomic steps on three shared maps, interleaved
  // arbitrarily among any number of threads.

  type Id = nat
  type Thread = nat

  datatype Fact = Fact(kind: string, file: string, text: string)

  /** The two indexes. */
  datatype Axis = ByKind | ByFile

  function Label(axis: Axis, fact: Fact): string {
    if axis.ByKind? then fact.kind else fact.file
  }

  type Index = map<string, seq<Id>>

  function Ids(index: Index, key: string): seq<Id> {
    if key in index then index[key] else []
  }

  /** What a thread does next. */
  datatype Pc =
    | Idle
    | PushKind(id: Id, fact: Fact)
    | PushFile(id: Id, fact: Fact)
    | Insert(id: Id, fact: Fact)
    | DropKind(id: Id, fact: Fact)
    | DropFile(id: Id, fact: Fact)
    | Look(axis: Axis, key: string, pending: seq<Id>, found: seq<(Id, Fact)>, owed: set<Id>)

  /** The shared maps, the id counter and the threads. Two histories are kept that the program
      does not keep: `issued`, the fact of every id handed out, and in a query `owed`, the ids
      with its key that were stored when it began. */
  datatype Store = Store(
    facts: map<Id, Fact>,
    byKind: Index,
    byFile: Index,
    nextId: nat,
    threads: map<Thread, Pc>,
    issued: map<Id, Fact>)

  function StoredUnder(s: Store, axis: Axis, key: string): set<Id> {
    set id | id in s.facts && Label(axis, s.facts[id]) == key
  }

  const EMPTY := Store(map[], map[], map[], 1, map[], map[])

  function PcOf(s: Store, t: Thread): Pc {
    if t in s.threads then s.threads[t] else Idle
  }

  function Goto(s: Store, t: Thread, pc: Pc): Store {
    s.(threads := s.threads[t := pc])
  }

  function IndexFor(s: Store, axis: Axis): Index {
    if axis.ByKind? then s.byKind else s.byFile
  }

  function Without(ids: seq<Id>, id: Id): seq<Id> {
    if ids == [] then []
    else Without(ids[..|ids| - 1], id) + (if ids[|ids| - 1] == id then [] else [ids[|ids| - 1]])
  }

  /** Appends to the list of `key`, creating it if needed. */
  function Push(index: Index, key: string, id: Id): Index {
    index[key := Ids(index, key) + [id]]
  }

  /** Removes every occurrence from the list of `key`, if there is one. */
  function Retain(index: Index, key: string, id: Id): Index {
    if key in index then index[key := Without(index[key], id)] else index
  }

  /** An idle thread starts a call; a busy thread takes its next step. */
  datatype Action = StartAdd(fact: Fact) | StartRemove(id: Id) | StartQuery(axis: Axis, key: string) | Continue

  /** One atomic step of one thread, if that step is possible. */
  function Do(s: Store, t: Thread, a: Action): Option<Store> {
    match (PcOf(s, t), a)
    case (Idle, StartAdd(fact)) =>
      Some(Goto(s, t, PushKind(s.nextId, fact)).(nextId := s.nextId + 1, issued := s.issued[s.nextId := fact]))
    case (PushKind(id, fact), Continue) =>
      Some(Goto(s, t, PushFile(id, fact)).(byKind := Push(s.byKind, fact.kind, id)))
    case (PushFile(id, fact), Continue) =>
      Some(Goto(s, t, Insert(id, fact)).(byFile := Push(s.byFile, fact.file, id)))
    case (Insert(id, fact), Continue) =>
      Some(Goto(s, t, Idle).(facts := s.facts[id := fact]))
    case (Idle, StartRemove(id)) =>
      if id in s.facts then Some(Goto(s, t, DropKind(id, s.facts[id])).(facts := s.facts - {id})) else Some(s)
    case (DropKind(id, fact), Continue) =>
      Some(Goto(s, t, DropFile(id, fact)).(byKind := Retain(s.byKind, fact.kind, id)))
    case (DropFile(id, fact), Continue) =>
      Some(Goto(s, t, Idle).(byFile := Retain(s.byFile, fact.file, id)))
    case (Idle, StartQuery(axis, key)) =>
      Some(Goto(s, t, Look(axis, key, Ids(IndexFor(s, axis), key), [], StoredUnder(s, axis, key))))
    case (Look(axis, key, pending, found, owed), Continue) =>
      if pending == [] then Some(Goto(s, t, Idle))
      else
        var id := pending[0];
        var seen := if id in s.facts then found + [(id, s.facts[id])] else found;
        Some(Goto(s, t, Look(axis, key, pending[1..], seen, owed)))
    case _ => None
  }

  /** The state after each of a sequence of steps; a step that is not possible is skipped. */
  function Run(s: Store, steps: seq<(Thread, Action)>): Store {
    if steps == [] then s
    else
      var before := Run(s, steps[..|steps| - 1]);
      match Do(before, steps[|steps| - 1].0, steps[|steps| - 1].1)
      case Some(after) => after
      case None => before
  }

  // ----- The invariant -----

  predicate HasId(pc: Pc) {
    pc.PushKind? || pc.PushFile? || pc.Insert? || pc.DropKind? || pc.DropFile?
  }

  predicate Adding(pc: Pc) {
    pc.PushKind? || pc.PushFile? || pc.Insert?
  }

  /** An unfinished call that has put its id into this index, or has not yet taken it out. */
  predicate Lists(axis: Axis, pc: Pc, id: Id) {
    && (if axis.ByKind? then pc.PushFile? || pc.Insert? || pc.DropKind? else pc.Insert? || pc.DropKind? || pc.DropFile?)
    && pc.id == id
  }

  /** The ids an index lists: the stored ones and those of calls in the stages in between. */
  ghost predicate Live(s: Store, axis: Axis, id: Id) {
    id in s.facts || exists t :: Lists(axis, PcOf(s, t), id)
  }

  ghost predicate Belongs(s: Store, axis: Axis, key: string, id: Id) {
    id in s.issued && Label(axis, s.issued[id]) == key && Live(s, axis, id)
  }

  /** Each list holds exactly the live ids with that label, each once. */
  ghost predicate ListOk(s: Store, axis: Axis, key: string) {
    var ids := Ids(IndexFor(s, axis), key);
    && Distinct(ids)
    && forall id: Id :: id in ids <==> Belongs(s, axis, key, id)
  }

  ghost predicate AllListsOk(s: Store, axis: Axis) {
    forall key :: ListOk(s, axis, key)
  }

  /** An unfinished call owns its id, and that id is not stored. */
  ghost predicate OwnsId(s: Store, t: Thread) {
    var pc := PcOf(s, t);
    HasId(pc) ==>
      && pc.id in s.issued && s.issued[pc.id] == pc.fact && pc.id !in s.facts
      && forall u :: u != t && HasId(PcOf(s, u)) ==> PcOf(s, u).id != pc.id
  }

  /** The call that adds this id has finished: once removed, the id never comes back. */
  ghost predicate Settled(s: Store, id: Id) {
    id in s.issued && forall t :: Adding(PcOf(s, t)) ==> PcOf(s, t).id != id
  }

  function FoundIds(found: seq<(Id, Fact)>): (ids: seq<Id>)
    ensures |ids| == |found| && forall i :: 0 <= i < |ids| ==> ids[i] == found[i].0
  {
    seq(|found|, i requires 0 <= i < |found| => found[i].0)
  }

  /** A query has found only facts of its key, each once, and owes only what it will still look
      up or what has been removed. */
  ghost predicate QueryOk(s: Store, pc: Pc)
    requires pc.Look?
  {
    && Distinct(FoundIds(pc.found) + pc.pending)
    && (forall id :: id in pc.pending ==> id in s.issued && Label(pc.axis, s.issued[id]) == pc.key)
    && (forall e :: e in pc.found ==> e.0 in s.issued && s.issued[e.0] == e.1 && Label(pc.axis, e.1) == pc.key)
    && (forall id :: id in pc.owed ==>
          Settled(s, id) && (id in pc.pending || id in FoundIds(pc.found) || id !in s.facts))
  }

  ghost predicate ThreadOk(s: Store, t: Thread) {
    OwnsId(s, t) && (PcOf(s, t).Look? ==> QueryOk(s, PcOf(s, t)))
  }

  ghost predicate StoredOk(s: Store) {
    && (forall id :: id in s.facts ==> id in s.issued && s.issued[id] == s.facts[id])
    && (forall id :: id in s.issued ==> id < s.nextId)
  }

  ghost predicate Inv(s: Store) {
    && StoredOk(s)
    && (forall t :: ThreadOk(s, t))
    && (forall axis: Axis :: AllListsOk(s, axis))
  }

  lemma StartsOk()
    ensures Inv(EMPTY)
  {
  }

  lemma {:induction false} WithoutMembers(ids: seq<Id>, id: Id)
    requires Distinct(ids)
    ensures Distinct(Without(ids, id))
    ensures forall x :: x in Without(ids, id) <==> x in ids && x != id
  {
    if ids != [] {
      var front, last := ids[..|ids| - 1], ids[|ids| - 1];
      WithoutMembers(front, id);
      assert ids == front + [last];
      assert last !in front;
    }
  }

  // ----- How a step changes what is live and what the lists hold -----

  /** Every thread but `t` is where it was. */
  ghost predicate OthersStay(s: Store, s': Store, t: Thread) {
    forall u :: u != t ==> PcOf(s', u) == PcOf(s, u)
  }

  /** What is live for `x` after a step of `t`, if no other thread has it listed. */
  lemma LiveAfter(s: Store, s': Store, t: Thread, axis: Axis, x: Id)
    requires OthersStay(s, s', t)
    ensures !Lists(axis, PcOf(s, t), x) && !Lists(axis, PcOf(s', t), x) && (x in s.facts <==> x in s'.facts)
            ==> (Live(s', axis, x) <==> Live(s, axis, x))
    ensures (forall u :: u != t ==> !Lists(axis, PcOf(s, u), x))
            ==> && (Live(s, axis, x) <==> x in s.facts || Lists(axis, PcOf(s, t), x))
                && (Live(s', axis, x) <==> x in s'.facts || Lists(axis, PcOf(s', t), x))
  {
    if u :| Lists(axis, PcOf(s, u), x) {
      assert u != t ==> Lists(axis, PcOf(s', u), x);
    }
    if u :| Lists(axis, PcOf(s', u), x) {
      assert u != t ==> Lists(axis, PcOf(s, u), x);
    }
  }

  /** An index that did not change still lists what is live, if the same ids are. */
  lemma ListsStay(s: Store, s': Store, axis: Axis)
    requires AllListsOk(s, axis)
    requires IndexFor(s', axis) == IndexFor(s, axis)
    requires forall id :: id in s.issued ==> id in s'.issued && s'.issued[id] == s.issued[id]
    requires forall id: Id :: id in s'.issued && Live(s', axis, id) <==> id in s.issued && Live(s, axis, id)
    ensures AllListsOk(s', axis)
  {
    forall key ensures ListOk(s', axis, key) {
      assert ListOk(s, axis, key);
      forall id: Id ensures Belongs(s', axis, key, id) <==> Belongs(s, axis, key, id) {
        assert id in s'.issued && Live(s', axis, id) <==> id in s.issued && Live(s, axis, id);
      }
    }
  }

  lemma ListsGrow(s: Store, s': Store, axis: Axis, id: Id)
    requires AllListsOk(s, axis)
    requires s'.issued == s.issued && id in s.issued
    requires IndexFor(s', axis) == Push(IndexFor(s, axis), Label(axis, s.issued[id]), id)
    requires !Live(s, axis, id) && Live(s', axis, id)
    requires forall x: Id :: x != id ==> (Live(s', axis, x) <==> Live(s, axis, x))
    ensures AllListsOk(s', axis)
  {
    forall key ensures ListOk(s', axis, key) {
      assert ListOk(s, axis, key);
      assert !Belongs(s, axis, key, id);
      forall x: Id ensures Belongs(s', axis, key, x) <==> Belongs(s, axis, key, x) || (x == id && key == Label(axis, s.issued[id])) {
        assert x != id ==> (Live(s', axis, x) <==> Live(s, axis, x));
      }
    }
  }

  lemma ListsShrink(s: Store, s': Store, axis: Axis, id: Id)
    requires AllListsOk(s, axis)
    requires s'.issued == s.issued && id in s.issued
    requires IndexFor(s', axis) == Retain(IndexFor(s, axis), Label(axis, s.issued[id]), id)
    requires !Live(s', axis, id)
    requires forall x: Id :: x != id ==> (Live(s', axis, x) <==> Live(s, axis, x))
    ensures AllListsOk(s', axis)
  {
    forall key ensures ListOk(s', axis, key) {
      assert ListOk(s, axis, key);
      var ids := Ids(IndexFor(s, axis), key);
      WithoutMembers(ids, id);
      assert !Belongs(s', axis, key, id);
      forall x: Id ensures Belongs(s', axis, key, x) <==> Belongs(s, axis, key, x) && x != id {
        assert x != id ==> (Live(s', axis, x) <==> Live(s, axis, x));
      }
      if key != Label(axis, s.issued[id]) {
        assert Ids(IndexFor(s', axis), key) == ids;
        assert !Belongs(s, axis, key, id);
      } else {
        assert Ids(IndexFor(s', axis), key) == Without(ids, id);
      }
    }
  }

  /** No other thread lists the id of `t`'s call. */
  lemma OwnerListsAlone(s: Store, t: Thread, axis: Axis)
    requires ThreadOk(s, t) && HasId(PcOf(s, t))
    ensures forall u :: u != t ==> !Lists(axis, PcOf(s, u), PcOf(s, t).id)
  {
  }

  // ----- Threads keep their promises -----

  /** No id is brought back, so other queries stay sound and complete. */
  lemma QueryStaysOk(s: Store, s': Store, t: Thread, pc: Pc)
    requires OthersStay(s, s', t)
    requires pc.Look? && QueryOk(s, pc)
    requires forall id :: id in s.issued ==> id in s'.issued && s'.issued[id] == s.issued[id]
    requires forall id :: id in s.issued && id in s'.facts ==> id in s.facts || (Adding(PcOf(s, t)) && id == PcOf(s, t).id)
    requires Adding(PcOf(s', t)) ==> PcOf(s', t).id !in s.issued || (Adding(PcOf(s, t)) && PcOf(s', t).id == PcOf(s, t).id)
    ensures QueryOk(s', pc)
  {
    forall id | Settled(s, id) ensures Settled(s', id) && (id !in s.facts ==> id !in s'.facts) {
      forall u | Adding(PcOf(s', u)) ensures PcOf(s', u).id != id {
        assert u != t ==> Adding(PcOf(s, u));
      }
    }
  }

  /** Ids change hands only within one thread, so every thread still owns its id. */
  lemma OwnersStay(s: Store, s': Store, t: Thread)
    requires forall u :: ThreadOk(s, u)
    requires OthersStay(s, s', t) && s'.issued == s.issued
    requires HasId(PcOf(s', t)) ==>
               && HasId(PcOf(s, t)) && PcOf(s', t).id == PcOf(s, t).id && PcOf(s', t).fact == PcOf(s, t).fact
               && PcOf(s, t).id !in s'.facts
    requires forall id :: id in s'.facts ==> id in s.facts || (HasId(PcOf(s, t)) && id == PcOf(s, t).id)
    ensures forall u :: OwnsId(s', u)
  {
    forall u ensures OwnsId(s', u) {
      assert ThreadOk(s, u) && ThreadOk(s, t);
      forall v | v != u && HasId(PcOf(s', u)) && HasId(PcOf(s', v)) ensures PcOf(s', v).id != PcOf(s', u).id {
        assert HasId(PcOf(s, u)) && HasId(PcOf(s, v));
      }
    }
  }

  lemma StartAddKeepsInv(s: Store, t: Thread, fact: Fact)
    requires Inv(s) && PcOf(s, t).Idle?
    ensures Inv(Do(s, t, StartAdd(fact)).value)
  {
    var s' := Do(s, t, StartAdd(fact)).value;
    var id := s.nextId;
    forall u ensures ThreadOk(s', u) {
      assert ThreadOk(s, u) && ThreadOk(s, t);
      if u != t && PcOf(s, u).Look? { QueryStaysOk(s, s', t, PcOf(s, u)); }
      forall v | v != u && HasId(PcOf(s', u)) && HasId(PcOf(s', v)) ensures PcOf(s', v).id != PcOf(s', u).id {
        assert ThreadOk(s, v);
      }
    }
    forall axis: Axis ensures AllListsOk(s', axis) {
      forall x: Id ensures x in s'.issued && Live(s', axis, x) <==> x in s.issued && Live(s, axis, x) {
        LiveAfter(s, s', t, axis, x);
        forall u | Lists(axis, PcOf(s, u), x) ensures x in s.issued { assert ThreadOk(s, u); }
      }
      ListsStay(s, s', axis);
    }
  }

  lemma AddKeepsInv(s: Store, t: Thread)
    requires Inv(s) && Adding(PcOf(s, t))
    ensures Inv(Do(s, t, Continue).value)
  {
    var s', id := Do(s, t, Continue).value, PcOf(s, t).id;
    assert ThreadOk(s, t);
    OwnersStay(s, s', t);
    forall u ensures ThreadOk(s', u) {
      assert ThreadOk(s, u);
      if u != t && PcOf(s, u).Look? { QueryStaysOk(s, s', t, PcOf(s, u)); }
    }
    forall axis: Axis ensures AllListsOk(s', axis) {
      AddKeepsLists(s, t, axis);
    }
  }

  /** A step of `add` pushes its id to one index, where it was not live, and moves from listing
      its id itself to storing it. */
  lemma AddKeepsLists(s: Store, t: Thread, axis: Axis)
    requires Adding(PcOf(s, t)) && ThreadOk(s, t) && AllListsOk(s, axis)
    ensures AllListsOk(Do(s, t, Continue).value, axis)
  {
    var s', id := Do(s, t, Continue).value, PcOf(s, t).id;
    OwnerListsAlone(s, t, axis);
    forall x: Id ensures x != id ==> (Live(s', axis, x) <==> Live(s, axis, x)) { LiveAfter(s, s', t, axis, x); }
    LiveAfter(s, s', t, axis, id);
    if PcOf(s, t) == (if axis.ByKind? then PushKind(id, s.issued[id]) else PushFile(id, s.issued[id])) {
      ListsGrow(s, s', axis, id);
    } else {
      ListsStay(s, s', axis);
    }
  }

  lemma StartRemoveKeepsInv(s: Store, t: Thread, id: Id)
    requires Inv(s) && PcOf(s, t).Idle?
    ensures Inv(Do(s, t, StartRemove(id)).value)
  {
    var s' := Do(s, t, StartRemove(id)).value;
    if id in s.facts {
      forall u ensures ThreadOk(s', u) {
        assert ThreadOk(s, u);
        if u != t && PcOf(s, u).Look? { QueryStaysOk(s, s', t, PcOf(s, u)); }
        forall v | v != u && HasId(PcOf(s', u)) && HasId(PcOf(s', v)) ensures PcOf(s', v).id != PcOf(s', u).id {
          assert ThreadOk(s, v);
        }
      }
      forall axis: Axis ensures AllListsOk(s', axis) {
        forall x: Id ensures Live(s', axis, x) <==> Live(s, axis, x) {
          LiveAfter(s, s', t, axis, x);
          if x == id {
            forall u | u != t ensures !Lists(axis, PcOf(s, u), x) { assert ThreadOk(s, u); }
          }
        }
        ListsStay(s, s', axis);
      }
    }
  }

  lemma DropKeepsInv(s: Store, t: Thread)
    requires Inv(s) && (PcOf(s, t).DropKind? || PcOf(s, t).DropFile?)
    ensures Inv(Do(s, t, Continue).value)
  {
    var s', id := Do(s, t, Continue).value, PcOf(s, t).id;
    assert ThreadOk(s, t);
    OwnersStay(s, s', t);
    forall u ensures ThreadOk(s', u) {
      assert ThreadOk(s, u);
      if u != t && PcOf(s, u).Look? { QueryStaysOk(s, s', t, PcOf(s, u)); }
    }
    forall axis: Axis ensures AllListsOk(s', axis) {
      OwnerListsAlone(s, t, axis);
      forall x: Id ensures x != id ==> (Live(s', axis, x) <==> Live(s, axis, x)) { LiveAfter(s, s', t, axis, x); }
      LiveAfter(s, s', t, axis, id);
      if PcOf(s, t) == (if axis.ByKind? then DropKind(id, s.issued[id]) else DropFile(id, s.issued[id])) {
        ListsShrink(s, s', axis, id);
      } else {
        ListsStay(s, s', axis);
      }
    }
  }

  /** A step of a query changes nothing but that thread. */
  lemma QueryStepKeepsInv(s: Store, t: Thread, pc: Pc)
    requires Inv(s) && (PcOf(s, t).Idle? || PcOf(s, t).Look?)
    requires pc.Idle? || (pc.Look? && QueryOk(s, pc))
    ensures Inv(Goto(s, t, pc))
  {
    var s' := Goto(s, t, pc);
    OwnersStay(s, s', t);
    forall u ensures ThreadOk(s', u) {
      assert ThreadOk(s, u) && ThreadOk(s, t);
      if PcOf(s', u).Look? { QueryStaysOk(s, s', t, PcOf(s', u)); }
    }
    forall axis: Axis ensures AllListsOk(s', axis) {
      forall x: Id ensures Live(s', axis, x) <==> Live(s, axis, x) { LiveAfter(s, s', t, axis, x); }
      ListsStay(s, s', axis);
    }
  }

  /** A query begins owing every stored fact with its key: all of them are in the list it copies. */
  lemma StartQueryKeepsInv(s: Store, t: Thread, axis: Axis, key: string)
    requires Inv(s) && PcOf(s, t).Idle?
    ensures Inv(Do(s, t, StartQuery(axis, key)).value)
  {
    var pc := Look(axis, key, Ids(IndexFor(s, axis), key), [], StoredUnder(s, axis, key));
    assert AllListsOk(s, axis);
    assert ListOk(s, axis, key);
    assert FoundIds(pc.found) + pc.pending == pc.pending;
    forall id | id in pc.owed ensures id in pc.pending && Settled(s, id) {
      assert Belongs(s, axis, key, id);
      forall u | Adding(PcOf(s, u)) ensures PcOf(s, u).id != id { assert ThreadOk(s, u); }
    }
    forall id | id in pc.pending ensures id in s.issued && Label(axis, s.issued[id]) == key { assert Belongs(s, axis, key, id); }
    QueryStepKeepsInv(s, t, pc);
  }

  lemma LookKeepsInv(s: Store, t: Thread)
    requires Inv(s) && PcOf(s, t).Look?
    ensures Inv(Do(s, t, Continue).value)
  {
    var pc := PcOf(s, t);
    assert ThreadOk(s, t);
    if pc.pending == [] {
      QueryStepKeepsInv(s, t, Idle);
    } else {
      var s' := Do(s, t, Continue).value;
      var pc' := PcOf(s', t);
      LookupOk(s, pc, pc');
      QueryStepKeepsInv(s, t, pc');
    }
  }

  /** Looking up the next id keeps the query sound and complete: an id that is listed but not
      stored has been removed, or is being added and was not owed. */
  lemma LookupOk(s: Store, pc: Pc, pc': Pc)
    requires StoredOk(s) && pc.Look? && QueryOk(s, pc) && pc.pending != []
    requires forall t :: ThreadOk(s, t)
    requires pc' == Look(pc.axis, pc.key, pc.pending[1..],
                         if pc.pending[0] in s.facts then pc.found + [(pc.pending[0], s.facts[pc.pending[0]])] else pc.found, pc.owed)
    ensures QueryOk(s, pc')
  {
    var id := pc.pending[0];
    LookupStaysDistinct(s, pc, pc');
    if id in s.facts {
      assert FoundIds(pc'.found)[|pc.found|] == id;
      assert forall x :: x in FoundIds(pc.found) ==> x in FoundIds(pc'.found) by {
        assert FoundIds(pc'.found) == FoundIds(pc.found) + [id];
      }
    }
    assert pc.pending == [id] + pc'.pending;
  }

  lemma LookupStaysDistinct(s: Store, pc: Pc, pc': Pc)
    requires pc.Look? && pc'.Look? && pc.pending != [] && pc'.pending == pc.pending[1..]
    requires pc'.found == if pc.pending[0] in s.facts then pc.found + [(pc.pending[0], s.facts[pc.pending[0]])] else pc.found
    requires Distinct(FoundIds(pc.found) + pc.pending)
    ensures Distinct(FoundIds(pc'.found) + pc'.pending)
  {
    var id, n, all := pc.pending[0], |pc.found|, FoundIds(pc.found) + pc.pending;
    if id in s.facts {
      assert FoundIds(pc'.found) == FoundIds(pc.found) + [id];
      assert FoundIds(pc'.found) + pc'.pending == all;
    } else {
      assert FoundIds(pc'.found) + pc'.pending == all[..n] + all[n + 1..];
    }
  }

  // ----- Every step, every run -----

  lemma StepKeepsInv(s: Store, t: Thread, a: Action)
    requires Inv(s) && Do(s, t, a).Some?
    ensures Inv(Do(s, t, a).value)
  {
    match a
    case StartAdd(fact) => StartAddKeepsInv(s, t, fact);
    case StartRemove(id) => StartRemoveKeepsInv(s, t, id);
    case StartQuery(axis, key) => StartQueryKeepsInv(s, t, axis, key);
    case Continue =>
      if Adding(PcOf(s, t)) {
        AddKeepsInv(s, t);
      } else if PcOf(s, t).Look? {
        LookKeepsInv(s, t);
      } else {
        DropKeepsInv(s, t);
      }
  }

  lemma {:induction false} RunKeepsInv(steps: seq<(Thread, Action)>)
    ensures Inv(Run(EMPTY, steps))
  {
    if steps == [] {
      StartsOk();
    } else {
      RunKeepsInv(steps[..|steps| - 1]);
      var before := Run(EMPTY, steps[..|steps| - 1]);
      var last := steps[|steps| - 1];
      if Do(before, last.0, last.1).Some? {
        StepKeepsInv(before, last.0, last.1);
      }
    }
  }

  /** At every moment of every interleaving, a stored fact is listed under its kind and its file,
      and a list holds only ids of facts with its key, none twice. */
  lemma StoredIsListed(steps: seq<(Thread, Action)>, axis: Axis, key: string)
    ensures var s := Run(EMPTY, steps);
            var ids := Ids(IndexFor(s, axis), key);
            && Distinct(ids)
            && (forall id :: id in s.facts && Label(axis, s.facts[id]) == key ==> id in ids)
            && (forall id :: id in ids ==> id in s.issued && Label(axis, s.issued[id]) == key)
  {
    RunKeepsInv(steps);
    var s := Run(EMPTY, steps);
    assert AllListsOk(s, axis);
    assert ListOk(s, axis, key);
    forall id | id in s.facts && Label(axis, s.facts[id]) == key ensures id in Ids(IndexFor(s, axis), key) {
      assert Belongs(s, axis, key, id);
    }
    forall id | id in Ids(IndexFor(s, axis), key) ensures id in s.issued && Label(axis, s.issued[id]) == key {
      assert Belongs(s, axis, key, id);
    }
  }

  lemma QuietListsStored(s: Store, axis: Axis, key: string)
    requires Inv(s) && forall t :: PcOf(s, t).Idle?
    ensures Distinct(Ids(IndexFor(s, axis), key))
    ensures forall id: Id :: id in Ids(IndexFor(s, axis), key) <==> id in s.facts && Label(axis, s.facts[id]) == key
  {
    assert AllListsOk(s, axis);
    assert ListOk(s, axis, key);
    forall id: Id ensures id in Ids(IndexFor(s, axis), key) <==> id in s.facts && Label(axis, s.facts[id]) == key {
      assert id in Ids(IndexFor(s, axis), key) <==> Belongs(s, axis, key, id);
    }
  }

  /** When no call is in flight, an index lists exactly the stored facts with the key, each once. */
  lemma QuietIndexIsExact(steps: seq<(Thread, Action)>, axis: Axis, key: string)
    requires forall t :: PcOf(Run(EMPTY, steps), t).Idle?
    ensures var s := Run(EMPTY, steps);
            var ids := Ids(IndexFor(s, axis), key);
            && Distinct(ids)
            && (forall id: Id :: id in ids <==> id in s.facts && Label(axis, s.facts[id]) == key)
  {
    RunKeepsInv(steps);
    QuietListsStored(Run(EMPTY, steps), axis, key);
  }

  /** A query that has looked up its whole list returns facts of its key that were added under
      those ids, no id twice, and every such fact stored from its beginning to its end. */
  lemma QueryAnswers(steps: seq<(Thread, Action)>, t: Thread)
    requires PcOf(Run(EMPTY, steps), t).Look? && PcOf(Run(EMPTY, steps), t).pending == []
    ensures var s := Run(EMPTY, steps);
            var query := PcOf(s, t);
            && Distinct(FoundIds(query.found))
            && (forall e :: e in query.found ==> e.0 in s.issued && s.issued[e.0] == e.1 && Label(query.axis, e.1) == query.key)
            && (forall id :: id in query.owed && id in s.facts ==> (id, s.facts[id]) in query.found)
  {
    RunKeepsInv(steps);
    var s := Run(EMPTY, steps);
    var query := PcOf(s, t);
    assert ThreadOk(s, t);
    assert FoundIds(query.found) + query.pending == FoundIds(query.found);
    forall id | id in query.owed && id in s.facts ensures (id, s.facts[id]) in query.found {
      var i :| 0 <= i < |query.found| && FoundIds(query.found)[i] == id;
      assert query.found[i] in query.found;
    }
  }

  /** No id is handed out twice: the next one has not been issued. */
  lemma NextIdIsFresh(steps: seq<(Thread, Action)>)
    ensures Run(EMPTY, steps).nextId !in Run(EMPTY, steps).issued
  {
    RunKeepsInv(steps);
    var s := Run(EMPTY, steps);
    assert StoredOk(s);
  }

  lemma SettledStays(s: Store, t: Thread, a: Action, id: Id)
    requires Settled(s, id) && id !in s.facts && s.nextId !in s.issued
    requires Do(s, t, a).Some?
    ensures Settled(Do(s, t, a).value, id) && id !in Do(s, t, a).value.facts
  {
    var s' := Do(s, t, a).value;
    forall u | Adding(PcOf(s', u)) ensures PcOf(s', u).id != id {
      assert u != t ==> PcOf(s', u) == PcOf(s, u);
    }
  }

  /** A removed fact stays removed: its id, settled and not stored, is never stored again. */
  lemma {:induction false} RemovedForGood(steps: seq<(Thread, Action)>, more: seq<(Thread, Action)>, id: Id)
    requires Settled(Run(EMPTY, steps), id) && id !in Run(EMPTY, steps).facts
    ensures Settled(Run(EMPTY, steps + more), id) && id !in Run(EMPTY, steps + more).facts
  {
    if more == [] {
      assert steps + more == steps;
    } else {
      var front, last := more[..|more| - 1], more[|more| - 1];
      RemovedForGood(steps, front, id);
      NextIdIsFresh(steps + front);
      OneMoreStep(EMPTY, steps + front, last, id);
      assert steps + more == steps + front + [last];
    }
  }

  lemma OneMoreStep(start: Store, steps: seq<(Thread, Action)>, last: (Thread, Action), id: Id)
    requires Settled(Run(start, steps), id) && id !in Run(start, steps).facts
    requires Run(start, steps).nextId !in Run(start, steps).issued
    ensures Settled(Run(start, steps + [last]), id) && id !in Run(start, steps + [last]).facts
  {
    var s := Run(start, steps);
    assert (steps + [last])[..|steps|] == steps;
    if Do(s, last.0, last.1).Some? {
      SettledStays(s, last.0, last.1, id);
    }
  }

  // ----- One caller: a call is its steps, one after the other -----

  const CALLER: Thread := 0

  /** `add` with nothing in between: its four steps, one after the other. */
  lemma AddRunsThrough(s: Store, fact: Fact)
    requires Inv(s) && s.threads == map[CALLER := Idle]
    ensures Inv(Store(s.facts[s.nextId := fact], Push(s.byKind, fact.kind, s.nextId), Push(s.byFile, fact.file, s.nextId),
                      s.nextId + 1, map[CALLER := Idle], s.issued[s.nextId := fact]))
  {
    var id := s.nextId;
    StartAddKeepsInv(s, CALLER, fact);
    var s1 := Do(s, CALLER, StartAdd(fact)).value;
    assert s1 == s.(threads := map[CALLER := PushKind(id, fact)], nextId := id + 1, issued := s.issued[id := fact]);
    PushRunsThrough(s1, id, fact);
  }

  lemma PushRunsThrough(s: Store, id: Id, fact: Fact)
    requires Inv(s) && s.threads == map[CALLER := PushKind(id, fact)]
    ensures Inv(s.(facts := s.facts[id := fact], byKind := Push(s.byKind, fact.kind, id), byFile := Push(s.byFile, fact.file, id),
                   threads := map[CALLER := Idle]))
  {
    AddKeepsInv(s, CALLER);
    var s1 := Do(s, CALLER, Continue).value;
    assert s1.threads == map[CALLER := PushFile(id, fact)];
    AddKeepsInv(s1, CALLER);
    var s2 := Do(s1, CALLER, Continue).value;
    assert s2.threads == map[CALLER := Insert(id, fact)];
    AddKeepsInv(s2, CALLER);
    assert Do(s2, CALLER, Continue).value.threads == map[CALLER := Idle];
  }

  /** `remove` with nothing in between: its three steps, one after the other. */
  lemma RemoveRunsThrough(s: Store, id: Id)
    requires Inv(s) && s.threads == map[CALLER := Idle] && id in s.facts
    ensures Inv(s.(facts := s.facts - {id}, byKind := Retain(s.byKind, s.facts[id].kind, id),
                   byFile := Retain(s.byFile, s.facts[id].file, id)))
  {
    var fact := s.facts[id];
    StartRemoveKeepsInv(s, CALLER, id);
    var s1 := Do(s, CALLER, StartRemove(id)).value;
    assert s1.threads == map[CALLER := DropKind(id, fact)];
    DropKeepsInv(s1, CALLER);
    var s2 := Do(s1, CALLER, Continue).value;
    assert s2.threads == map[CALLER := DropFile(id, fact)];
    DropKeepsInv(s2, CALLER);
    assert Do(s2, CALLER, Continue).value.threads == s.threads;
  }

  class FactStore {
    var facts: map<Id, Fact>
    var byKind: Index
    var byFile: Index
    var nextId: nat
    ghost var issued: map<Id, Fact>

    /** The protocol's state while no call is in flight. */
    ghost function State(): Store
      reads this
    {
      Store(facts, byKind, byFile, nextId, map[CALLER := Idle], issued)
    }

    ghost predicate Valid()
      reads this
    {
      Inv(State())
    }

    constructor ()
      ensures Valid()
      ensures facts == map[] && nextId == 1
    {
      facts, byKind, byFile, nextId, issued := map[], map[], map[], 1, map[];
    }

    /** `add`: a fresh id, the two indexes, then the fact itself. */
    method Add(fact: Fact) returns (id: Id)
      requires Valid()
      modifies this
      ensures Valid()
      ensures id == old(nextId) && id !in old(issued)
      ensures facts == old(facts)[id := fact]
      ensures byKind == Push(old(byKind), fact.kind, id) && byFile == Push(old(byFile), fact.file, id)
    {
      AddRunsThrough(State(), fact);
      id := nextId;
      nextId := nextId + 1;
      issued := issued[id := fact];
      byKind := Push(byKind, fact.kind, id);
      byFile := Push(byFile, fact.file, id);
      facts := facts[id := fact];
    }

    /** `remove`: the fact itself, then its entries in the two indexes. */
    method Remove(id: Id) returns (removed: Option<Fact>)
      requires Valid()
      modifies this
      ensures Valid() && nextId == old(nextId) && issued == old(issued)
      ensures removed == if id in old(facts) then Some(old(facts)[id]) else None
      ensures facts == old(facts) - {id}
      ensures byKind == (if removed.Some? then Retain(old(byKind), removed.value.kind, id) else old(byKind))
      ensures byFile == (if removed.Some? then Retain(old(byFile), removed.value.file, id) else old(byFile))
    {
      if id !in facts {
        return None;
      }
      RemoveRunsThrough(State(), id);
      var fact := facts[id];
      facts := facts - {id};
      byKind := Retain(byKind, fact.kind, id);
      byFile := Retain(byFile, fact.file, id);
      return Some(fact);
    }

    /** `by_kind` and `by_file`: every stored fact with the key, each once. */
    method Query(axis: Axis, key: string) returns (found: seq<Fact>)
      requires Valid()
      ensures var ids := Ids(IndexFor(State(), axis), key);
              && Distinct(ids)
              && (forall id: Id :: id in ids <==> id in facts && Label(axis, facts[id]) == key)
              && |found| == |ids|
              && forall i :: 0 <= i < |ids| ==> found[i] == facts[ids[i]]
    {
      QuietListsStored(State(), axis, key);
      var ids := Ids(if axis.ByKind? then byKind else byFile, key);
      found := [];
      for i := 0 to |ids|
        invariant |found| == i && forall j :: 0 <= j < i ==> ids[j] in facts && found[j] == facts[ids[j]]
      {
        assert ids[i] in ids;
        if ids[i] in facts {
          found := found + [facts[ids[i]]];
        }
      }
    }
  }
}
