/** What one run of the forward analysis computes, as functions of the visiting order, and
    the lattice theory that makes every run end in the least solution. */
module Fixpoint {
  import opened Wrappers
  import opened DataFlowGraphs
  import opened Lattices

  datatype Facts<V> = Facts(inputs: map<NodeId, V>, outputs: map<NodeId, V>)

  function Get<V>(m: map<NodeId, V>, id: NodeId, default: V): V {
    if id in m then m[id] else default
  }

  /** Only keys that are already present are updated. */
  function Put<V>(m: map<NodeId, V>, id: NodeId, v: V): map<NodeId, V> {
    if id in m then m[id := v] else m
  }

  /** The join of the outputs of `preds`, folded from the left. */
  function JoinOf<V>(d: Domain<V>, outputs: map<NodeId, V>, preds: seq<NodeId>): V {
    if preds == [] then d.bottom
    else d.join(JoinOf(d, outputs, preds[..|preds| - 1]), Get(outputs, preds[|preds| - 1], d.bottom))
  }

  function NextInput<V>(d: Domain<V>, g: GraphView, facts: Facts<V>, id: NodeId): V
    requires id in g.preds
  {
    if g.preds[id] == [] then Get(facts.inputs, id, d.bottom) else JoinOf(d, facts.outputs, g.preds[id])
  }

  /** One visit recomputes the input of a node and then its output from that input. */
  function Visit<V>(d: Domain<V>, g: GraphView, facts: Facts<V>, node: DataNode): Facts<V>
    requires node.id in g.preds
  {
    var inputs := Put(facts.inputs, node.id, NextInput(d, g, facts, node.id));
    Facts(inputs, Put(facts.outputs, node.id, d.transfer(node, Get(inputs, node.id, d.bottom))))
  }

  ghost predicate Visits(g: GraphView, order: seq<DataNode>) {
    forall i :: 0 <= i < |order| ==> order[i].id in g.nodes && g.nodes[order[i].id] == order[i]
  }

  ghost function Sweep<V>(d: Domain<V>, g: GraphView, facts: Facts<V>, order: seq<DataNode>): Facts<V>
    requires ValidView(g) && Visits(g, order)
  {
    if order == [] then facts
    else Visit(d, g, Sweep(d, g, facts, order[..|order| - 1]), order[|order| - 1])
  }

  ghost predicate AllEnumerate(g: GraphView, orders: seq<seq<DataNode>>) {
    forall i :: 0 <= i < |orders| ==> Enumerates(orders[i], g.nodes)
  }

  /** A whole run: one sweep for each visiting order. */
  ghost function Sweeps<V>(d: Domain<V>, g: GraphView, facts: Facts<V>, orders: seq<seq<DataNode>>): Facts<V>
    requires ValidView(g) && AllEnumerate(g, orders)
  {
    if orders == [] then facts
    else Sweep(d, g, Sweeps(d, g, facts, orders[..|orders| - 1]), orders[|orders| - 1])
  }

  lemma SweepsExtend<V>(d: Domain<V>, g: GraphView, facts: Facts<V>, orders: seq<seq<DataNode>>, order: seq<DataNode>)
    requires ValidView(g) && AllEnumerate(g, orders) && Enumerates(order, g.nodes)
    ensures AllEnumerate(g, orders + [order])
    ensures Sweeps(d, g, facts, orders + [order]) == Sweep(d, g, Sweeps(d, g, facts, orders), order)
  {
    assert (orders + [order])[..|orders|] == orders;
  }

  /** Every node starts at bottom, except that the entry's input starts at `initial`. */
  ghost function Start<V>(d: Domain<V>, g: GraphView, stale: Facts<V>): Facts<V> {
    var inputs := Overwritten(stale.inputs, g.nodes.Keys, d.bottom);
    Facts(
      if g.entry.Some? then inputs[g.entry.value := d.initial] else inputs,
      Overwritten(stale.outputs, g.nodes.Keys, d.bottom))
  }

  ghost function Overwritten<V>(m: map<NodeId, V>, ids: set<NodeId>, v: V): map<NodeId, V> {
    m + map id | id in ids :: v
  }

  lemma OverwrittenMore<V>(m: map<NodeId, V>, ids: set<NodeId>, v: V, id: NodeId)
    ensures Overwritten(m, ids + {id}, v) == Overwritten(m, ids, v)[id := v]
  {
  }

  /** Sets the value of every listed node. */
  method Reset<V>(m: map<NodeId, V>, order: seq<DataNode>, ghost nodes: map<NodeId, DataNode>, v: V) returns (r: map<NodeId, V>)
    requires Enumerates(order, nodes) && forall id :: id in nodes ==> nodes[id].id == id
    ensures r == Overwritten(m, nodes.Keys, v)
  {
    r := m;
    ghost var done: set<NodeId> := {};
    assert m == Overwritten(m, {}, v);
    for i := 0 to |order|
      invariant r == Overwritten(m, done, v)
      invariant done <= nodes.Keys && forall j :: 0 <= j < i ==> order[j].id in done
    {
      OverwrittenMore(m, done, v, order[i].id);
      r := r[order[i].id := v];
      done := done + {order[i].id};
    }
    assert done == nodes.Keys by {
      forall id | id in nodes ensures id in done {
        var i :| 0 <= i < |order| && order[i] == nodes[id];
      }
    }
  }

  // ----- The equations -----

  function Boundary<V>(d: Domain<V>, g: GraphView, id: NodeId): V {
    if g.entry == Some(id) then d.initial else d.bottom
  }

  /** The right-hand side of a node's input equation. A node without predecessors keeps its
      boundary value; an entry node that has predecessors does not. */
  function Wanted<V>(d: Domain<V>, g: GraphView, outputs: map<NodeId, V>, id: NodeId): V
    requires id in g.preds
  {
    if g.preds[id] == [] then Boundary(d, g, id) else JoinOf(d, outputs, g.preds[id])
  }

  ghost predicate Covers<V>(g: GraphView, facts: Facts<V>) {
    forall id :: id in g.nodes ==> id in facts.inputs && id in facts.outputs
  }

  ghost predicate SolvesAt<V>(d: Domain<V>, g: GraphView, facts: Facts<V>, id: NodeId)
    requires id in g.nodes && id in g.preds && id in facts.inputs && id in facts.outputs
  {
    && facts.inputs[id] == Wanted(d, g, facts.outputs, id)
    && facts.outputs[id] == d.transfer(g.nodes[id], facts.inputs[id])
  }

  /** `facts` solve the join and transfer equations at every node. */
  ghost predicate Solves<V>(d: Domain<V>, g: GraphView, facts: Facts<V>)
    requires ValidView(g)
  {
    Covers(g, facts) && forall id :: id in g.nodes ==> SolvesAt(d, g, facts, id)
  }

  /** `a` is below `b` at every node. */
  ghost predicate Below<V>(d: Domain<V>, g: GraphView, a: map<NodeId, V>, b: map<NodeId, V>) {
    forall id :: id in g.nodes ==> id in a && id in b && Leq(d, a[id], b[id])
  }

  ghost predicate IsLeastSolution<V(!new)>(d: Domain<V>, g: GraphView, facts: Facts<V>)
    requires ValidView(g)
  {
    && Solves(d, g, facts)
    && forall other :: Solves(d, g, other) ==>
         Below(d, g, facts.inputs, other.inputs) && Below(d, g, facts.outputs, other.outputs)
  }

  // ----- The equations in terms of the order alone -----

  /** `v` is the least value above the outputs of `preds`. */
  ghost predicate IsLeastAbove<V(!new)>(d: Domain<V>, v: V, outputs: map<NodeId, V>, preds: seq<NodeId>) {
    && (forall p :: p in preds ==> p in outputs && Leq(d, outputs[p], v))
    && forall u :: (forall p :: p in preds ==> p in outputs && Leq(d, outputs[p], u)) ==> Leq(d, v, u)
  }

  /** What the analysis promises at a node: the boundary value without predecessors, the least
      upper bound of their outputs with predecessors, and the transfer from input to output. */
  ghost predicate KeepsPromiseAt<V(!new)>(d: Domain<V>, g: GraphView, facts: Facts<V>, id: NodeId)
    requires id in g.nodes && id in g.preds && id in facts.inputs && id in facts.outputs
  {
    && (g.preds[id] == [] && g.entry == Some(id) ==> facts.inputs[id] == d.initial)
    && (g.preds[id] == [] && g.entry != Some(id) ==> facts.inputs[id] == d.bottom)
    && (g.preds[id] != [] ==> IsLeastAbove(d, facts.inputs[id], facts.outputs, g.preds[id]))
    && facts.outputs[id] == d.transfer(g.nodes[id], facts.inputs[id])
  }

  ghost predicate KeepsPromise<V(!new)>(d: Domain<V>, g: GraphView, facts: Facts<V>)
    requires ValidView(g)
  {
    Covers(g, facts) && forall id :: id in g.nodes ==> KeepsPromiseAt(d, g, facts, id)
  }

  ghost predicate BelowAll<V>(d: Domain<V>, outputs: map<NodeId, V>, preds: seq<NodeId>, u: V) {
    forall p :: p in preds ==> p in outputs && Leq(d, outputs[p], u)
  }

  /** The fold stays below every upper bound. */
  lemma {:induction false} JoinOfIsLeast<V(!new)>(d: Domain<V>, outputs: map<NodeId, V>, preds: seq<NodeId>, u: V)
    requires JoinSemilattice(d) && BelowAll(d, outputs, preds, u)
    ensures Leq(d, JoinOf(d, outputs, preds), u)
  {
    if preds != [] {
      var n := |preds| - 1;
      JoinOfIsLeast(d, outputs, preds[..n], u);
      assert preds[n] in preds;
      JoinIsLeast(d, JoinOf(d, outputs, preds[..n]), outputs[preds[n]], u);
    }
  }

  /** The fold is the least upper bound of the predecessors' outputs, and the only one. */
  lemma JoinOfIsLeastAbove<V(!new)>(d: Domain<V>, outputs: map<NodeId, V>, preds: seq<NodeId>, v: V)
    requires JoinSemilattice(d) && forall p :: p in preds ==> p in outputs
    ensures IsLeastAbove(d, v, outputs, preds) <==> v == JoinOf(d, outputs, preds)
  {
    var joined := JoinOf(d, outputs, preds);
    forall p | p in preds ensures Leq(d, outputs[p], joined) {
      JoinOfIsUpperBound(d, outputs, preds, p);
    }
    forall u | BelowAll(d, outputs, preds, u) ensures Leq(d, joined, u) {
      JoinOfIsLeast(d, outputs, preds, u);
    }
    assert BelowAll(d, outputs, preds, joined);
    if IsLeastAbove(d, v, outputs, preds) {
      assert BelowAll(d, outputs, preds, v);
      LeqAntisymmetric(d, v, joined);
    }
  }

  lemma SolvesAtIffPromise<V(!new)>(d: Domain<V>, g: GraphView, facts: Facts<V>, id: NodeId)
    requires JoinSemilattice(d) && ValidView(g) && Covers(g, facts) && id in g.nodes
    ensures SolvesAt(d, g, facts, id) <==> KeepsPromiseAt(d, g, facts, id)
  {
    assert forall p :: p in g.preds[id] ==> p in g.nodes;
    JoinOfIsLeastAbove(d, facts.outputs, g.preds[id], facts.inputs[id]);
  }

  /** No other facts that keep the promise are lower anywhere. */
  ghost predicate IsLeastPromise<V(!new)>(d: Domain<V>, g: GraphView, facts: Facts<V>)
    requires ValidView(g)
  {
    && KeepsPromise(d, g, facts)
    && forall other :: KeepsPromise(d, g, other) ==>
         Below(d, g, facts.inputs, other.inputs) && Below(d, g, facts.outputs, other.outputs)
  }

  lemma LeastKeepsPromise<V(!new)>(d: Domain<V>, g: GraphView, facts: Facts<V>)
    requires JoinSemilattice(d) && ValidView(g) && IsLeastSolution(d, g, facts)
    ensures IsLeastPromise(d, g, facts)
  {
    SolvesIffPromise(d, g, facts);
    forall other | KeepsPromise(d, g, other)
      ensures Below(d, g, facts.inputs, other.inputs) && Below(d, g, facts.outputs, other.outputs)
    {
      SolvesIffPromise(d, g, other);
    }
  }

  /** The equations the folds solve are what the analysis promises. */
  lemma SolvesIffPromise<V(!new)>(d: Domain<V>, g: GraphView, facts: Facts<V>)
    requires JoinSemilattice(d) && ValidView(g)
    ensures Solves(d, g, facts) <==> KeepsPromise(d, g, facts)
  {
    if Covers(g, facts) {
      forall id | id in g.nodes ensures SolvesAt(d, g, facts, id) <==> KeepsPromiseAt(d, g, facts, id) {
        SolvesAtIffPromise(d, g, facts, id);
      }
    }
  }

  // ----- Partial correctness, for any domain -----

  /** Nodes without predecessors still hold their boundary value. */
  ghost predicate Bounded<V>(d: Domain<V>, g: GraphView, facts: Facts<V>)
    requires ValidView(g)
  {
    && Covers(g, facts)
    && forall id :: id in g.nodes && g.preds[id] == [] ==> facts.inputs[id] == Boundary(d, g, id)
  }

  lemma StartIsBounded<V>(d: Domain<V>, g: GraphView, stale: Facts<V>)
    requires ValidView(g)
    ensures Bounded(d, g, Start(d, g, stale))
  {
  }

  lemma {:induction false} SweepKeepsBounds<V>(d: Domain<V>, g: GraphView, facts: Facts<V>, order: seq<DataNode>)
    requires ValidView(g) && Visits(g, order) && Bounded(d, g, facts)
    ensures Bounded(d, g, Sweep(d, g, facts, order))
  {
    if order != [] {
      SweepKeepsBounds(d, g, facts, order[..|order| - 1]);
    }
  }

  /** A sweep touches only the nodes it visits, and adds no key. */
  lemma {:induction false} SweepTouchesOnly<V>(d: Domain<V>, g: GraphView, facts: Facts<V>, order: seq<DataNode>)
    requires ValidView(g) && Visits(g, order)
    ensures var after := Sweep(d, g, facts, order);
      && after.inputs.Keys == facts.inputs.Keys && after.outputs.Keys == facts.outputs.Keys
      && forall id: NodeId :: (forall i :: 0 <= i < |order| ==> order[i].id != id) ==>
           && (id in facts.inputs ==> after.inputs[id] == facts.inputs[id])
           && (id in facts.outputs ==> after.outputs[id] == facts.outputs[id])
  {
    if order != [] {
      SweepTouchesOnly(d, g, facts, order[..|order| - 1]);
    }
  }

  ghost predicate DistinctIds(order: seq<DataNode>) {
    forall i, j :: 0 <= i < j < |order| ==> order[i].id != order[j].id
  }

  /** A sweep that visits no node twice and changes nothing in the end never changed
      anything on the way. */
  lemma {:induction false} QuietThroughout<V>(d: Domain<V>, g: GraphView, facts: Facts<V>, order: seq<DataNode>, k: nat)
    requires ValidView(g) && Visits(g, order) && DistinctIds(order) && k <= |order|
    requires Sweep(d, g, facts, order) == facts
    ensures Sweep(d, g, facts, order[..k]) == facts
  {
    if k == |order| {
      assert order[..k] == order;
    } else {
      var before := order[..|order| - 1];
      var f := Sweep(d, g, facts, before);
      SweepTouchesOnly(d, g, facts, before);
      assert f.inputs == facts.inputs && f.outputs == facts.outputs;
      QuietThroughout(d, g, facts, before, k);
      assert before[..k] == order[..k];
    }
  }

  /** If a sweep has just returned to where it began, its last visit changed nothing. */
  lemma QuietPrefix<V>(d: Domain<V>, g: GraphView, facts: Facts<V>, order: seq<DataNode>, i: nat)
    requires ValidView(g) && Visits(g, order) && DistinctIds(order) && i < |order|
    requires Sweep(d, g, facts, order[..i + 1]) == facts
    ensures Sweep(d, g, facts, order[..i]) == facts
  {
    assert order[..i + 1][..i] == order[..i];
    QuietThroughout(d, g, facts, order[..i + 1], i);
  }

  lemma QuietVisitSolves<V>(d: Domain<V>, g: GraphView, facts: Facts<V>, order: seq<DataNode>, i: nat)
    requires ValidView(g) && Visits(g, order) && DistinctIds(order) && Bounded(d, g, facts) && i < |order|
    requires Sweep(d, g, facts, order) == facts
    ensures SolvesAt(d, g, facts, order[i].id)
  {
    QuietThroughout(d, g, facts, order, i);
    QuietThroughout(d, g, facts, order, i + 1);
    assert order[..i + 1][..i] == order[..i];
    assert Visit(d, g, facts, order[i]) == facts;
  }

  /** Whatever the domain, a sweep over all nodes that changes nothing leaves a solution. */
  lemma QuietSweepSolves<V>(d: Domain<V>, g: GraphView, facts: Facts<V>, order: seq<DataNode>)
    requires ValidView(g) && Enumerates(order, g.nodes) && Bounded(d, g, facts)
    requires Sweep(d, g, facts, order) == facts
    ensures Solves(d, g, facts)
  {
    forall id | id in g.nodes ensures SolvesAt(d, g, facts, id) {
      var i :| 0 <= i < |order| && order[i] == g.nodes[id];
      QuietVisitSolves(d, g, facts, order, i);
    }
  }

  // ----- Monotone domains: outputs ascend, inputs ascend once settled -----

  lemma {:induction false} JoinOfMonotone<V(!new)>(d: Domain<V>, a: map<NodeId, V>, b: map<NodeId, V>, preds: seq<NodeId>)
    requires JoinSemilattice(d)
    requires forall p :: p in preds ==> p in a && p in b && Leq(d, a[p], b[p])
    ensures Leq(d, JoinOf(d, a, preds), JoinOf(d, b, preds))
  {
    if preds == [] {
      LeqReflexive(d, d.bottom);
    } else {
      var init, last := preds[..|preds| - 1], preds[|preds| - 1];
      JoinOfMonotone(d, a, b, init);
      assert last in preds;
      JoinIsMonotone(d, JoinOf(d, a, init), a[last], JoinOf(d, b, init), b[last]);
    }
  }

  lemma WantedMonotone<V(!new)>(d: Domain<V>, g: GraphView, a: map<NodeId, V>, b: map<NodeId, V>, id: NodeId)
    requires JoinSemilattice(d) && ValidView(g) && id in g.nodes && Below(d, g, a, b)
    ensures Leq(d, Wanted(d, g, a, id), Wanted(d, g, b, id))
  {
    if g.preds[id] != [] {
      JoinOfMonotone(d, a, b, g.preds[id]);
    } else {
      LeqReflexive(d, Boundary(d, g, id));
    }
  }

  /** The output of `id` is below what its next visit will compute. */
  ghost predicate AscendsAt<V>(d: Domain<V>, g: GraphView, facts: Facts<V>, id: NodeId)
    requires id in g.nodes && id in g.preds && id in facts.outputs
  {
    Leq(d, facts.outputs[id], d.transfer(g.nodes[id], Wanted(d, g, facts.outputs, id)))
  }

  /** The invariant of every visit of a run. */
  ghost predicate Ascending<V>(d: Domain<V>, g: GraphView, facts: Facts<V>)
    requires ValidView(g)
  {
    Bounded(d, g, facts) && forall id :: id in g.nodes ==> AscendsAt(d, g, facts, id)
  }

  /** The input of `id` is below what its next visit will compute. Only an entry node with
      predecessors can fail this, and only until its first visit. */
  ghost predicate SettledAt<V>(d: Domain<V>, g: GraphView, facts: Facts<V>, id: NodeId)
    requires id in g.preds && id in facts.inputs
  {
    Leq(d, facts.inputs[id], Wanted(d, g, facts.outputs, id))
  }

  lemma VisitAscends<V(!new)>(d: Domain<V>, g: GraphView, facts: Facts<V>, node: DataNode)
    requires JoinSemilattice(d) && Monotone(d) && ValidView(g) && Ascending(d, g, facts)
    requires node.id in g.nodes && g.nodes[node.id] == node
    ensures var after := Visit(d, g, facts, node);
      && Ascending(d, g, after)
      && Below(d, g, facts.outputs, after.outputs)
      && after.inputs[node.id] == Wanted(d, g, facts.outputs, node.id)
      && forall id :: id in g.nodes && id != node.id ==> after.inputs[id] == facts.inputs[id]
  {
    var after := Visit(d, g, facts, node);
    assert after.inputs[node.id] == Wanted(d, g, facts.outputs, node.id);
    assert AscendsAt(d, g, facts, node.id);
    forall id | id in g.nodes ensures Leq(d, facts.outputs[id], after.outputs[id]) {
      LeqReflexive(d, facts.outputs[id]);
    }
    forall id | id in g.nodes ensures AscendsAt(d, g, after, id) {
      var before, now := Wanted(d, g, facts.outputs, id), Wanted(d, g, after.outputs, id);
      WantedMonotone(d, g, facts.outputs, after.outputs, id);
      assert MonotoneAt(d, g.nodes[id], before, now);
      if id != node.id {
        assert AscendsAt(d, g, facts, id);
        LeqTransitive(d, facts.outputs[id], d.transfer(g.nodes[id], before), d.transfer(g.nodes[id], now));
      }
    }
  }

  /** A visit settles its node, keeps settled nodes settled and never lowers their inputs. */
  lemma VisitSettles<V(!new)>(d: Domain<V>, g: GraphView, facts: Facts<V>, node: DataNode, id: NodeId)
    requires JoinSemilattice(d) && Monotone(d) && ValidView(g) && Ascending(d, g, facts)
    requires node.id in g.nodes && g.nodes[node.id] == node && id in g.nodes
    requires id == node.id || SettledAt(d, g, facts, id)
    ensures var after := Visit(d, g, facts, node);
      && id in after.inputs && SettledAt(d, g, after, id)
      && (SettledAt(d, g, facts, id) ==> Leq(d, facts.inputs[id], after.inputs[id]))
  {
    var after := Visit(d, g, facts, node);
    VisitAscends(d, g, facts, node);
    WantedMonotone(d, g, facts.outputs, after.outputs, id);
    if id != node.id {
      LeqTransitive(d, facts.inputs[id], Wanted(d, g, facts.outputs, id), Wanted(d, g, after.outputs, id));
      LeqReflexive(d, facts.inputs[id]);
    }
  }

  lemma {:induction false} SweepAscends<V(!new)>(d: Domain<V>, g: GraphView, facts: Facts<V>, order: seq<DataNode>)
    requires JoinSemilattice(d) && Monotone(d) && ValidView(g) && Ascending(d, g, facts) && Visits(g, order)
    ensures Ascending(d, g, Sweep(d, g, facts, order))
    ensures Below(d, g, facts.outputs, Sweep(d, g, facts, order).outputs)
  {
    if order == [] {
      forall id | id in g.nodes ensures Leq(d, facts.outputs[id], facts.outputs[id]) {
        LeqReflexive(d, facts.outputs[id]);
      }
    } else {
      var before, node := order[..|order| - 1], order[|order| - 1];
      SweepAscends(d, g, facts, before);
      var f := Sweep(d, g, facts, before);
      VisitAscends(d, g, f, node);
      var after := Visit(d, g, f, node);
      forall id | id in g.nodes ensures Leq(d, facts.outputs[id], after.outputs[id]) {
        LeqTransitive(d, facts.outputs[id], f.outputs[id], after.outputs[id]);
      }
    }
  }

  /** Once settled, a node stays settled and its input never falls again. */
  lemma {:induction false} StaysSettled<V(!new)>(d: Domain<V>, g: GraphView, facts: Facts<V>, order: seq<DataNode>, id: NodeId)
    requires JoinSemilattice(d) && Monotone(d) && ValidView(g) && Ascending(d, g, facts) && Visits(g, order)
    requires id in g.nodes && SettledAt(d, g, facts, id)
    ensures var after := Sweep(d, g, facts, order);
      id in after.inputs && SettledAt(d, g, after, id) && Leq(d, facts.inputs[id], after.inputs[id])
  {
    if order == [] {
      LeqReflexive(d, facts.inputs[id]);
    } else {
      var before, node := order[..|order| - 1], order[|order| - 1];
      SweepAscends(d, g, facts, before);
      StaysSettled(d, g, facts, before, id);
      var f := Sweep(d, g, facts, before);
      VisitSettles(d, g, f, node, id);
      LeqTransitive(d, facts.inputs[id], f.inputs[id], Visit(d, g, f, node).inputs[id]);
    }
  }

  /** The last visit of a sweep settles its node and keeps settled nodes settled. */
  lemma LastVisitSettles<V(!new)>(d: Domain<V>, g: GraphView, facts: Facts<V>, order: seq<DataNode>, id: NodeId)
    requires JoinSemilattice(d) && Monotone(d) && ValidView(g) && Visits(g, order) && order != [] && id in g.nodes
    requires Ascending(d, g, Sweep(d, g, facts, order[..|order| - 1]))
    requires id == order[|order| - 1].id || SettledAt(d, g, Sweep(d, g, facts, order[..|order| - 1]), id)
    ensures id in Sweep(d, g, facts, order).inputs && SettledAt(d, g, Sweep(d, g, facts, order), id)
  {
    VisitSettles(d, g, Sweep(d, g, facts, order[..|order| - 1]), order[|order| - 1], id);
  }

  /** A sweep settles every node it visits. */
  lemma {:induction false} BecomesSettled<V(!new)>(d: Domain<V>, g: GraphView, facts: Facts<V>, order: seq<DataNode>, i: nat)
    requires JoinSemilattice(d) && Monotone(d) && ValidView(g) && Ascending(d, g, facts) && Visits(g, order)
    requires i < |order|
    ensures var after := Sweep(d, g, facts, order);
      order[i].id in after.inputs && SettledAt(d, g, after, order[i].id)
  {
    SweepAscends(d, g, facts, order[..|order| - 1]);
    if i < |order| - 1 {
      BecomesSettled(d, g, facts, order[..|order| - 1], i);
    }
    LastVisitSettles(d, g, facts, order, order[i].id);
  }

  // ----- Termination: the total rank climbs with every sweep but the first -----

  ghost predicate InBoth<V>(facts: Facts<V>, order: seq<DataNode>) {
    forall i :: 0 <= i < |order| ==> order[i].id in facts.inputs && order[i].id in facts.outputs
  }

  ghost function Weight<V(!new)>(d: Domain<V>, h: nat, facts: Facts<V>, order: seq<DataNode>): nat
    requires InBoth(facts, order)
  {
    if order == [] then 0
    else
      var id := order[|order| - 1].id;
      Weight(d, h, facts, order[..|order| - 1]) + Rank(d, h, facts.inputs[id]) + Rank(d, h, facts.outputs[id])
  }

  lemma {:induction false} WeightIsBounded<V(!new)>(d: Domain<V>, h: nat, facts: Facts<V>, order: seq<DataNode>)
    requires InBoth(facts, order)
    ensures Weight(d, h, facts, order) <= 2 * |order| * h
  {
    if order != [] {
      WeightIsBounded(d, h, facts, order[..|order| - 1]);
      TwiceMore(|order| - 1, h);
    }
  }

  lemma TwiceMore(n: nat, h: nat)
    ensures 2 * n * h + 2 * h == 2 * (n + 1) * h
  {
  }

  /** Pointwise ascent raises the weight, strictly unless nothing changed. */
  lemma {:induction false} WeightAscends<V(!new)>(d: Domain<V>, h: nat, a: Facts<V>, b: Facts<V>, order: seq<DataNode>)
    requires HeightAtMost(d, h) && InBoth(a, order) && InBoth(b, order)
    requires forall i :: 0 <= i < |order| ==> Leq(d, a.inputs[order[i].id], b.inputs[order[i].id])
    requires forall i :: 0 <= i < |order| ==> Leq(d, a.outputs[order[i].id], b.outputs[order[i].id])
    ensures Weight(d, h, a, order) <= Weight(d, h, b, order)
    ensures Weight(d, h, a, order) == Weight(d, h, b, order) ==>
      forall i :: 0 <= i < |order| ==>
        a.inputs[order[i].id] == b.inputs[order[i].id] && a.outputs[order[i].id] == b.outputs[order[i].id]
  {
    if order != [] {
      var before, id := order[..|order| - 1], order[|order| - 1].id;
      WeightAscends(d, h, a, b, before);
      RankAscends(d, h, a.inputs[id], b.inputs[id]);
      RankAscends(d, h, a.outputs[id], b.outputs[id]);
    }
  }

  /** The invariant of a run after `n` sweeps: from the first sweep on every node is settled,
      and each later sweep has added to the weight. */
  ghost predicate Running<V(!new)>(d: Domain<V>, g: GraphView, h: nat, facts: Facts<V>, ids: seq<DataNode>, n: nat)
    requires ValidView(g)
  {
    && Ascending(d, g, facts)
    && Enumerates(ids, g.nodes)
    && (n > 0 ==> forall id :: id in g.nodes ==> SettledAt(d, g, facts, id))
    && (n > 0 ==> n - 1 <= Weight(d, h, facts, ids))
  }

  ghost predicate Hypotheses<V(!new)>(d: Domain<V>, g: GraphView, h: nat) {
    JoinSemilattice(d) && Monotone(d) && HeightAtMost(d, h) && ValidView(g)
  }

  lemma StartRuns<V(!new)>(d: Domain<V>, g: GraphView, h: nat, stale: Facts<V>, ids: seq<DataNode>)
    requires Hypotheses(d, g, h) && Enumerates(ids, g.nodes)
    ensures Running(d, g, h, Start(d, g, stale), ids, 0)
  {
    var facts := Start(d, g, stale);
    StartIsBounded(d, g, stale);
    forall id | id in g.nodes ensures AscendsAt(d, g, facts, id) {
      assert facts.outputs[id] == d.bottom;
    }
  }

  /** A sweep that changes something settles every node and, if all were settled before,
      adds to the weight. */
  lemma SweepClimbs<V(!new)>(d: Domain<V>, g: GraphView, h: nat, facts: Facts<V>, ids: seq<DataNode>, order: seq<DataNode>)
    requires Hypotheses(d, g, h) && Ascending(d, g, facts) && Enumerates(ids, g.nodes) && Visits(g, order)
    requires forall id :: id in g.nodes ==> SettledAt(d, g, facts, id)
    requires Sweep(d, g, facts, order) != facts
    ensures InBoth(Sweep(d, g, facts, order), ids)
    ensures Weight(d, h, facts, ids) < Weight(d, h, Sweep(d, g, facts, order), ids)
  {
    var after := Sweep(d, g, facts, order);
    SweepAscends(d, g, facts, order);
    forall i | 0 <= i < |ids| ensures Leq(d, facts.inputs[ids[i].id], after.inputs[ids[i].id]) {
      StaysSettled(d, g, facts, order, ids[i].id);
    }
    WeightAscends(d, h, facts, after, ids);
    if Weight(d, h, facts, ids) == Weight(d, h, after, ids) {
      UnchangedAtAllNodes(d, g, facts, order, ids);
    }
  }

  lemma RunningIsBounded<V(!new)>(d: Domain<V>, g: GraphView, h: nat, facts: Facts<V>, ids: seq<DataNode>, n: nat)
    requires ValidView(g) && Running(d, g, h, facts, ids, n)
    ensures n <= 2 * |ids| * h + 1
  {
    WeightIsBounded(d, h, facts, ids);
  }

  /** One more sweep: it either goes on climbing or has reached a solution. */
  lemma SweepRuns<V(!new)>(d: Domain<V>, g: GraphView, h: nat, facts: Facts<V>, ids: seq<DataNode>, n: nat, order: seq<DataNode>)
    requires Hypotheses(d, g, h) && Running(d, g, h, facts, ids, n) && Enumerates(order, g.nodes)
    ensures Sweep(d, g, facts, order) != facts ==> Running(d, g, h, Sweep(d, g, facts, order), ids, n + 1)
    ensures Sweep(d, g, facts, order) == facts ==> Solves(d, g, facts)
  {
    var after := Sweep(d, g, facts, order);
    if after == facts {
      QuietSweepSolves(d, g, facts, order);
    } else {
      SweepAscends(d, g, facts, order);
      forall id | id in g.nodes ensures SettledAt(d, g, after, id) {
        var i :| 0 <= i < |order| && order[i] == g.nodes[id];
        BecomesSettled(d, g, facts, order, i);
      }
      if n > 0 {
        SweepClimbs(d, g, h, facts, ids, order);
      }
    }
  }

  /** A sweep that leaves every enumerated node as it was leaves everything as it was. */
  lemma UnchangedAtAllNodes<V>(d: Domain<V>, g: GraphView, facts: Facts<V>, order: seq<DataNode>, ids: seq<DataNode>)
    requires ValidView(g) && Visits(g, order) && Enumerates(ids, g.nodes) && Covers(g, facts)
    requires var after := Sweep(d, g, facts, order);
      forall i :: 0 <= i < |ids| ==>
        && ids[i].id in after.inputs && ids[i].id in after.outputs
        && facts.inputs[ids[i].id] == after.inputs[ids[i].id]
        && facts.outputs[ids[i].id] == after.outputs[ids[i].id]
    ensures Sweep(d, g, facts, order) == facts
  {
    var after := Sweep(d, g, facts, order);
    SweepTouchesOnly(d, g, facts, order);
    forall id: NodeId
      ensures id in facts.inputs ==> after.inputs[id] == facts.inputs[id]
      ensures id in facts.outputs ==> after.outputs[id] == facts.outputs[id]
    {
      if id in g.nodes {
        var i :| 0 <= i < |ids| && ids[i] == g.nodes[id];
        assert ids[i].id == id;
      }
    }
    assert after.inputs == facts.inputs && after.outputs == facts.outputs;
  }

  // ----- The solution reached is the least one -----

  lemma {:induction false} SweepStaysBelow<V(!new)>(d: Domain<V>, g: GraphView, facts: Facts<V>, order: seq<DataNode>, solution: Facts<V>)
    requires JoinSemilattice(d) && Monotone(d) && ValidView(g) && Visits(g, order) && Bounded(d, g, facts)
    requires Solves(d, g, solution) && Below(d, g, facts.outputs, solution.outputs)
    ensures Below(d, g, Sweep(d, g, facts, order).outputs, solution.outputs)
  {
    if order != [] {
      var before, node := order[..|order| - 1], order[|order| - 1];
      var f := Sweep(d, g, facts, before);
      SweepStaysBelow(d, g, facts, before, solution);
      SweepKeepsBounds(d, g, facts, before);
      WantedMonotone(d, g, f.outputs, solution.outputs, node.id);
      assert SolvesAt(d, g, solution, node.id);
      assert MonotoneAt(d, node, Wanted(d, g, f.outputs, node.id), solution.inputs[node.id]);
    }
  }

  lemma {:induction false} SweepsStayBelow<V(!new)>(d: Domain<V>, g: GraphView, stale: Facts<V>, orders: seq<seq<DataNode>>, solution: Facts<V>)
    requires JoinSemilattice(d) && Monotone(d) && ValidView(g) && AllEnumerate(g, orders) && Solves(d, g, solution)
    ensures var facts := Sweeps(d, g, Start(d, g, stale), orders);
      Bounded(d, g, facts) && Below(d, g, facts.outputs, solution.outputs)
  {
    if orders == [] {
      forall id | id in g.nodes ensures Leq(d, Start(d, g, stale).outputs[id], solution.outputs[id]) {
      }
    } else {
      var before, order := orders[..|orders| - 1], orders[|orders| - 1];
      SweepsStayBelow(d, g, stale, before, solution);
      var facts := Sweeps(d, g, Start(d, g, stale), before);
      SweepKeepsBounds(d, g, facts, order);
      SweepStaysBelow(d, g, facts, order, solution);
    }
  }

  /** With a monotone transfer, a run that ends in a solution ends in the least one. */
  lemma FixpointIsLeast<V(!new)>(d: Domain<V>, g: GraphView, stale: Facts<V>, orders: seq<seq<DataNode>>)
    requires JoinSemilattice(d) && Monotone(d) && ValidView(g) && AllEnumerate(g, orders)
    requires Solves(d, g, Sweeps(d, g, Start(d, g, stale), orders))
    ensures IsLeastSolution(d, g, Sweeps(d, g, Start(d, g, stale), orders))
  {
    var facts := Sweeps(d, g, Start(d, g, stale), orders);
    forall other | Solves(d, g, other)
      ensures Below(d, g, facts.inputs, other.inputs) && Below(d, g, facts.outputs, other.outputs)
    {
      SweepsStayBelow(d, g, stale, orders, other);
      forall id | id in g.nodes ensures Leq(d, facts.inputs[id], other.inputs[id]) {
        assert SolvesAt(d, g, facts, id) && SolvesAt(d, g, other, id);
        WantedMonotone(d, g, facts.outputs, other.outputs, id);
      }
    }
  }

  /** Two finished runs agree at every node, whatever their visiting orders and whatever
      values the maps held before. Frozen or not makes no difference, since the analysis
      sees only the nodes, the entry and the predecessor lists. */
  lemma RunsAgree<V(!new)>(
      d: Domain<V>,
      g1: GraphView, stale1: Facts<V>, orders1: seq<seq<DataNode>>,
      g2: GraphView, stale2: Facts<V>, orders2: seq<seq<DataNode>>)
    requires JoinSemilattice(d) && Monotone(d) && ValidView(g1) && ValidView(g2)
    requires g1.nodes == g2.nodes && g1.preds == g2.preds && g1.entry == g2.entry
    requires AllEnumerate(g1, orders1) && AllEnumerate(g2, orders2)
    requires Solves(d, g1, Sweeps(d, g1, Start(d, g1, stale1), orders1))
    requires Solves(d, g2, Sweeps(d, g2, Start(d, g2, stale2), orders2))
    ensures var a, b := Sweeps(d, g1, Start(d, g1, stale1), orders1), Sweeps(d, g2, Start(d, g2, stale2), orders2);
      forall id :: id in g1.nodes ==> a.inputs[id] == b.inputs[id] && a.outputs[id] == b.outputs[id]
  {
    var a, b := Sweeps(d, g1, Start(d, g1, stale1), orders1), Sweeps(d, g2, Start(d, g2, stale2), orders2);
    FixpointIsLeast(d, g1, stale1, orders1);
    FixpointIsLeast(d, g2, stale2, orders2);
    SameEquations(d, g1, g2, a);
    SameEquations(d, g2, g1, b);
    forall id | id in g1.nodes ensures a.inputs[id] == b.inputs[id] && a.outputs[id] == b.outputs[id] {
      LeqAntisymmetric(d, a.inputs[id], b.inputs[id]);
      LeqAntisymmetric(d, a.outputs[id], b.outputs[id]);
    }
  }

  lemma SameEquations<V>(d: Domain<V>, g1: GraphView, g2: GraphView, facts: Facts<V>)
    requires ValidView(g1) && ValidView(g2)
    requires g1.nodes == g2.nodes && g1.preds == g2.preds && g1.entry == g2.entry
    requires Solves(d, g1, facts)
    ensures Solves(d, g2, facts)
  {
    forall id | id in g2.nodes ensures SolvesAt(d, g2, facts, id) {
      assert SolvesAt(d, g1, facts, id);
    }
  }

  // ----- Path soundness -----

  ghost predicate IsPath(g: GraphView, path: seq<NodeId>)
    requires ValidView(g)
  {
    && |path| > 0
    && (forall i :: 0 <= i < |path| ==> path[i] in g.nodes)
    && forall i :: 0 < i < |path| ==> path[i - 1] in g.preds[path[i]]
  }

  /** The value that reaches the end of a path: the transfers along it applied to `initial`. */
  ghost function Along<V>(d: Domain<V>, g: GraphView, path: seq<NodeId>): V
    requires ValidView(g) && IsPath(g, path)
  {
    if |path| == 1 then d.initial
    else
      var init := path[..|path| - 1];
      d.transfer(g.nodes[init[|init| - 1]], Along(d, g, init))
  }

  lemma {:induction false} JoinOfIsUpperBound<V(!new)>(d: Domain<V>, outputs: map<NodeId, V>, preds: seq<NodeId>, p: NodeId)
    requires JoinSemilattice(d) && p in preds && p in outputs
    ensures Leq(d, outputs[p], JoinOf(d, outputs, preds))
  {
    var init, last := preds[..|preds| - 1], preds[|preds| - 1];
    var joined, value := JoinOf(d, outputs, init), Get(outputs, last, d.bottom);
    JoinIsUpperBound(d, joined, value);
    if p != last {
      JoinOfIsUpperBound(d, outputs, init, p);
      LeqTransitive(d, outputs[p], joined, d.join(joined, value));
    }
  }

  /** Every path whose first node has an input above the initial value delivers a value below
      the input that the solution gives to its last node. */
  lemma {:induction false} PathsStayBelow<V(!new)>(d: Domain<V>, g: GraphView, facts: Facts<V>, path: seq<NodeId>)
    requires JoinSemilattice(d) && Monotone(d) && ValidView(g) && Solves(d, g, facts)
    requires IsPath(g, path) && Leq(d, d.initial, facts.inputs[path[0]])
    ensures Leq(d, Along(d, g, path), facts.inputs[path[|path| - 1]])
  {
    if |path| > 1 {
      var init := path[..|path| - 1];
      PathsStayBelow(d, g, facts, init);
      StepStaysBelow(d, g, facts, init[|init| - 1], path[|path| - 1], Along(d, g, init));
    }
  }

  /** One edge of a path. */
  lemma StepStaysBelow<V(!new)>(d: Domain<V>, g: GraphView, facts: Facts<V>, p: NodeId, end: NodeId, v: V)
    requires JoinSemilattice(d) && Monotone(d) && ValidView(g) && Solves(d, g, facts)
    requires p in g.nodes && end in g.nodes && p in g.preds[end] && Leq(d, v, facts.inputs[p])
    ensures Leq(d, d.transfer(g.nodes[p], v), facts.inputs[end])
  {
    assert SolvesAt(d, g, facts, p) && SolvesAt(d, g, facts, end);
    assert MonotoneAt(d, g.nodes[p], v, facts.inputs[p]);
    JoinOfIsUpperBound(d, facts.outputs, g.preds[end], p);
    LeqTransitive(d, d.transfer(g.nodes[p], v), facts.outputs[p], facts.inputs[end]);
  }

  /** Every path from a predecessor-free entry, loops included, delivers a value below the
      input that any solution gives to its last node. */
  lemma PathsAreSound<V(!new)>(d: Domain<V>, g: GraphView, facts: Facts<V>, path: seq<NodeId>)
    requires JoinSemilattice(d) && Monotone(d) && ValidView(g) && Solves(d, g, facts)
    requires IsPath(g, path) && g.entry == Some(path[0]) && g.preds[path[0]] == []
    ensures Leq(d, Along(d, g, path), facts.inputs[path[|path| - 1]])
  {
    assert SolvesAt(d, g, facts, path[0]);
    LeqReflexive(d, d.initial);
    PathsStayBelow(d, g, facts, path);
  }

  /** All paths from `e` are sound. */
  ghost predicate SoundFrom<V(!new)>(d: Domain<V>, g: GraphView, facts: Facts<V>, e: NodeId)
    requires ValidView(g) && Covers(g, facts)
  {
    forall path :: IsPath(g, path) && path[0] == e ==> Leq(d, Along(d, g, path), facts.inputs[path[|path| - 1]])
  }

  /** In any solution, with or without predecessors of the entry, all its paths are sound
      exactly when its own input is above the initial value. */
  lemma SoundIffEntryAboveInitial<V(!new)>(d: Domain<V>, g: GraphView, facts: Facts<V>, e: NodeId)
    requires JoinSemilattice(d) && Monotone(d) && ValidView(g) && Solves(d, g, facts) && e in g.nodes
    ensures SoundFrom(d, g, facts, e) <==> Leq(d, d.initial, facts.inputs[e])
  {
    if SoundFrom(d, g, facts, e) {
      assert IsPath(g, [e]) && Along(d, g, [e]) == d.initial;
    } else {
      var path :| IsPath(g, path) && path[0] == e && !Leq(d, Along(d, g, path), facts.inputs[path[|path| - 1]]);
      if Leq(d, d.initial, facts.inputs[e]) {
        PathsStayBelow(d, g, facts, path);
      }
    }
  }

  /** An entry node with predecessors loses its boundary value: changing `initial` changes no
      solution. */
  lemma EntryWithPredecessorsForgetsInitial<V(!new)>(d: Domain<V>, g: GraphView, facts: Facts<V>, initial: V)
    requires ValidView(g)
    requires forall id :: g.entry == Some(id) && id in g.nodes ==> g.preds[id] != []
    ensures Solves(d, g, facts) <==> Solves(d.(initial := initial), g, facts)
  {
    var d' := d.(initial := initial);
    forall id | id in g.nodes ensures Wanted(d, g, facts.outputs, id) == Wanted(d', g, facts.outputs, id) {
      JoinOfIgnoresInitial(d, initial, facts.outputs, g.preds[id]);
    }
    if Solves(d, g, facts) {
      assert forall id :: id in g.nodes ==> SolvesAt(d, g, facts, id) && SolvesAt(d', g, facts, id);
    }
    if Solves(d', g, facts) {
      assert forall id :: id in g.nodes ==> SolvesAt(d', g, facts, id) && SolvesAt(d, g, facts, id);
    }
  }

  lemma {:induction false} JoinOfIgnoresInitial<V>(d: Domain<V>, initial: V, outputs: map<NodeId, V>, preds: seq<NodeId>)
    ensures JoinOf(d.(initial := initial), outputs, preds) == JoinOf(d, outputs, preds)
  {
    if preds != [] {
      JoinOfIgnoresInitial(d, initial, outputs, preds[..|preds| - 1]);
    }
  }
}
