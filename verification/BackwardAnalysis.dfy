/** The backward analysis, and its step-for-step duality with the forward analysis. */
module BackwardAnalyses {
  import opened Wrappers
  import opened DataFlowGraphs
  import opened Lattices
  import opened Fixpoint

  // ----- What a backward run computes -----

  /** The meet of the inputs of `succs`, folded from the left. */
  function MeetOf<V>(d: Domain<V>, inputs: map<NodeId, V>, succs: seq<NodeId>): V {
    if succs == [] then d.top
    else d.meet(MeetOf(d, inputs, succs[..|succs| - 1]), Get(inputs, succs[|succs| - 1], d.top))
  }

  function NextOutput<V>(d: Domain<V>, g: GraphView, facts: Facts<V>, id: NodeId): V
    requires id in g.succs
  {
    if g.succs[id] == [] then Get(facts.outputs, id, d.top) else MeetOf(d, facts.inputs, g.succs[id])
  }

  /** One visit recomputes the output of a node and then its input from that output. */
  function BackwardVisit<V>(d: Domain<V>, g: GraphView, facts: Facts<V>, node: DataNode): Facts<V>
    requires node.id in g.succs
  {
    var outputs := Put(facts.outputs, node.id, NextOutput(d, g, facts, node.id));
    Facts(Put(facts.inputs, node.id, d.transferBackward(node, Get(outputs, node.id, d.top))), outputs)
  }

  ghost function BackwardSweep<V>(d: Domain<V>, g: GraphView, facts: Facts<V>, order: seq<DataNode>): Facts<V>
    requires ValidView(g) && Visits(g, order)
  {
    if order == [] then facts
    else BackwardVisit(d, g, BackwardSweep(d, g, facts, order[..|order| - 1]), order[|order| - 1])
  }

  ghost function BackwardSweeps<V>(d: Domain<V>, g: GraphView, facts: Facts<V>, orders: seq<seq<DataNode>>): Facts<V>
    requires ValidView(g) && AllEnumerate(g, orders)
  {
    if orders == [] then facts
    else BackwardSweep(d, g, BackwardSweeps(d, g, facts, orders[..|orders| - 1]), orders[|orders| - 1])
  }

  ghost function BackwardStart<V>(d: Domain<V>, g: GraphView, stale: Facts<V>): Facts<V> {
    var outputs := Overwritten(stale.outputs, g.nodes.Keys, d.top);
    Facts(
      Overwritten(stale.inputs, g.nodes.Keys, d.top),
      if g.exit.Some? then outputs[g.exit.value := d.initial] else outputs)
  }

  /** `facts` solve the meet and backward transfer equations at every node. */
  ghost predicate BackwardSolves<V>(d: Domain<V>, g: GraphView, facts: Facts<V>)
    requires ValidView(g)
  {
    && Covers(g, facts)
    && forall id :: id in g.nodes ==>
         && facts.outputs[id] ==
              (if g.succs[id] != [] then MeetOf(d, facts.inputs, g.succs[id])
               else if g.exit == Some(id) then d.initial
               else d.top)
         && facts.inputs[id] == d.transferBackward(g.nodes[id], facts.outputs[id])
  }

  /** At every node `lower` is below `upper` in the order that `meet` induces. */
  ghost predicate AtMost<V>(d: Domain<V>, g: GraphView, lower: map<NodeId, V>, upper: map<NodeId, V>) {
    forall id :: id in g.nodes ==> id in upper && id in lower && d.meet(upper[id], lower[id]) == lower[id]
  }

  ghost predicate IsGreatestSolution<V(!new)>(d: Domain<V>, g: GraphView, facts: Facts<V>)
    requires ValidView(g)
  {
    && BackwardSolves(d, g, facts)
    && forall other :: BackwardSolves(d, g, other) ==>
         AtMost(d, g, other.inputs, facts.inputs) && AtMost(d, g, other.outputs, facts.outputs)
  }

  // ----- The equations in terms of the order alone -----

  /** `v` is the greatest value below the inputs of `succs`, in the order that `meet` induces. */
  ghost predicate IsGreatestBelow<V(!new)>(d: Domain<V>, v: V, inputs: map<NodeId, V>, succs: seq<NodeId>) {
    && (forall s :: s in succs ==> s in inputs && d.meet(inputs[s], v) == v)
    && forall u :: (forall s :: s in succs ==> s in inputs && d.meet(inputs[s], u) == u) ==> d.meet(v, u) == u
  }

  /** What the analysis promises at a node: the boundary value without successors, the greatest
      lower bound of their inputs with successors, and the transfer from output to input. */
  ghost predicate KeepsBackwardPromiseAt<V(!new)>(d: Domain<V>, g: GraphView, facts: Facts<V>, id: NodeId)
    requires id in g.nodes && id in g.succs && id in facts.inputs && id in facts.outputs
  {
    && (g.succs[id] == [] && g.exit == Some(id) ==> facts.outputs[id] == d.initial)
    && (g.succs[id] == [] && g.exit != Some(id) ==> facts.outputs[id] == d.top)
    && (g.succs[id] != [] ==> IsGreatestBelow(d, facts.outputs[id], facts.inputs, g.succs[id]))
    && facts.inputs[id] == d.transferBackward(g.nodes[id], facts.outputs[id])
  }

  ghost predicate KeepsBackwardPromise<V(!new)>(d: Domain<V>, g: GraphView, facts: Facts<V>)
    requires ValidView(g)
  {
    Covers(g, facts) && forall id :: id in g.nodes ==> KeepsBackwardPromiseAt(d, g, facts, id)
  }

  /** No other facts that keep the promise are higher anywhere. */
  ghost predicate IsGreatestPromise<V(!new)>(d: Domain<V>, g: GraphView, facts: Facts<V>)
    requires ValidView(g)
  {
    && KeepsBackwardPromise(d, g, facts)
    && forall other :: KeepsBackwardPromise(d, g, other) ==>
         AtMost(d, g, other.inputs, facts.inputs) && AtMost(d, g, other.outputs, facts.outputs)
  }

  lemma BoundsAreDual<V(!new)>(d: Domain<V>, v: V, inputs: map<NodeId, V>, succs: seq<NodeId>)
    ensures IsGreatestBelow(d, v, inputs, succs) <==> IsLeastAbove(Dual(d), v, inputs, succs)
  {
    assert forall a, b :: Leq(Dual(d), a, b) <==> d.meet(a, b) == b;
  }

  /** In a lattice the meet fold is the greatest lower bound of the inputs, and the only one. */
  lemma MeetOfIsGreatestBelow<V(!new)>(d: Domain<V>, inputs: map<NodeId, V>, succs: seq<NodeId>, v: V)
    requires JoinSemilattice(Dual(d)) && forall s :: s in succs ==> s in inputs
    ensures IsGreatestBelow(d, v, inputs, succs) <==> v == MeetOf(d, inputs, succs)
  {
    BoundsAreDual(d, v, inputs, succs);
    MeetIsDualJoin(d, inputs, succs);
    JoinOfIsLeastAbove(Dual(d), inputs, succs, v);
  }

  lemma SolvesIffBackwardPromise<V(!new)>(d: Domain<V>, g: GraphView, facts: Facts<V>)
    requires JoinSemilattice(Dual(d)) && ValidView(g)
    ensures BackwardSolves(d, g, facts) <==> KeepsBackwardPromise(d, g, facts)
  {
    assert forall id, s :: id in g.succs && s in g.succs[id] ==> s in g.nodes;
    if Covers(g, facts) {
      forall id | id in g.nodes
        ensures IsGreatestBelow(d, facts.outputs[id], facts.inputs, g.succs[id])
                <==> facts.outputs[id] == MeetOf(d, facts.inputs, g.succs[id])
      {
        MeetOfIsGreatestBelow(d, facts.inputs, g.succs[id], facts.outputs[id]);
      }
    }
  }

  lemma GreatestKeepsPromise<V(!new)>(d: Domain<V>, g: GraphView, facts: Facts<V>)
    requires JoinSemilattice(Dual(d)) && ValidView(g) && IsGreatestSolution(d, g, facts)
    ensures IsGreatestPromise(d, g, facts)
  {
    SolvesIffBackwardPromise(d, g, facts);
    forall other | KeepsBackwardPromise(d, g, other)
      ensures AtMost(d, g, other.inputs, facts.inputs) && AtMost(d, g, other.outputs, facts.outputs)
    {
      SolvesIffBackwardPromise(d, g, other);
    }
  }

  // ----- Duality -----

  function Reverse(g: GraphView): GraphView {
    GraphView(g.nodes, g.succs, g.preds, g.exit, g.entry)
  }

  function Swap<V>(facts: Facts<V>): Facts<V> {
    Facts(facts.outputs, facts.inputs)
  }

  lemma ReverseIsValid(g: GraphView)
    requires ValidView(g)
    ensures ValidView(Reverse(g))
  {
    forall u, v | u in g.preds && v in g.succs ensures LinkedEqually(g.preds, g.succs, u, v) {
      assert LinkedEqually(g.succs, g.preds, v, u);
    }
  }

  lemma {:induction false} MeetIsDualJoin<V>(d: Domain<V>, inputs: map<NodeId, V>, succs: seq<NodeId>)
    ensures MeetOf(d, inputs, succs) == JoinOf(Dual(d), inputs, succs)
  {
    if succs != [] {
      MeetIsDualJoin(d, inputs, succs[..|succs| - 1]);
    }
  }

  /** A backward visit is a forward visit of the reversed graph in the dual domain, with
      inputs and outputs exchanged. */
  lemma VisitDuality<V>(d: Domain<V>, g: GraphView, facts: Facts<V>, node: DataNode)
    requires node.id in g.succs
    ensures BackwardVisit(d, g, facts, node) == Swap(Visit(Dual(d), Reverse(g), Swap(facts), node))
  {
    MeetIsDualJoin(d, facts.inputs, g.succs[node.id]);
  }

  lemma {:induction false} SweepDuality<V>(d: Domain<V>, g: GraphView, facts: Facts<V>, order: seq<DataNode>)
    requires ValidView(g) && ValidView(Reverse(g)) && Visits(g, order)
    ensures BackwardSweep(d, g, facts, order) == Swap(Sweep(Dual(d), Reverse(g), Swap(facts), order))
  {
    if order != [] {
      var before := order[..|order| - 1];
      SweepDuality(d, g, facts, before);
      VisitDuality(d, g, BackwardSweep(d, g, facts, before), order[|order| - 1]);
    }
  }

  /** A whole backward run is, step for step under the same visiting orders, a forward run of
      the reversed graph in the dual domain. */
  lemma {:induction false} RunDuality<V>(d: Domain<V>, g: GraphView, stale: Facts<V>, orders: seq<seq<DataNode>>)
    requires ValidView(g) && ValidView(Reverse(g)) && AllEnumerate(g, orders)
    ensures BackwardSweeps(d, g, BackwardStart(d, g, stale), orders)
         == Swap(Sweeps(Dual(d), Reverse(g), Start(Dual(d), Reverse(g), Swap(stale)), orders))
  {
    if orders != [] {
      var before := orders[..|orders| - 1];
      RunDuality(d, g, stale, before);
      SweepDuality(d, g, BackwardSweeps(d, g, BackwardStart(d, g, stale), before), orders[|orders| - 1]);
    }
  }

  /** The meet equations are the join equations of the dual. */
  lemma SolutionDuality<V>(d: Domain<V>, g: GraphView, facts: Facts<V>)
    requires ValidView(g) && ValidView(Reverse(g))
    ensures BackwardSolves(d, g, facts) <==> Solves(Dual(d), Reverse(g), Swap(facts))
  {
    forall id | id in g.nodes ensures MeetOf(d, facts.inputs, g.succs[id]) == JoinOf(Dual(d), facts.inputs, g.succs[id]) {
      MeetIsDualJoin(d, facts.inputs, g.succs[id]);
    }
    if Solves(Dual(d), Reverse(g), Swap(facts)) {
      assert forall id :: id in g.nodes ==> SolvesAt(Dual(d), Reverse(g), Swap(facts), id);
    }
  }

  /** The least solution of the dual equations is the greatest solution of the meet equations. */
  lemma GreatestFromLeast<V(!new)>(d: Domain<V>, g: GraphView, facts: Facts<V>)
    requires ValidView(g) && ValidView(Reverse(g))
    requires IsLeastSolution(Dual(d), Reverse(g), Swap(facts))
    ensures IsGreatestSolution(d, g, facts)
  {
    SolutionDuality(d, g, facts);
    forall other | BackwardSolves(d, g, other)
      ensures AtMost(d, g, other.inputs, facts.inputs) && AtMost(d, g, other.outputs, facts.outputs)
    {
      SolutionDuality(d, g, other);
      var swapped := Swap(other);
      assert Solves(Dual(d), Reverse(g), swapped);
      forall id | id in g.nodes
        ensures d.meet(facts.inputs[id], other.inputs[id]) == other.inputs[id]
        ensures d.meet(facts.outputs[id], other.outputs[id]) == other.outputs[id]
      {
        assert Leq(Dual(d), Swap(facts).inputs[id], swapped.inputs[id]);
        assert Leq(Dual(d), Swap(facts).outputs[id], swapped.outputs[id]);
      }
    }
  }

  lemma QuietBackwardPrefix<V>(d: Domain<V>, g: GraphView, facts: Facts<V>, order: seq<DataNode>, i: nat)
    requires ValidView(g) && Visits(g, order) && DistinctIds(order) && i < |order|
    requires BackwardSweep(d, g, facts, order[..i + 1]) == facts
    ensures BackwardSweep(d, g, facts, order[..i]) == facts
  {
    ReverseIsValid(g);
    SweepDuality(d, g, facts, order[..i]);
    SweepDuality(d, g, facts, order[..i + 1]);
    QuietPrefix(Dual(d), Reverse(g), Swap(facts), order, i);
  }

  /** One more backward sweep, seen as a forward sweep of the dual: it either goes on climbing
      or has reached a solution. */
  lemma BackwardRound<V(!new)>(d: Domain<V>, g: GraphView, h: nat, start: Facts<V>, facts: Facts<V>, ids: seq<DataNode>,
                               orders: seq<seq<DataNode>>, order: seq<DataNode>)
    requires ValidView(g) && Hypotheses(Dual(d), Reverse(g), h) && Enumerates(order, g.nodes)
    requires AllEnumerate(Reverse(g), orders) && Swap(facts) == Sweeps(Dual(d), Reverse(g), start, orders)
    requires Running(Dual(d), Reverse(g), h, Swap(facts), ids, |orders|)
    ensures |orders| <= 2 * |ids| * h + 1
    ensures var after := BackwardSweep(d, g, facts, order);
      && AllEnumerate(Reverse(g), orders + [order])
      && Swap(after) == Sweeps(Dual(d), Reverse(g), start, orders + [order])
      && (after != facts ==> Running(Dual(d), Reverse(g), h, Swap(after), ids, |orders| + 1))
      && (after == facts ==> Solves(Dual(d), Reverse(g), Swap(after)))
  {
    RunningIsBounded(Dual(d), Reverse(g), h, Swap(facts), ids, |orders|);
    SweepRuns(Dual(d), Reverse(g), h, Swap(facts), ids, |orders|, order);
    SweepsExtend(Dual(d), Reverse(g), start, orders, order);
    SweepDuality(d, g, facts, order);
  }

  /** A backward run that ends in a solution ends in the greatest one. */
  lemma BackwardRunIsGreatest<V(!new)>(d: Domain<V>, g: GraphView, stale: Facts<V>, facts: Facts<V>, orders: seq<seq<DataNode>>)
    requires ValidView(g) && JoinSemilattice(Dual(d)) && Monotone(Dual(d)) && AllEnumerate(Reverse(g), orders)
    requires ValidView(Reverse(g)) && Solves(Dual(d), Reverse(g), Swap(facts))
    requires Swap(facts) == Sweeps(Dual(d), Reverse(g), Start(Dual(d), Reverse(g), Swap(stale)), orders)
    ensures AllEnumerate(g, orders) && facts == BackwardSweeps(d, g, BackwardStart(d, g, stale), orders)
    ensures IsGreatestSolution(d, g, facts) && IsGreatestPromise(d, g, facts)
  {
    FixpointIsLeast(Dual(d), Reverse(g), Swap(stale), orders);
    RunDuality(d, g, stale, orders);
    GreatestFromLeast(d, g, facts);
    GreatestKeepsPromise(d, g, facts);
  }

  class BackwardAnalysis<V(==, !new)> {
    const domain: Domain<V>
    var inputs: map<NodeId, V>
    var outputs: map<NodeId, V>

    constructor (domain: Domain<V>)
      ensures this.domain == domain && State() == Facts(map[], map[])
    {
      this.domain := domain;
      inputs, outputs := map[], map[];
    }

    function State(): Facts<V>
      reads this
    {
      Facts(inputs, outputs)
    }

    /** Resets every node to top and gives the exit its boundary value. */
    method Initialise(graph: DataFlowGraph) returns (ghost order: seq<DataNode>)
      requires graph.Valid()
      modifies this
      ensures State() == BackwardStart(domain, graph.View(), old(State()))
      ensures Enumerates(order, graph.nodes) && |order| == graph.nextNodeId
    {
      var nodes := graph.AllNodes();
      inputs := Reset(inputs, nodes, graph.nodes, domain.top);
      outputs := Reset(outputs, nodes, graph.nodes, domain.top);
      if graph.exitNode.Some? {
        outputs := outputs[graph.exitNode.value := domain.initial];
      }
      order := nodes;
    }

    /** The stored boundary value of a node without successors; otherwise the meet of the
        successors' inputs, in a lattice their greatest lower bound. */
    method ComputeOutput(graph: DataFlowGraph, id: NodeId) returns (output: V)
      requires graph.Valid() && id in graph.nodes
      ensures output == NextOutput(domain, graph.View(), State(), id)
      ensures graph.View().succs[id] == [] ==> output == if id in outputs then outputs[id] else domain.top
      ensures
        var succs := graph.View().succs[id];
        succs != [] && JoinSemilattice(Dual(domain)) && (forall s :: s in succs ==> s in inputs) ==>
          IsGreatestBelow(domain, output, inputs, succs)
    {
      var succs := graph.Successors(id);
      if succs == [] {
        output := Get(outputs, id, domain.top);
      } else {
        output := domain.top;
        for i := 0 to |succs|
          invariant output == MeetOf(domain, inputs, succs[..i])
        {
          output := domain.meet(output, Get(inputs, succs[i], domain.top));
          assert succs[..i + 1][..i] == succs[..i];
        }
        assert succs[..|succs|] == succs;
        if JoinSemilattice(Dual(domain)) && forall s :: s in succs ==> s in inputs {
          MeetOfIsGreatestBelow(domain, inputs, succs, output);
        }
      }
    }

    /** Recomputes one node. */
    method Update(graph: DataFlowGraph, node: DataNode) returns (changed: bool)
      requires graph.Valid() && node.id in graph.nodes
      modifies this
      ensures State() == BackwardVisit(domain, graph.View(), old(State()), node)
      ensures changed <==> State() != old(State())
    {
      changed := false;
      var output := ComputeOutput(graph, node.id);
      if node.id in outputs && outputs[node.id] != output {
        outputs := outputs[node.id := output];
        changed := true;
      }
      var input := domain.transferBackward(node, Get(outputs, node.id, domain.top));
      if node.id in inputs && inputs[node.id] != input {
        inputs := inputs[node.id := input];
        changed := true;
      }
    }

    /** Recomputes every node once. */
    method SweepOnce(graph: DataFlowGraph, order: seq<DataNode>) returns (changed: bool)
      requires graph.Valid() && Enumerates(order, graph.nodes)
      modifies this
      ensures State() == BackwardSweep(domain, graph.View(), old(State()), order)
      ensures changed <==> State() != old(State())
    {
      changed := false;
      ghost var g, start := graph.View(), State();
      for i := 0 to |order|
        invariant State() == BackwardSweep(domain, g, start, order[..i])
        invariant changed <==> State() != start
      {
        assert order[..i + 1][..i] == order[..i];
        var visitChanged := Update(graph, order[i]);
        changed := changed || visitChanged;
        if State() == start {
          QuietBackwardPrefix(domain, g, start, order, i);
        }
      }
      assert order[..|order|] == order;
    }

    /** Sweeps until nothing changes. The visiting order of each sweep is arbitrary. */
    method Run(graph: DataFlowGraph, ghost height: nat) returns (ghost orders: seq<seq<DataNode>>)
      requires graph.Valid()
      requires JoinSemilattice(Dual(domain)) && Monotone(Dual(domain)) && HeightAtMost(Dual(domain), height)
      modifies this
      ensures graph.Valid() && AllEnumerate(graph.View(), orders)
      ensures State() == BackwardSweeps(domain, graph.View(), BackwardStart(domain, graph.View(), old(State())), orders)
      ensures IsGreatestSolution(domain, graph.View(), State()) && IsGreatestPromise(domain, graph.View(), State())
      ensures |orders| <= 2 * graph.nextNodeId * height + 2
    {
      ghost var g, dual := graph.View(), Dual(domain);
      ghost var reversed, start := Reverse(g), Start(dual, Reverse(g), Swap(State()));
      ReverseIsValid(g);
      ghost var ids := Initialise(graph);
      orders := [];
      StartRuns(dual, reversed, height, old(Swap(State())), ids);
      ghost var limit := 2 * |ids| * height + 2;
      var changed := true;
      while changed
        invariant AllEnumerate(reversed, orders) && Swap(State()) == Sweeps(dual, reversed, start, orders)
        invariant changed ==> Running(dual, reversed, height, Swap(State()), ids, |orders|)
        invariant !changed ==> Solves(dual, reversed, Swap(State())) && |orders| <= limit
        decreases if changed then limit - |orders| else -1
      {
        var order := graph.AllNodes();
        BackwardRound(domain, g, height, start, State(), ids, orders, order);
        changed := SweepOnce(graph, order);
        orders := orders + [order];
      }
      BackwardRunIsGreatest(domain, g, old(State()), State(), orders);
    }
  }
}
