/** The forward analysis: round-robin sweeps over all nodes until a sweep changes nothing. */
module ForwardAnalyses {
  import opened Wrappers
  import opened DataFlowGraphs
  import opened Lattices
  import opened Fixpoint

  class ForwardAnalysis<V(==, !new)> {
    const domain: Domain<V>
    var inputs: map<NodeId, V>
    var outputs: map<NodeId, V>

    constructor (domain: Domain<V>)
      ensures this.domain == domain && State() == Facts(map[], map[])
    {
      this.domain := domain;
      inputs, outputs := map[], map[];
    }

    function State(): Facts<V>
      reads this
    {
      Facts(inputs, outputs)
    }

    /** Resets every node to bottom and gives the entry its boundary value. */
    method Initialise(graph: DataFlowGraph) returns (ghost order: seq<DataNode>)
      requires graph.Valid()
      modifies this
      ensures State() == Start(domain, graph.View(), old(State()))
      ensures Enumerates(order, graph.nodes) && |order| == graph.nextNodeId
    {
      var nodes := graph.AllNodes();
      inputs := Reset(inputs, nodes, graph.nodes, domain.bottom);
      outputs := Reset(outputs, nodes, graph.nodes, domain.bottom);
      if graph.entryNode.Some? {
        inputs := inputs[graph.entryNode.value := domain.initial];
      }
      order := nodes;
    }

    /** The stored boundary value of a node without predecessors; otherwise the join of the
        predecessors' outputs, in a lattice their least upper bound. */
    method ComputeInput(graph: DataFlowGraph, id: NodeId) returns (input: V)
      requires graph.Valid() && id in graph.nodes
      ensures input == NextInput(domain, graph.View(), State(), id)
      ensures graph.View().preds[id] == [] ==> input == if id in inputs then inputs[id] else domain.bottom
      ensures
        var preds := graph.View().preds[id];
        preds != [] && JoinSemilattice(domain) && (forall p :: p in preds ==> p in outputs) ==>
          IsLeastAbove(domain, input, outputs, preds)
    {
      var preds := graph.Predecessors(id);
      if preds == [] {
        input := Get(inputs, id, domain.bottom);
      } else {
        input := domain.bottom;
        for i := 0 to |preds|
          invariant input == JoinOf(domain, outputs, preds[..i])
        {
          input := domain.join(input, Get(outputs, preds[i], domain.bottom));
          assert preds[..i + 1][..i] == preds[..i];
        }
        assert preds[..|preds|] == preds;
        if JoinSemilattice(domain) && forall p :: p in preds ==> p in outputs {
          JoinOfIsLeastAbove(domain, outputs, preds, input);
        }
      }
    }

    /** Recomputes one node. */
    method Update(graph: DataFlowGraph, node: DataNode) returns (changed: bool)
      requires graph.Valid() && node.id in graph.nodes
      modifies this
      ensures State() == Visit(domain, graph.View(), old(State()), node)
      ensures changed <==> State() != old(State())
    {
      changed := false;
      var input := ComputeInput(graph, node.id);
      if node.id in inputs && inputs[node.id] != input {
        inputs := inputs[node.id := input];
        changed := true;
      }
      var output := domain.transfer(node, Get(inputs, node.id, domain.bottom));
      if node.id in outputs && outputs[node.id] != output {
        outputs := outputs[node.id := output];
        changed := true;
      }
    }

    /** Recomputes every node once. The flag tells whether anything changed: since no node is
        visited twice, no change can be undone within the sweep. */
    method SweepOnce(graph: DataFlowGraph, order: seq<DataNode>) returns (changed: bool)
      requires graph.Valid() && Enumerates(order, graph.nodes)
      modifies this
      ensures State() == Sweep(domain, graph.View(), old(State()), order)
      ensures changed <==> State() != old(State())
    {
      changed := false;
      ghost var g, start := graph.View(), State();
      for i := 0 to |order|
        invariant State() == Sweep(domain, g, start, order[..i])
        invariant changed <==> State() != start
      {
        assert order[..i + 1][..i] == order[..i];
        var visitChanged := Update(graph, order[i]);
        changed := changed || visitChanged;
        if State() == start {
          QuietPrefix(domain, g, start, order, i);
        }
      }
      assert order[..|order|] == order;
    }

    /** Sweeps until nothing changes. The visiting order of each sweep is arbitrary. */
    method Run(graph: DataFlowGraph, ghost height: nat) returns (ghost orders: seq<seq<DataNode>>)
      requires graph.Valid()
      requires JoinSemilattice(domain) && Monotone(domain) && HeightAtMost(domain, height)
      modifies this
      ensures graph.Valid() && AllEnumerate(graph.View(), orders)
      ensures State() == Sweeps(domain, graph.View(), Start(domain, graph.View(), old(State())), orders)
      ensures IsLeastSolution(domain, graph.View(), State()) && IsLeastPromise(domain, graph.View(), State())
      ensures |orders| <= 2 * graph.nextNodeId * height + 2
    {
      ghost var g := graph.View();
      ghost var ids := Initialise(graph);
      ghost var start := State();
      orders := [];
      StartRuns(domain, g, height, old(State()), ids);
      var changed := true;
      while changed
        invariant AllEnumerate(g, orders) && State() == Sweeps(domain, g, start, orders)
        invariant changed ==> Running(domain, g, height, State(), ids, |orders|)
        invariant !changed ==> Solves(domain, g, State()) && |orders| <= 2 * |ids| * height + 2
        decreases if changed then 2 * |ids| * height + 2 - |orders| else -1
      {
        var order := graph.AllNodes();
        RunningIsBounded(domain, g, height, State(), ids, |orders|);
        SweepRuns(domain, g, height, State(), ids, |orders|, order);
        SweepsExtend(domain, g, start, orders, order);
        changed := SweepOnce(graph, order);
        orders := orders + [order];
      }
      FixpointIsLeast(domain, g, old(State()), orders);
      LeastKeepsPromise(domain, g, State());
    }
  }
}
