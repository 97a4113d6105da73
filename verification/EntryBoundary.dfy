/** When an entry node keeps the initial value of a forward analysis, and when all paths from it
    are sound: in every analysis exactly when it has no predecessors, which a run on an entry that
    loops to itself shows. */
module EntryBoundaries {
  import opened Wrappers
  import opened DataFlowGraphs
  import opened Lattices
  import opened Fixpoint
  import opened ForwardAnalyses

  /** Whether control reaches a node: every node passes on what it gets. */
  function PassThrough(): Domain<bool> {
    Domain(true, false, true, (a, b) => a || b, (a, b) => a && b, (_, v) => v, (_, v) => v)
  }

  lemma {:induction false} ReachednessClimbs(chain: seq<bool>, i: nat)
    requires StrictChain(PassThrough(), chain) && i < |chain|
    ensures i <= if chain[i] then 1 else 0
  {
    if i > 0 {
      ReachednessClimbs(chain, i - 1);
      assert Leq(PassThrough(), chain[i - 1], chain[i]) && chain[i - 1] != chain[i];
    }
  }

  lemma PassThroughQualifies()
    ensures JoinSemilattice(PassThrough()) && Monotone(PassThrough()) && HeightAtMost(PassThrough(), 1)
  {
    forall chain | StrictChain(PassThrough(), chain) ensures |chain| <= 2 {
      if chain != [] {
        ReachednessClimbs(chain, |chain| - 1);
      }
    }
  }

  function Nowhere(g: GraphView): Facts<bool> {
    Facts(map id | id in g.nodes :: false, map id | id in g.nodes :: false)
  }

  lemma {:induction false} JoinOfNowhere(g: GraphView, preds: seq<NodeId>)
    ensures JoinOf(PassThrough(), Nowhere(g).outputs, preds) == false
  {
    if preds != [] {
      JoinOfNowhere(g, preds[..|preds| - 1]);
    }
  }

  /** If the entry has predecessors, the least solution is that nothing is reached. */
  lemma NowhereIsLeast(g: GraphView, e: NodeId)
    requires ValidView(g) && g.entry == Some(e) && e in g.nodes && g.preds[e] != []
    ensures IsLeastSolution(PassThrough(), g, Nowhere(g))
  {
    var d, facts := PassThrough(), Nowhere(g);
    forall id | id in g.nodes ensures SolvesAt(d, g, facts, id) {
      JoinOfNowhere(g, g.preds[id]);
    }
    assert forall v :: Leq(d, false, v);
  }

  /** The entry keeps the initial value in every analysis. */
  ghost predicate EntryIsKept(g: GraphView, e: NodeId)
    requires ValidView(g) && e in g.nodes
  {
    forall d: Domain<bool>, facts: Facts<bool> ::
      JoinSemilattice(d) && Monotone(d) && IsLeastSolution(d, g, facts) ==> facts.inputs[e] == d.initial
  }

  /** All paths from the entry are sound in every analysis. */
  ghost predicate EntryIsSound(g: GraphView, e: NodeId)
    requires ValidView(g) && e in g.nodes
  {
    forall d: Domain<bool>, facts: Facts<bool> ::
      JoinSemilattice(d) && Monotone(d) && IsLeastSolution(d, g, facts) ==> SoundFrom(d, g, facts, e)
  }

  /** Whatever the values, a solution keeps the initial value of an entry without predecessors. */
  lemma FreeEntryIsKept<V(!new)>(d: Domain<V>, g: GraphView, facts: Facts<V>, e: NodeId)
    requires ValidView(g) && g.entry == Some(e) && e in g.nodes && g.preds[e] == [] && Solves(d, g, facts)
    ensures facts.inputs[e] == d.initial
  {
    assert SolvesAt(d, g, facts, e);
  }

  lemma KeptIffNoPredecessors(g: GraphView, e: NodeId)
    requires ValidView(g) && g.entry == Some(e) && e in g.nodes
    ensures EntryIsKept(g, e) <==> g.preds[e] == []
  {
    if g.preds[e] == [] {
      forall d: Domain<bool>, facts: Facts<bool> | JoinSemilattice(d) && Monotone(d) && IsLeastSolution(d, g, facts)
        ensures facts.inputs[e] == d.initial
      {
        FreeEntryIsKept(d, g, facts, e);
      }
    } else {
      PassThroughQualifies();
      NowhereIsLeast(g, e);
      assert Nowhere(g).inputs[e] != PassThrough().initial;
    }
  }

  lemma SoundIffNoPredecessors(g: GraphView, e: NodeId)
    requires ValidView(g) && g.entry == Some(e) && e in g.nodes
    ensures EntryIsSound(g, e) <==> g.preds[e] == []
  {
    if g.preds[e] == [] {
      forall d: Domain<bool>, facts: Facts<bool> | JoinSemilattice(d) && Monotone(d) && IsLeastSolution(d, g, facts)
        ensures SoundFrom(d, g, facts, e)
      {
        FreeEntryIsKept(d, g, facts, e);
        LeqReflexive(d, d.initial);
        SoundIffEntryAboveInitial(d, g, facts, e);
      }
    } else {
      var d, facts := PassThrough(), Nowhere(g);
      PassThroughQualifies();
      NowhereIsLeast(g, e);
      SoundIffEntryAboveInitial(d, g, facts, e);
      assert !SoundFrom(d, g, facts, e);
    }
  }

  /** A graph of one node that loops to itself and is the entry. */
  method LoopingEntry(node: DataNode, edgeType: EdgeType) returns (graph: DataFlowGraph, e: NodeId)
    ensures fresh(graph) && graph.Valid()
    ensures e in graph.View().nodes && graph.View().entry == Some(e) && graph.View().preds[e] == [e]
  {
    graph, e := SelfLoop(node, edgeType);
    graph.SetEntry(e);
  }

  /** In a run of the pass-through analysis on that graph the node ends unreached, although the
      initial value is that it is reached. */
  method LoopingEntryIsLost(node: DataNode, edgeType: EdgeType) returns (input: bool)
    ensures input == false != PassThrough().initial
  {
    var graph, e := LoopingEntry(node, edgeType);
    var analysis := new ForwardAnalysis(PassThrough());
    PassThroughQualifies();
    ghost var g := graph.View();
    ghost var orders := analysis.Run(graph, 1);
    NowhereIsLeast(g, e);
    LeastIsNowhere(g, analysis.State(), e);
    input := analysis.inputs[e];
  }

  lemma LeastIsNowhere(g: GraphView, facts: Facts<bool>, e: NodeId)
    requires ValidView(g) && e in g.nodes
    requires IsLeastSolution(PassThrough(), g, Nowhere(g)) && IsLeastSolution(PassThrough(), g, facts)
    ensures facts.inputs[e] == false
  {
    assert Below(PassThrough(), g, facts.inputs, Nowhere(g).inputs);
    assert Leq(PassThrough(), facts.inputs[e], Nowhere(g).inputs[e]);
  }
}
