/** When an exit node keeps the initial value of a backward analysis, and which backward paths
    are sound: the mirror image of the entry, seen through the reversed graph in the dual domain,
    again with a run on which the value is lost. */
module ExitBoundaries {
  import opened Wrappers
  import opened DataFlowGraphs
  import opened Lattices
  import opened Fixpoint
  import opened BackwardAnalyses
  import opened EntryBoundaries

  lemma DualOfDual<V>(d: Domain<V>)
    ensures Dual(Dual(d)) == d
  {
  }

  ghost predicate BackwardHypotheses<V(!new)>(d: Domain<V>, g: GraphView) {
    JoinSemilattice(Dual(d)) && Monotone(Dual(d)) && ValidView(g)
  }

  // ----- Paths that lead to the exit -----

  /** A path that is followed against its edges, from the exit towards the entry. */
  ghost predicate IsBackPath(g: GraphView, path: seq<NodeId>)
    requires ValidView(g)
  {
    && |path| > 0
    && (forall i :: 0 <= i < |path| ==> path[i] in g.nodes)
    && forall i :: 0 < i < |path| ==> path[i - 1] in g.succs[path[i]]
  }

  /** The value that reaches the end of such a path: the backward transfers applied to `initial`. */
  ghost function AlongBack<V>(d: Domain<V>, g: GraphView, path: seq<NodeId>): V
    requires ValidView(g) && IsBackPath(g, path)
  {
    if |path| == 1 then d.initial
    else
      var init := path[..|path| - 1];
      d.transferBackward(g.nodes[init[|init| - 1]], AlongBack(d, g, init))
  }

  lemma {:induction false} BackPathIsReversed<V>(d: Domain<V>, g: GraphView, path: seq<NodeId>)
    requires ValidView(g) && ValidView(Reverse(g)) && IsBackPath(g, path)
    ensures IsPath(Reverse(g), path) && AlongBack(d, g, path) == Along(Dual(d), Reverse(g), path)
  {
    if |path| > 1 {
      BackPathIsReversed(d, g, path[..|path| - 1]);
    }
  }

  /** `value` is above `bound` in the order that `meet` induces. */
  ghost predicate Above<V>(d: Domain<V>, value: V, bound: V) {
    d.meet(value, bound) == bound
  }

  /** All paths that lead to `x` are sound: what each delivers is above the solution's output. */
  ghost predicate SoundInto<V(!new)>(d: Domain<V>, g: GraphView, facts: Facts<V>, x: NodeId)
    requires ValidView(g) && Covers(g, facts)
  {
    forall path :: IsBackPath(g, path) && path[0] == x ==> Above(d, AlongBack(d, g, path), facts.outputs[path[|path| - 1]])
  }

  lemma SoundIntoIsDual<V(!new)>(d: Domain<V>, g: GraphView, facts: Facts<V>, x: NodeId)
    requires ValidView(g) && ValidView(Reverse(g)) && Covers(g, facts)
    ensures SoundInto(d, g, facts, x) <==> SoundFrom(Dual(d), Reverse(g), Swap(facts), x)
  {
    forall path ensures IsBackPath(g, path) <==> IsPath(Reverse(g), path) {
    }
    forall path | IsBackPath(g, path) ensures AlongBack(d, g, path) == Along(Dual(d), Reverse(g), path) {
      BackPathIsReversed(d, g, path);
    }
    if SoundInto(d, g, facts, x) {
      forall path | IsPath(Reverse(g), path) && path[0] == x
        ensures Leq(Dual(d), Along(Dual(d), Reverse(g), path), Swap(facts).inputs[path[|path| - 1]])
      {
        assert Above(d, AlongBack(d, g, path), facts.outputs[path[|path| - 1]]);
      }
    }
    if SoundFrom(Dual(d), Reverse(g), Swap(facts), x) {
      forall path | IsBackPath(g, path) && path[0] == x
        ensures Above(d, AlongBack(d, g, path), facts.outputs[path[|path| - 1]])
      {
        assert Leq(Dual(d), Along(Dual(d), Reverse(g), path), Swap(facts).inputs[path[|path| - 1]]);
      }
    }
  }

  /** In any solution all paths into the exit are sound exactly when the exit's own output is
      below the initial value. */
  lemma SoundIffExitBelowInitial<V(!new)>(d: Domain<V>, g: GraphView, facts: Facts<V>, x: NodeId)
    requires BackwardHypotheses(d, g) && BackwardSolves(d, g, facts) && x in g.nodes
    ensures SoundInto(d, g, facts, x) <==> Above(d, d.initial, facts.outputs[x])
  {
    ReverseIsValid(g);
    SolutionDuality(d, g, facts);
    SoundIntoIsDual(d, g, facts, x);
    SoundIffEntryAboveInitial(Dual(d), Reverse(g), Swap(facts), x);
  }

  /** Every path, loops included, into an exit without successors delivers a value above the
      output that any solution gives to the node it starts at. */
  lemma BackwardPathsAreSound<V(!new)>(d: Domain<V>, g: GraphView, facts: Facts<V>, x: NodeId)
    requires BackwardHypotheses(d, g) && BackwardSolves(d, g, facts)
    requires g.exit == Some(x) && x in g.nodes && g.succs[x] == []
    ensures SoundInto(d, g, facts, x)
  {
    LeqReflexive(Dual(d), d.initial);
    SoundIffExitBelowInitial(d, g, facts, x);
  }

  // ----- Which exits keep the initial value -----

  /** The exit keeps the initial value in every backward analysis. */
  ghost predicate ExitIsKept(g: GraphView, x: NodeId)
    requires ValidView(g) && x in g.nodes
  {
    forall d: Domain<bool>, facts: Facts<bool> ::
      BackwardHypotheses(d, g) && IsGreatestSolution(d, g, facts) ==> facts.outputs[x] == d.initial
  }

  /** All paths into the exit are sound in every backward analysis. */
  ghost predicate ExitIsSound(g: GraphView, x: NodeId)
    requires ValidView(g) && x in g.nodes
  {
    forall d: Domain<bool>, facts: Facts<bool> ::
      BackwardHypotheses(d, g) && IsGreatestSolution(d, g, facts) ==> SoundInto(d, g, facts, x)
  }

  /** Whether the exit can be reached, as a backward analysis: the pass-through domain upside
      down. */
  function PassBack(): Domain<bool> {
    Dual(PassThrough())
  }

  /** If the exit has successors, the greatest solution of that analysis is false everywhere. */
  lemma NowhereIsGreatest(g: GraphView, x: NodeId)
    requires ValidView(g) && g.exit == Some(x) && x in g.nodes && g.succs[x] != []
    ensures BackwardHypotheses(PassBack(), g) && HeightAtMost(Dual(PassBack()), 1)
    ensures IsGreatestSolution(PassBack(), g, Nowhere(g))
  {
    ReverseIsValid(g);
    PassThroughQualifies();
    DualOfDual(PassThrough());
    NowhereIsLeast(Reverse(g), x);
    assert Nowhere(Reverse(g)) == Swap(Nowhere(g));
    GreatestFromLeast(PassBack(), g, Nowhere(g));
  }

  lemma ExitKeptIffNoSuccessors(g: GraphView, x: NodeId)
    requires ValidView(g) && g.exit == Some(x) && x in g.nodes
    ensures ExitIsKept(g, x) <==> g.succs[x] == []
  {
    if g.succs[x] != [] {
      NowhereIsGreatest(g, x);
      assert Nowhere(g).outputs[x] != PassBack().initial;
    }
  }

  lemma ExitSoundIffNoSuccessors(g: GraphView, x: NodeId)
    requires ValidView(g) && g.exit == Some(x) && x in g.nodes
    ensures ExitIsSound(g, x) <==> g.succs[x] == []
  {
    if g.succs[x] == [] {
      forall d: Domain<bool>, facts: Facts<bool> | BackwardHypotheses(d, g) && IsGreatestSolution(d, g, facts)
        ensures SoundInto(d, g, facts, x)
      {
        BackwardPathsAreSound(d, g, facts, x);
      }
    } else {
      var d, facts := PassBack(), Nowhere(g);
      NowhereIsGreatest(g, x);
      SoundIffExitBelowInitial(d, g, facts, x);
      assert !SoundInto(d, g, facts, x);
    }
  }

  /** An exit node with successors loses its boundary value: changing `initial` changes no
      solution. */
  lemma ExitWithSuccessorsForgetsInitial<V(!new)>(d: Domain<V>, g: GraphView, facts: Facts<V>, initial: V)
    requires ValidView(g)
    requires forall id :: g.exit == Some(id) && id in g.nodes ==> g.succs[id] != []
    ensures BackwardSolves(d, g, facts) <==> BackwardSolves(d.(initial := initial), g, facts)
  {
    ReverseIsValid(g);
    SolutionDuality(d, g, facts);
    SolutionDuality(d.(initial := initial), g, facts);
    EntryWithPredecessorsForgetsInitial(Dual(d), Reverse(g), Swap(facts), initial);
    assert Dual(d.(initial := initial)) == Dual(d).(initial := initial);
  }

  // ----- A run on which the exit is lost -----

  /** A graph of one node that loops to itself and is the exit. */
  method LoopingExit(node: DataNode, edgeType: EdgeType) returns (graph: DataFlowGraph, x: NodeId)
    ensures fresh(graph) && graph.Valid()
    ensures x in graph.View().nodes && graph.View().exit == Some(x) && graph.View().succs[x] == [x]
  {
    graph, x := SelfLoop(node, edgeType);
    graph.SetExit(x);
  }

  /** What a run of an analysis leaves at a node. */
  method OutputAt<V(==, !new)>(domain: Domain<V>, graph: DataFlowGraph, ghost height: nat, x: NodeId)
    returns (output: V, ghost facts: Facts<V>)
    requires graph.Valid() && x in graph.View().nodes
    requires JoinSemilattice(Dual(domain)) && Monotone(Dual(domain)) && HeightAtMost(Dual(domain), height)
    ensures IsGreatestSolution(domain, graph.View(), facts) && output == facts.outputs[x]
  {
    var analysis := new BackwardAnalysis(domain);
    ghost var orders := analysis.Run(graph, height);
    facts := analysis.State();
    output := analysis.outputs[x];
  }

  /** In a run of the analysis on any graph whose exit has successors, the exit ends as if it
      could not reach itself, although the initial value says that it can. */
  method RunPassBack(graph: DataFlowGraph, x: NodeId) returns (output: bool)
    requires graph.Valid() && graph.View().exit == Some(x) && x in graph.View().nodes && graph.View().succs[x] != []
    ensures output == false != PassBack().initial
  {
    ghost var facts;
    NowhereIsGreatest(graph.View(), x);
    output, facts := OutputAt(PassBack(), graph, 1, x);
    GreatestIsNowhere(graph.View(), facts, x);
  }

  method LoopingExitIsLost(node: DataNode, edgeType: EdgeType) returns (output: bool)
    ensures output == false != PassBack().initial
  {
    var graph, x := LoopingExit(node, edgeType);
    output := RunPassBack(graph, x);
  }

  lemma GreatestIsNowhere(g: GraphView, facts: Facts<bool>, x: NodeId)
    requires ValidView(g) && x in g.nodes
    requires IsGreatestSolution(PassBack(), g, Nowhere(g)) && IsGreatestSolution(PassBack(), g, facts)
    ensures facts.outputs[x] == false
  {
    assert AtMost(PassBack(), g, Nowhere(g).outputs, facts.outputs);
    assert AtMost(PassBack(), g, facts.outputs, Nowhere(g).outputs);
  }
}
