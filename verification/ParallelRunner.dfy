/** The imperative runner: one shared context in execution order, or clone, run and merge
    level by level. */
module ParallelRunners {
  import opened PassContexts
  import opened PassManagers
  import opened PassRunners

  /** Sequential execution in the computed order. */
  method RunSequentially(manager: PassManager, gate: Gate, ctx: PassContext)
    requires InRange(manager.passes, manager.executionOrder)
    modifies ctx
    ensures ctx.State() == RunInOrder(gate, manager.passes, manager.executionOrder, old(ctx.State()))
  {
    var order := manager.executionOrder;
    ghost var start := ctx.State();
    for i := 0 to |order|
      invariant ctx.State() == RunInOrder(gate, manager.passes, order[..i], start)
    {
      assert order[..i + 1][..i] == order[..i];
      ctx.Run(gate, manager.passes[order[i]].body);
    }
    assert order[..|order|] == order;
  }

  /** `n` clones of the context, all different objects. */
  method CloneAll(ctx: PassContext, n: nat) returns (clones: seq<PassContext>)
    ensures |clones| == n
    ensures forall p :: 0 <= p < n ==> fresh(clones[p]) && clones[p].State() == CloneOf(ctx.State())
    ensures forall p, q :: 0 <= p < q < n ==> clones[p] != clones[q]
  {
    clones := [];
    for i := 0 to n
      invariant |clones| == i
      invariant forall p :: 0 <= p < i ==> fresh(clones[p]) && clones[p].State() == CloneOf(ctx.State())
      invariant forall p, q :: 0 <= p < q < i ==> clones[p] != clones[q]
    {
      var clone := ctx.CloneForParallel();
      clones := clones + [clone];
    }
  }

  /** The numbers below `n`. */
  function Below(n: nat): (r: set<nat>)
    ensures forall i :: i in r <==> 0 <= i < n
  {
    if n == 0 then {} else Below(n - 1) + {n - 1}
  }

  ghost predicate HasRun(passes: seq<Pass>, gate: Gate, i: nat, clone: PassContext, start: Context)
    requires i < |passes|
    reads clone
  {
    clone.State() == Exec(gate, passes[i].body, start)
  }

  /** Runs each pass of the level on its own clone, in any order of execution: the clones share
      nothing mutable, so the order makes no difference. */
  method RunClones(passes: seq<Pass>, gate: Gate, level: seq<nat>, clones: seq<PassContext>, ghost start: Context)
    requires InRange(passes, level) && |clones| == |level|
    requires forall p :: 0 <= p < |level| ==> clones[p].State() == start
    requires forall p, q :: 0 <= p < q < |level| ==> clones[p] != clones[q]
    modifies set p | 0 <= p < |clones| :: clones[p]
    ensures forall p :: 0 <= p < |level| ==> clones[p].State() == Exec(gate, passes[level[p]].body, start)
  {
    var rest := Below(|level|);
    while rest != {}
      invariant forall p :: p in rest ==> p < |level|
      invariant forall p :: 0 <= p < |level| && p !in rest ==> HasRun(passes, gate, level[p], clones[p], start)
      invariant forall p :: 0 <= p < |level| && p in rest ==> clones[p].State() == start
      decreases rest
    {
      var i :| i in rest;
      clones[i].Run(gate, passes[level[i]].body);
      rest := rest - {i};
    }
    assert forall p :: 0 <= p < |level| ==> HasRun(passes, gate, level[p], clones[p], start);
  }

  method RunOneLevel(passes: seq<Pass>, gate: Gate, level: seq<nat>, ctx: PassContext)
    requires InRange(passes, level)
    modifies ctx
    ensures ctx.State() == RunLevel(gate, passes, level, old(ctx.State()))
  {
    ghost var start := ctx.State();
    var clones := CloneAll(ctx, |level|);
    RunClones(passes, gate, level, clones, CloneOf(start));
    for i := 0 to |level|
      invariant ctx.State() == RunLevel(gate, passes, level[..i], start)
      invariant forall p :: 0 <= p < |level| ==>
        clones[p] != ctx && clones[p].State() == Exec(gate, passes[level[p]].body, CloneOf(start))
    {
      assert level[..i + 1][..i] == level[..i];
      ctx.Merge(clones[i]);
    }
    assert level[..|level|] == level;
  }

  /** Level-parallel execution. */
  method RunInParallel(manager: PassManager, gate: Gate, ctx: PassContext) returns (levels: seq<seq<nat>>)
    modifies ctx
    ensures AreLevels(manager.passes, levels) && AllInRange(manager.passes, levels)
    ensures ctx.State() == RunLevels(gate, manager.passes, levels, old(ctx.State()))
  {
    levels := manager.ComputeLevels();
    var passes := manager.passes;
    forall k | 0 <= k < |levels| ensures InRange(passes, levels[k]) {
      ReadyBelowMembers(passes, CompletedAfter(passes, k), |passes|);
      assert forall p :: 0 <= p < |levels[k]| ==> levels[k][p] in levels[k];
    }
    ghost var start := ctx.State();
    for k := 0 to |levels|
      invariant ctx.State() == RunLevels(gate, passes, levels[..k], start)
    {
      assert levels[..k + 1][..k] == levels[..k];
      RunOneLevel(passes, gate, levels[k], ctx);
    }
    assert levels[..|levels|] == levels;
  }
}
