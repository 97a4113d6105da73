/** The call graphs of the extractor's module index and the bounded backward search that
    selects an FFI slice. */
module FfiClosures {
  import opened NameOrders

  datatype Summary = Summary(isDeclaration: bool, callees: set<string>)

  type Functions = map<string, Summary>

  type Graph = map<string, set<string>>

  /** A defined function of the module that calls `b`. */
  predicate Calls(functions: Functions, a: string, b: string) {
    a in functions && !functions[a].isDeclaration && b in functions[a].callees
  }

  function Edges(g: Graph, a: string): set<string> {
    if a in g then g[a] else {}
  }

  predicate HasEdge(g: Graph, a: string, b: string) {
    b in Edges(g, a)
  }

  function Insert(g: Graph, a: string, b: string): Graph {
    g[a := Edges(g, a) + {b}]
  }

  lemma InsertAddsEdge(g: Graph, a: string, b: string, x: string, y: string)
    ensures HasEdge(Insert(g, a, b), x, y) <==> HasEdge(g, x, y) || (x == a && y == b)
  {
  }

  /** The call graph holds the calls of defined functions, the reverse graph exactly their
      converse, whatever the order in which functions and callees are visited. */
  method BuildCallGraphs(functions: Functions) returns (callGraph: Graph, reverse: Graph)
    ensures forall a, b :: HasEdge(callGraph, a, b) <==> Calls(functions, a, b)
    ensures IsConverse(reverse, functions)
    ensures forall a :: a in callGraph ==> callGraph[a] != {}
  {
    callGraph, reverse := map[], map[];
    var names := functions.Keys;
    while names != {}
      invariant names <= functions.Keys
      invariant forall a, b :: HasEdge(callGraph, a, b) <==> a !in names && Calls(functions, a, b)
      invariant forall a, b :: HasEdge(reverse, b, a) <==> a !in names && Calls(functions, a, b)
      invariant forall a :: a in callGraph ==> callGraph[a] != {}
      decreases names
    {
      var name :| name in names;
      if !functions[name].isDeclaration {
        callGraph, reverse := AddCalls(callGraph, reverse, name, functions[name].callees);
      }
      names := names - {name};
    }
  }

  /** `g` is `base` with edges from `name` to `done`, and `r` is `reverse` with their converse. */
  ghost predicate Extends(g: Graph, base: Graph, r: Graph, reverse: Graph, name: string, done: set<string>) {
    && (forall a, b :: HasEdge(g, a, b) <==> HasEdge(base, a, b) || (a == name && b in done))
    && (forall a, b :: HasEdge(r, b, a) <==> HasEdge(reverse, b, a) || (a == name && b in done))
    && (forall a :: a in g ==> g[a] != {})
  }

  lemma InsertExtends(g: Graph, base: Graph, r: Graph, reverse: Graph, name: string, done: set<string>, callee: string)
    requires Extends(g, base, r, reverse, name, done)
    ensures Extends(Insert(g, name, callee), base, Insert(r, callee, name), reverse, name, done + {callee})
  {
    var g', r' := Insert(g, name, callee), Insert(r, callee, name);
    forall a, b ensures HasEdge(g', a, b) <==> HasEdge(base, a, b) || (a == name && b in done + {callee}) {
      InsertAddsEdge(g, name, callee, a, b);
      assert HasEdge(g, a, b) <==> HasEdge(base, a, b) || (a == name && b in done);
    }
    forall a, b ensures HasEdge(r', b, a) <==> HasEdge(reverse, b, a) || (a == name && b in done + {callee}) {
      InsertAddsEdge(r, callee, name, b, a);
      assert HasEdge(r, b, a) <==> HasEdge(reverse, b, a) || (a == name && b in done);
    }
  }

  /** Enters one function's calls into both graphs. */
  method AddCalls(callGraph: Graph, reverse: Graph, name: string, callees: set<string>) returns (callGraph': Graph, reverse': Graph)
    requires forall a :: a in callGraph ==> callGraph[a] != {}
    ensures Extends(callGraph', callGraph, reverse', reverse, name, callees)
  {
    callGraph', reverse' := callGraph, reverse;
    var rest := callees;
    while rest != {}
      invariant rest <= callees
      invariant Extends(callGraph', callGraph, reverse', reverse, name, callees - rest)
      decreases rest
    {
      var callee :| callee in rest;
      InsertExtends(callGraph', callGraph, reverse', reverse, name, callees - rest, callee);
      assert callees - rest + {callee} == callees - (rest - {callee});
      callGraph' := Insert(callGraph', name, callee);
      reverse' := Insert(reverse', callee, name);
      rest := rest - {callee};
    }
    assert callees - rest == callees;
  }

  ghost predicate IsConverse(reverse: Graph, functions: Functions) {
    forall a, b :: HasEdge(reverse, b, a) <==> Calls(functions, a, b)
  }

  // ----- What a search finds -----

  /** The defined functions that call something in `targets`. */
  ghost function Callers(functions: Functions, targets: set<string>): set<string> {
    set a | a in functions && exists b :: b in targets && Calls(functions, a, b)
  }

  /** What is selected after `hops` rounds: each round adds the callers of the last round's
      finds that were not selected yet. */
  ghost function Expand(functions: Functions, selected: set<string>, current: set<string>, hops: nat): set<string>
    decreases hops
  {
    if hops == 0 then selected
    else
      var next := Callers(functions, current) - selected;
      Expand(functions, selected + next, next, hops - 1)
  }

  /** The names from which `target` can be reached in at most `hops` calls. */
  ghost function Ball(functions: Functions, target: string, hops: nat): set<string> {
    if hops == 0 then {target}
    else Ball(functions, target, hops - 1) + Callers(functions, Ball(functions, target, hops - 1))
  }

  ghost predicate IsCallPath(functions: Functions, path: seq<string>) {
    |path| > 0 && forall i :: 0 < i < |path| ==> Calls(functions, path[i - 1], path[i])
  }

  /** A chain of calls from `a` to `b` with at most `hops` edges. */
  ghost predicate CallPath(functions: Functions, path: seq<string>, a: string, b: string, hops: nat) {
    IsCallPath(functions, path) && path[0] == a && path[|path| - 1] == b && |path| <= hops + 1
  }

  lemma {:induction false} BallHasPath(functions: Functions, target: string, hops: nat, a: string) returns (path: seq<string>)
    requires a in Ball(functions, target, hops)
    ensures CallPath(functions, path, a, target, hops)
    decreases hops
  {
    if hops == 0 {
      path := [target];
    } else if a in Ball(functions, target, hops - 1) {
      path := BallHasPath(functions, target, hops - 1, a);
    } else {
      var b :| b in Ball(functions, target, hops - 1) && Calls(functions, a, b);
      var rest := BallHasPath(functions, target, hops - 1, b);
      path := [a] + rest;
      assert forall i :: 0 < i < |path| ==> path[i] == rest[i - 1];
    }
  }

  lemma {:induction false} PathIsInBall(functions: Functions, target: string, hops: nat, a: string, path: seq<string>)
    requires CallPath(functions, path, a, target, hops)
    ensures a in Ball(functions, target, hops)
    decreases hops
  {
    if hops > 0 {
      if |path| <= hops {
        PathIsInBall(functions, target, hops - 1, a, path);
      } else {
        assert Calls(functions, path[0], path[1]);
        PathIsInBall(functions, target, hops - 1, path[1], path[1..]);
      }
    }
  }

  /** The ball is exactly what call paths of bounded length reach. */
  lemma BallIsCallPaths(functions: Functions, target: string, hops: nat, a: string)
    ensures a in Ball(functions, target, hops) <==> exists path :: CallPath(functions, path, a, target, hops)
  {
    if a in Ball(functions, target, hops) {
      var path := BallHasPath(functions, target, hops, a);
    }
    if path :| CallPath(functions, path, a, target, hops) {
      PathIsInBall(functions, target, hops, a, path);
    }
  }

  lemma {:induction false} BallGrows(functions: Functions, target: string, j: nat, k: nat)
    requires j <= k
    ensures Ball(functions, target, j) <= Ball(functions, target, k)
  {
    if j < k {
      BallGrows(functions, target, j, k - 1);
    }
  }

  /** A defined function with a call path of at most `hops` edges to `target`. */
  ghost predicate Found(functions: Functions, target: string, hops: nat, a: string) {
    a in functions && !functions[a].isDeclaration && a in Ball(functions, target, hops)
  }

  lemma CallersGrow(functions: Functions, a: set<string>, b: set<string>)
    requires a <= b
    ensures Callers(functions, a) <= Callers(functions, b)
  {
  }

  /** Started from the target alone, a search finds the whole ball: the callers of anything
      but the last round's finds are selected already. */
  lemma {:induction false} ExpandIsBall(functions: Functions, current: set<string>, hops: nat, target: string, done: nat)
    requires current <= Ball(functions, target, done)
    requires Callers(functions, Ball(functions, target, done) - current) <= Ball(functions, target, done)
    ensures Expand(functions, Ball(functions, target, done), current, hops) == Ball(functions, target, done + hops)
    decreases hops
  {
    if hops > 0 {
      var ball := Ball(functions, target, done);
      var next := Callers(functions, current) - ball;
      var wider := Ball(functions, target, done + 1);
      CallersSplit(functions, ball, current);
      assert ball + next == wider;
      assert wider - next <= ball;
      CallersGrow(functions, wider - next, ball);
      assert Callers(functions, ball) <= wider;
      ExpandIsBall(functions, next, hops - 1, target, done + 1);
    }
  }

  lemma CallersSplit(functions: Functions, whole: set<string>, part: set<string>)
    requires part <= whole
    ensures Callers(functions, whole) == Callers(functions, part) + Callers(functions, whole - part)
  {
  }

  // ----- Exactly what one search finds -----

  /** A chain of 1 to `hops` calls from `a` into `current` on which every name before the last
      is not selected yet. */
  ghost predicate Unblocked(functions: Functions, selected: set<string>, current: set<string>, hops: nat, a: string, path: seq<string>) {
    && IsCallPath(functions, path) && 2 <= |path| <= hops + 1
    && path[0] == a && path[|path| - 1] in current
    && forall i :: 0 <= i < |path| - 1 ==> path[i] !in selected
  }

  lemma {:induction false} FoundByPath(functions: Functions, selected: set<string>, current: set<string>, hops: nat, a: string)
    returns (path: seq<string>)
    requires a in Expand(functions, selected, current, hops) && a !in selected
    ensures Unblocked(functions, selected, current, hops, a, path)
    decreases hops
  {
    var next := Callers(functions, current) - selected;
    if a in next {
      var b :| b in current && Calls(functions, a, b);
      path := [a, b];
    } else {
      var front := FoundByPath(functions, selected + next, next, hops - 1, a);
      var n := front[|front| - 1];
      var b :| b in current && Calls(functions, n, b);
      path := PathExtends(functions, selected, next, current, hops - 1, a, front, b);
    }
  }

  /** A path to a name that calls into `current` is one call longer. */
  lemma PathExtends(functions: Functions, selected: set<string>, next: set<string>, current: set<string>, hops: nat,
                    a: string, front: seq<string>, b: string)
    returns (path: seq<string>)
    requires Unblocked(functions, selected + next, next, hops, a, front) && next !! selected
    requires b in current && Calls(functions, front[|front| - 1], b)
    ensures Unblocked(functions, selected, current, hops + 1, a, path)
  {
    path := front + [b];
    forall i | 0 <= i < |path| - 1 ensures path[i] !in selected {
      assert i < |front| - 1 ==> front[i] !in selected + next;
    }
    forall i | 0 < i < |path| ensures Calls(functions, path[i - 1], path[i]) {
      assert i < |front| ==> Calls(functions, front[i - 1], front[i]);
    }
  }

  lemma {:induction false} PathIsFound(functions: Functions, selected: set<string>, current: set<string>, hops: nat, a: string, path: seq<string>)
    requires Unblocked(functions, selected, current, hops, a, path)
    ensures a in Expand(functions, selected, current, hops)
    decreases hops
  {
    var next := Callers(functions, current) - selected;
    var wider := selected + next;
    var n := |path| - 2;
    assert Calls(functions, path[n], path[n + 1]) && path[n] in next;
    var i := FirstIn(path, next, n);
    if i == 0 {
      SelectedStay(functions, wider, next, hops - 1);
    } else {
      var front := path[..i + 1];
      assert Unblocked(functions, wider, next, hops - 1, a, front);
      PathIsFound(functions, wider, next, hops - 1, a, front);
    }
  }

  /** The first position of a path that lies in `names`. */
  lemma {:induction false} FirstIn(path: seq<string>, names: set<string>, n: nat) returns (i: nat)
    requires n < |path| && path[n] in names
    ensures i <= n && path[i] in names && forall j :: 0 <= j < i ==> path[j] !in names
  {
    i := n;
    if j :| 0 <= j < n && path[j] in names {
      i := FirstIn(path, names, j);
    }
  }

  lemma {:induction false} SelectedStay(functions: Functions, selected: set<string>, current: set<string>, hops: nat)
    ensures selected <= Expand(functions, selected, current, hops)
    decreases hops
  {
    if hops > 0 {
      var next := Callers(functions, current) - selected;
      SelectedStay(functions, selected + next, next, hops - 1);
    }
  }

  /** Whatever else is selected, a search adds only defined functions of the ball. */
  lemma ExpandIsSound(functions: Functions, selected: set<string>, current: set<string>, hops: nat, target: string, done: nat)
    requires current <= Ball(functions, target, done)
    ensures selected <= Expand(functions, selected, current, hops)
    ensures forall a :: a in Expand(functions, selected, current, hops) && a !in selected ==> Found(functions, target, done + hops, a)
  {
    SelectedStay(functions, selected, current, hops);
    forall a | a in Expand(functions, selected, current, hops) && a !in selected ensures Found(functions, target, done + hops, a) {
      var path := FoundByPath(functions, selected, current, hops, a);
      var rest := BallHasPath(functions, target, done, path[|path| - 1]);
      assert Calls(functions, path[0], path[1]);
      JoinPaths(functions, path, rest);
      PathIsInBall(functions, target, done + hops, a, path + rest[1..]);
    }
  }

  /** A path that ends where another begins continues along it. */
  lemma JoinPaths(functions: Functions, front: seq<string>, rest: seq<string>)
    requires IsCallPath(functions, front) && IsCallPath(functions, rest) && front[|front| - 1] == rest[0]
    ensures IsCallPath(functions, front + rest[1..])
    ensures (front + rest[1..])[|front| + |rest| - 2] == rest[|rest| - 1]
  {
    var path := front + rest[1..];
    forall i | 0 < i < |path| ensures Calls(functions, path[i - 1], path[i]) {
      if i >= |front| {
        assert Calls(functions, rest[i - |front|], rest[i - |front| + 1]);
      }
    }
  }

  /** A search finds a name exactly when the name is selected already or has a chain of calls
      into the start that avoids what is selected. */
  lemma ExpandIsUnblocked(functions: Functions, selected: set<string>, current: set<string>, hops: nat, a: string)
    ensures a in Expand(functions, selected, current, hops)
            <==> a in selected || exists path :: Unblocked(functions, selected, current, hops, a, path)
  {
    SelectedStay(functions, selected, current, hops);
    if a in Expand(functions, selected, current, hops) && a !in selected {
      var path := FoundByPath(functions, selected, current, hops, a);
    }
    if path :| Unblocked(functions, selected, current, hops, a, path) {
      PathIsFound(functions, selected, current, hops, a, path);
    }
  }

  // ----- Exactly what several searches find -----

  /** What is selected after searching from each seed of `order` in turn. */
  ghost function ExpandAll(functions: Functions, selected: set<string>, order: seq<string>, hops: nat): set<string> {
    if order == [] then selected
    else
      var n := |order| - 1;
      Expand(functions, ExpandAll(functions, selected, order[..n], hops), {order[n]}, hops)
  }

  /** A chain of calls to the `i`-th seed that avoids everything selected before its search. */
  ghost predicate UnblockedTo(functions: Functions, selected: set<string>, order: seq<string>, hops: nat, i: int, a: string, path: seq<string>) {
    0 <= i < |order| && Unblocked(functions, ExpandAll(functions, selected, order[..i], hops), {order[i]}, hops, a, path)
  }

  lemma {:induction false} ExpandAllConcat(functions: Functions, selected: set<string>, a: seq<string>, b: seq<string>, hops: nat)
    ensures ExpandAll(functions, selected, a + b, hops) == ExpandAll(functions, ExpandAll(functions, selected, a, hops), b, hops)
  {
    if b == [] {
      assert a + b == a;
    } else {
      var n := |b| - 1;
      ExpandAllConcat(functions, selected, a, b[..n], hops);
      assert (a + b)[..|a| + n] == a + b[..n];
    }
  }

  /** Every later search keeps what is selected. */
  lemma {:induction false} ExpandAllGrows(functions: Functions, selected: set<string>, order: seq<string>, hops: nat, i: nat)
    requires i <= |order|
    ensures ExpandAll(functions, selected, order[..i], hops) <= ExpandAll(functions, selected, order, hops)
  {
    if i < |order| {
      var n := |order| - 1;
      assert order[..n][..i] == order[..i];
      ExpandAllGrows(functions, selected, order[..n], hops, i);
      SelectedStay(functions, ExpandAll(functions, selected, order[..n], hops), {order[n]}, hops);
    } else {
      assert order[..i] == order;
    }
  }

  lemma {:induction false} FoundBySomeSearch(functions: Functions, selected: set<string>, order: seq<string>, hops: nat, a: string)
    returns (i: nat, path: seq<string>)
    requires a in ExpandAll(functions, selected, order, hops) && a !in selected
    ensures UnblockedTo(functions, selected, order, hops, i, a, path)
  {
    var n := |order| - 1;
    var before := ExpandAll(functions, selected, order[..n], hops);
    if a in before {
      i, path := FoundBySomeSearch(functions, selected, order[..n], hops, a);
      assert order[..n][..i] == order[..i];
    } else {
      i := n;
      path := FoundByPath(functions, before, {order[n]}, hops, a);
    }
  }

  /** For any seeds searched in any order: a name is found exactly when it is selected at the
      start or has a chain of at most `hops` calls to some seed that avoids everything selected
      before that seed's search. */
  lemma ExpandAllIsUnblocked(functions: Functions, selected: set<string>, order: seq<string>, hops: nat, a: string)
    ensures a in ExpandAll(functions, selected, order, hops)
            <==> a in selected || exists i, path :: UnblockedTo(functions, selected, order, hops, i, a, path)
  {
    assert order[..0] == [];
    ExpandAllGrows(functions, selected, order, hops, 0);
    if a in ExpandAll(functions, selected, order, hops) && a !in selected {
      var i, path := FoundBySomeSearch(functions, selected, order, hops, a);
    }
    if i, path :| UnblockedTo(functions, selected, order, hops, i, a, path) {
      PathIsFound(functions, ExpandAll(functions, selected, order[..i], hops), {order[i]}, hops, a, path);
      assert order[..i + 1][..i] == order[..i];
      ExpandAllGrows(functions, selected, order, hops, i + 1);
    }
  }

  /** Whatever the seeds, additions are defined functions within reach of one of them. */
  lemma ExpandAllIsSound(functions: Functions, selected: set<string>, order: seq<string>, hops: nat, a: string)
    requires a in ExpandAll(functions, selected, order, hops) && a !in selected
    ensures exists s :: s in order && Found(functions, s, hops, a)
  {
    var i, path := FoundBySomeSearch(functions, selected, order, hops, a);
    assert CallPath(functions, path, a, order[i], hops);
    PathIsInBall(functions, order[i], hops, a, path);
    assert Calls(functions, path[0], path[1]);
    assert order[i] in order && Found(functions, order[i], hops, a);
  }

  /** The search from the `i`-th seed completes its ball exactly when each name of the ball was
      selected before or has a chain of calls that avoids what was. */
  lemma BallIsCompleteIffUnblocked(functions: Functions, selected: set<string>, order: seq<string>, hops: nat, i: nat)
    requires i < |order|
    ensures Ball(functions, order[i], hops) <= ExpandAll(functions, selected, order[..i + 1], hops)
            <==> forall a :: a in Ball(functions, order[i], hops) ==>
                   a in ExpandAll(functions, selected, order[..i], hops) || exists path :: UnblockedTo(functions, selected, order, hops, i, a, path)
  {
    var before := ExpandAll(functions, selected, order[..i], hops);
    assert order[..i + 1][..i] == order[..i];
    forall a ensures a in ExpandAll(functions, selected, order[..i + 1], hops)
                     <==> a in before || exists path :: UnblockedTo(functions, selected, order, hops, i, a, path)
    {
      ExpandIsUnblocked(functions, before, {order[i]}, hops, a);
      if path :| Unblocked(functions, before, {order[i]}, hops, a, path) {
        assert UnblockedTo(functions, selected, order, hops, i, a, path);
      }
    }
  }

  /** The slice is the seeds and the whole balls of all resource seeds exactly when each name of
      a ball is a seed or has a chain of calls to some resource seed that avoids what earlier
      searches and the seeds selected. */
  lemma SliceIsUnionIffUnblocked(functions: Functions, seeds: set<string>, order: seq<string>, hops: nat)
    ensures (forall a :: a in ExpandAll(functions, seeds, order, hops) <==> a in seeds || exists s :: s in order && a in Ball(functions, s, hops))
            <==> forall s, a :: s in order && a in Ball(functions, s, hops) ==>
                   a in seeds || exists i, path :: UnblockedTo(functions, seeds, order, hops, i, a, path)
  {
    forall a ensures a in ExpandAll(functions, seeds, order, hops)
                     <==> a in seeds || exists i, path :: UnblockedTo(functions, seeds, order, hops, i, a, path)
    {
      ExpandAllIsUnblocked(functions, seeds, order, hops, a);
    }
    forall a | a in ExpandAll(functions, seeds, order, hops)
      ensures a in seeds || exists s :: s in order && a in Ball(functions, s, hops)
    {
      if a !in seeds {
        ExpandAllIsSound(functions, seeds, order, hops, a);
      }
    }
  }

  // ----- When every search completes its ball, in terms of the graph and the seeds -----

  /** All names within reach of some name of `order`. */
  ghost function Balls(functions: Functions, order: seq<string>, hops: nat): set<string> {
    if order == [] then {}
    else Balls(functions, order[..|order| - 1], hops) + Ball(functions, order[|order| - 1], hops)
  }

  /** Each name of the ball is selected already or has a chain of calls that avoids what is. */
  ghost predicate ReachesAll(functions: Functions, selected: set<string>, target: string, hops: nat) {
    forall a :: a in Ball(functions, target, hops) ==>
      a in selected || exists path :: Unblocked(functions, selected, {target}, hops, a, path)
  }

  /** A search adds its whole ball exactly when all of it can be reached past what is selected. */
  lemma SearchAddsBallIff(functions: Functions, selected: set<string>, target: string, hops: nat)
    ensures Expand(functions, selected, {target}, hops) == selected + Ball(functions, target, hops)
            <==> ReachesAll(functions, selected, target, hops)
  {
    var found := Expand(functions, selected, {target}, hops);
    ExpandIsSound(functions, selected, {target}, hops, target, 0);
    forall a ensures a in found <==> a in selected || exists path :: Unblocked(functions, selected, {target}, hops, a, path) {
      ExpandIsUnblocked(functions, selected, {target}, hops, a);
    }
    if ReachesAll(functions, selected, target, hops) {
      assert found == selected + Ball(functions, target, hops);
    }
  }

  /** What the seeds and the balls searched so far leave of each next ball can be reached without
      passing through them. */
  ghost predicate NoBallIsBlocked(functions: Functions, seeds: set<string>, order: seq<string>, hops: nat) {
    forall i :: 0 <= i < |order| ==> ReachesAll(functions, seeds + Balls(functions, order[..i], hops), order[i], hops)
  }

  ghost predicate SelectsUnion(functions: Functions, seeds: set<string>, order: seq<string>, hops: nat) {
    ExpandAll(functions, seeds, order, hops) == seeds + Balls(functions, order, hops)
  }

  lemma SelectsUnionStep(functions: Functions, seeds: set<string>, order: seq<string>, hops: nat, i: nat)
    requires i < |order| && SelectsUnion(functions, seeds, order[..i], hops)
    ensures SelectsUnion(functions, seeds, order[..i + 1], hops)
            <==> ReachesAll(functions, seeds + Balls(functions, order[..i], hops), order[i], hops)
  {
    var before := seeds + Balls(functions, order[..i], hops);
    assert order[..i + 1][..i] == order[..i];
    SearchAddsBallIff(functions, before, order[i], hops);
    assert before + Ball(functions, order[i], hops) == seeds + Balls(functions, order[..i + 1], hops);
  }

  lemma {:induction false} UnblockedSelectUnion(functions: Functions, seeds: set<string>, order: seq<string>, hops: nat, i: nat)
    requires i <= |order| && NoBallIsBlocked(functions, seeds, order, hops)
    ensures SelectsUnion(functions, seeds, order[..i], hops)
  {
    if i > 0 {
      UnblockedSelectUnion(functions, seeds, order, hops, i - 1);
      SelectsUnionStep(functions, seeds, order, hops, i - 1);
    } else {
      assert order[..0] == [];
    }
  }

  /** After every search the slice is the seeds and the whole balls searched so far, if and only
      if no ball is blocked: a condition on the graph and the seeds alone. */
  lemma EveryPrefixIsUnionIff(functions: Functions, seeds: set<string>, order: seq<string>, hops: nat)
    ensures (forall i :: 0 <= i <= |order| ==> SelectsUnion(functions, seeds, order[..i], hops))
            <==> NoBallIsBlocked(functions, seeds, order, hops)
  {
    if NoBallIsBlocked(functions, seeds, order, hops) {
      forall i | 0 <= i <= |order| ensures SelectsUnion(functions, seeds, order[..i], hops) {
        UnblockedSelectUnion(functions, seeds, order, hops, i);
      }
    }
    if forall i :: 0 <= i <= |order| ==> SelectsUnion(functions, seeds, order[..i], hops) {
      forall i | 0 <= i < |order|
        ensures ReachesAll(functions, seeds + Balls(functions, order[..i], hops), order[i], hops)
      {
        var next := i + 1;
        assert SelectsUnion(functions, seeds, order[..next], hops);
        SelectsUnionStep(functions, seeds, order, hops, i);
      }
    }
  }

  /** No seed and no name of an earlier ball is in a later ball, its own target aside. */
  ghost predicate BallsApart(functions: Functions, seeds: set<string>, order: seq<string>, hops: nat) {
    forall i :: 0 <= i < |order| ==>
      Ball(functions, order[i], hops) * (seeds + Balls(functions, order[..i], hops)) == {order[i]}
  }

  /** Every name on a chain to the target is in the target's ball. */
  lemma ChainIsInBall(functions: Functions, path: seq<string>, a: string, target: string, hops: nat, i: nat)
    requires CallPath(functions, path, a, target, hops) && i < |path|
    ensures path[i] in Ball(functions, target, hops)
  {
    assert CallPath(functions, path[i..], path[i], target, hops);
    PathIsInBall(functions, target, hops, path[i], path[i..]);
  }

  /** In a ball whose only selected name is its target, every other name has an unblocked chain. */
  lemma LoneTargetReachesAll(functions: Functions, selected: set<string>, target: string, hops: nat)
    requires Ball(functions, target, hops) * selected == {target}
    ensures ReachesAll(functions, selected, target, hops)
  {
    forall a | a in Ball(functions, target, hops) && a !in selected
      ensures exists path :: Unblocked(functions, selected, {target}, hops, a, path)
    {
      var path := BallHasPath(functions, target, hops, a);
      var n := FirstIn(path, {target}, |path| - 1);
      var front := path[..n + 1];
      forall i | 0 <= i < n ensures front[i] !in selected {
        ChainIsInBall(functions, path, a, target, hops, i);
        assert front[i] !in {target};
        assert front[i] !in Ball(functions, target, hops) * selected;
      }
      assert target in selected;
      assert Unblocked(functions, selected, {target}, hops, a, front);
    }
  }

  /** Balls that are apart do not block one another. */
  lemma BallsApartAreUnblocked(functions: Functions, seeds: set<string>, order: seq<string>, hops: nat)
    requires BallsApart(functions, seeds, order, hops)
    ensures NoBallIsBlocked(functions, seeds, order, hops)
  {
    forall i | 0 <= i < |order|
      ensures ReachesAll(functions, seeds + Balls(functions, order[..i], hops), order[i], hops)
    {
      LoneTargetReachesAll(functions, seeds + Balls(functions, order[..i], hops), order[i], hops);
    }
  }

  // ----- The search -----

  lemma CallersOfOneMore(functions: Functions, reverse: Graph, targets: set<string>, f: string)
    requires IsConverse(reverse, functions)
    ensures Callers(functions, targets + {f}) == Callers(functions, targets) + Edges(reverse, f)
  {
    forall a ensures a in Callers(functions, targets + {f}) <==> a in Callers(functions, targets) || a in Edges(reverse, f) {
      assert HasEdge(reverse, f, a) <==> Calls(functions, a, f);
    }
  }

  /** Adds the callers of one round's finds. */
  method AddCallersOf(functions: Functions, reverse: Graph, selected: set<string>, current: set<string>)
    returns (selected': set<string>, next: set<string>)
    requires IsConverse(reverse, functions)
    ensures next == Callers(functions, current) - selected && selected' == selected + next
  {
    selected', next := selected, {};
    var frontier := current;
    while frontier != {}
      invariant frontier <= current
      invariant next == Callers(functions, current - frontier) - selected && selected' == selected + next
      decreases frontier
    {
      var f :| f in frontier;
      if f in reverse {
        var callers := reverse[f];
        while callers != {}
          invariant callers <= reverse[f]
          invariant next == Callers(functions, current - frontier) - selected + (reverse[f] - callers - selected)
          invariant selected' == selected + next
          decreases callers
        {
          var caller :| caller in callers;
          assert HasEdge(reverse, f, caller);
          if caller !in selected' {
            if caller in functions && !functions[caller].isDeclaration {
              selected' := selected' + {caller};
              next := next + {caller};
            }
          }
          callers := callers - {caller};
        }
      }
      CallersOfOneMore(functions, reverse, current - frontier, f);
      assert current - (frontier - {f}) == (current - frontier) + {f};
      frontier := frontier - {f};
    }
    assert current - {} == current;
  }

  method AddBackwardClosure(functions: Functions, reverse: Graph, selected: set<string>, name: string, hops: nat)
    returns (selected': set<string>)
    requires IsConverse(reverse, functions)
    ensures selected' == Expand(functions, selected, {name}, hops)
  {
    selected' := selected;
    var current := {name};
    for hop := 0 to hops
      invariant Expand(functions, selected', current, hops - hop) == Expand(functions, selected, {name}, hops)
    {
      selected', current := AddCallersOf(functions, reverse, selected', current);
    }
  }

  /** The names of the module that a classifier accepts. */
  method Matching(functions: Functions, accepts: string -> bool) returns (names: set<string>)
    ensures names == set n | n in functions && accepts(n)
  {
    names := {};
    var rest := functions.Keys;
    while rest != {}
      invariant rest <= functions.Keys
      invariant names == set n | n in functions.Keys - rest && accepts(n)
      decreases rest
    {
      var n :| n in rest;
      if accepts(n) {
        names := names + {n};
      }
      rest := rest - {n};
    }
  }

  // ----- The slice -----

  const ALLOCATORS := ["malloc", "calloc", "realloc", "strdup", "sqlite3_malloc", "sqlite3_realloc"]
  const FREERS := ["free", "sqlite3_free"]

  predicate HasPrefix(name: string, prefixes: seq<string>) {
    exists prefix :: prefix in prefixes && prefix <= name
  }

  predicate IsAllocator(name: string) { HasPrefix(name, ALLOCATORS) }
  predicate IsFreer(name: string) { HasPrefix(name, FREERS) }

  /** The seeds of the module that a classifier accepts. */
  ghost function ResourceSeeds(functions: Functions, seeds: set<string>, accepts: string -> bool): set<string> {
    set s | s in seeds && s in functions && accepts(s)
  }

  /** The accepted seeds in the order of their searches: ordered sets ascend. */
  ghost function SeedOrder(functions: Functions, seeds: set<string>, accepts: string -> bool): seq<string> {
    Sorted(ResourceSeeds(functions, seeds, accepts))
  }

  /** First all allocators, then all freers. */
  ghost function SearchOrder(functions: Functions, seeds: set<string>, isAllocator: string -> bool, isFreer: string -> bool): seq<string> {
    SeedOrder(functions, seeds, isAllocator) + SeedOrder(functions, seeds, isFreer)
  }

  /** `a` was reached from some resource seed. */
  ghost predicate Justified(functions: Functions, seeds: set<string>, accepts: string -> bool, hops: nat, a: string) {
    exists s :: s in ResourceSeeds(functions, seeds, accepts) && Found(functions, s, hops, a)
  }

  /** The searches still to come, after the one for the least name of `rest` has been done or
      skipped. */
  lemma SearchesAfterLeast(functions: Functions, selected: set<string>, rest: set<string>, seeds: set<string>, name: string, hops: nat)
    requires IsLeast(rest, name)
    ensures ExpandAll(functions, selected, Sorted(rest * seeds), hops)
         == ExpandAll(functions, if name in seeds then Expand(functions, selected, {name}, hops) else selected,
                      Sorted((rest - {name}) * seeds), hops)
  {
    if name in seeds {
      assert name in rest * seeds;
      LeastIsUnique(rest * seeds, name, Least(rest * seeds));
      assert (rest - {name}) * seeds == rest * seeds - {name};
      ExpandAllConcat(functions, selected, [name], Sorted((rest - {name}) * seeds), hops);
      SearchedOnce(functions, selected, name, hops);
    } else {
      assert (rest - {name}) * seeds == rest * seeds;
    }
  }

  /** Searches from every accepted seed, in ascending order. */
  method ExpandSeeds(functions: Functions, reverse: Graph, selected: set<string>, seeds: set<string>, accepts: string -> bool, hops: nat)
    returns (selected': set<string>)
    requires IsConverse(reverse, functions)
    ensures selected' == ExpandAll(functions, selected, SeedOrder(functions, seeds, accepts), hops)
  {
    var names := Matching(functions, accepts);
    assert names * seeds == ResourceSeeds(functions, seeds, accepts);
    selected' := selected;
    var rest := names;
    while rest != {}
      invariant ExpandAll(functions, selected', Sorted(rest * seeds), hops)
             == ExpandAll(functions, selected, SeedOrder(functions, seeds, accepts), hops)
      decreases rest
    {
      var name := FindLeast(rest);
      SearchesAfterLeast(functions, selected', rest, seeds, name, hops);
      if name in seeds {
        selected' := AddBackwardClosure(functions, reverse, selected', name, hops);
      }
      rest := rest - {name};
    }
    assert rest * seeds == {};
  }

  /** The functions and declarations that something in `current` calls. */
  ghost function Callees(functions: Functions, current: set<string>): set<string> {
    set b | b in functions && exists a :: a in current && Calls(functions, a, b)
  }

  ghost function ExpandForward(functions: Functions, selected: set<string>, current: set<string>, hops: nat): set<string>
    decreases hops
  {
    if hops == 0 then selected
    else
      var next := Callees(functions, current) - selected;
      ExpandForward(functions, selected + next, next, hops - 1)
  }

  /** A chain of 1 to `hops` calls from `current` to `b` on which every name after the first is
      in the module and not selected yet. */
  ghost predicate UnblockedFrom(functions: Functions, selected: set<string>, current: set<string>, hops: nat, b: string, path: seq<string>) {
    && IsCallPath(functions, path) && 2 <= |path| <= hops + 1
    && path[0] in current && path[|path| - 1] == b
    && forall i :: 0 < i < |path| ==> path[i] in functions && path[i] !in selected
  }

  lemma {:induction false} ReachedByPath(functions: Functions, selected: set<string>, current: set<string>, hops: nat, b: string)
    returns (path: seq<string>)
    requires b in ExpandForward(functions, selected, current, hops) && b !in selected
    ensures UnblockedFrom(functions, selected, current, hops, b, path)
    decreases hops
  {
    var next := Callees(functions, current) - selected;
    if b in next {
      var a :| a in current && Calls(functions, a, b);
      path := [a, b];
    } else {
      var back := ReachedByPath(functions, selected + next, next, hops - 1, b);
      var a :| a in current && Calls(functions, a, back[0]);
      path := PathStartsEarlier(functions, selected, next, current, hops - 1, b, back, a);
    }
  }

  lemma PathStartsEarlier(functions: Functions, selected: set<string>, next: set<string>, current: set<string>, hops: nat,
                          b: string, back: seq<string>, a: string)
    returns (path: seq<string>)
    requires UnblockedFrom(functions, selected + next, next, hops, b, back) && next !! selected && next <= functions.Keys
    requires a in current && Calls(functions, a, back[0])
    ensures UnblockedFrom(functions, selected, current, hops + 1, b, path)
  {
    path := [a] + back;
    forall i | 0 < i < |path| ensures path[i] in functions && path[i] !in selected {
      assert i > 1 ==> back[i - 1] !in selected + next;
    }
    forall i | 0 < i < |path| ensures Calls(functions, path[i - 1], path[i]) {
      assert i > 1 ==> Calls(functions, back[i - 2], back[i - 1]);
    }
  }

  /** The last position of a path that lies in `names`. */
  lemma {:induction false} LastIn(path: seq<string>, names: set<string>, n: nat) returns (i: nat)
    requires n < |path| && path[n] in names
    ensures n <= i < |path| && path[i] in names && forall j :: i < j < |path| ==> path[j] !in names
    decreases |path| - n
  {
    i := n;
    if j :| n < j < |path| && path[j] in names {
      i := LastIn(path, names, j);
    }
  }

  lemma {:induction false} SelectedStayForward(functions: Functions, selected: set<string>, current: set<string>, hops: nat)
    ensures selected <= ExpandForward(functions, selected, current, hops)
    decreases hops
  {
    if hops > 0 {
      var next := Callees(functions, current) - selected;
      SelectedStayForward(functions, selected + next, next, hops - 1);
    }
  }

  lemma {:induction false} PathIsReached(functions: Functions, selected: set<string>, current: set<string>, hops: nat, b: string, path: seq<string>)
    requires UnblockedFrom(functions, selected, current, hops, b, path)
    ensures b in ExpandForward(functions, selected, current, hops)
    decreases hops
  {
    var next := Callees(functions, current) - selected;
    var wider := selected + next;
    assert Calls(functions, path[0], path[1]) && path[1] in next;
    var i := LastIn(path, next, 1);
    if i == |path| - 1 {
      SelectedStayForward(functions, wider, next, hops - 1);
    } else {
      var back := path[i..];
      assert UnblockedFrom(functions, wider, next, hops - 1, b, back);
      PathIsReached(functions, wider, next, hops - 1, b, back);
    }
  }

  /** The forward search reaches a name exactly when it is selected already or has a chain of at
      most `hops` calls to it on which no name is selected already. */
  lemma ForwardIsUnblocked(functions: Functions, selected: set<string>, current: set<string>, hops: nat)
    ensures forall b :: b in ExpandForward(functions, selected, current, hops)
                        <==> b in selected || exists path :: UnblockedFrom(functions, selected, current, hops, b, path)
  {
    SelectedStayForward(functions, selected, current, hops);
    forall b
      ensures b in ExpandForward(functions, selected, current, hops)
              <==> b in selected || exists path :: UnblockedFrom(functions, selected, current, hops, b, path)
    {
      if b in ExpandForward(functions, selected, current, hops) && b !in selected {
        var path := ReachedByPath(functions, selected, current, hops, b);
      }
      if path :| UnblockedFrom(functions, selected, current, hops, b, path) {
        PathIsReached(functions, selected, current, hops, b, path);
      }
    }
  }

  /** The forward search of the extractor, of which zero rounds are ever asked. A callee that is
      reached has a caller, so the test for one never rejects it. */
  method AddForwardClosure(functions: Functions, callGraph: Graph, reverse: Graph, selected: set<string>, name: string, hops: nat)
    returns (selected': set<string>)
    requires IsConverse(reverse, functions) && forall a, b :: HasEdge(callGraph, a, b) <==> Calls(functions, a, b)
    ensures selected' == ExpandForward(functions, selected, {name}, hops)
    ensures forall b :: b in selected'
                        <==> b in selected || exists path :: UnblockedFrom(functions, selected, {name}, hops, b, path)
  {
    ForwardIsUnblocked(functions, selected, {name}, hops);
    selected' := selected;
    var current := {name};
    for hop := 0 to hops
      invariant ExpandForward(functions, selected', current, hops - hop) == ExpandForward(functions, selected, {name}, hops)
    {
      var next := set f, callee | f in current && f in callGraph && callee in callGraph[f]
        && callee !in selected' && callee in functions && (functions[callee].isDeclaration || callee in reverse) :: callee;
      ForwardRound(functions, callGraph, reverse, selected', current, next);
      selected' := selected' + next;
      current := next;
    }
  }

  lemma ForwardRound(functions: Functions, callGraph: Graph, reverse: Graph, selected: set<string>, current: set<string>, next: set<string>)
    requires IsConverse(reverse, functions) && forall a, b :: HasEdge(callGraph, a, b) <==> Calls(functions, a, b)
    requires next == set f, callee | f in current && f in callGraph && callee in callGraph[f]
      && callee !in selected && callee in functions && (functions[callee].isDeclaration || callee in reverse) :: callee
    ensures next == Callees(functions, current) - selected
  {
    forall b | b in Callees(functions, current) - selected ensures b in next {
      var a :| a in current && Calls(functions, a, b);
      assert HasEdge(callGraph, a, b) && HasEdge(reverse, b, a);
    }
    forall b | b in next ensures b in Callees(functions, current) - selected {
      var f :| f in current && f in callGraph && b in callGraph[f];
      assert HasEdge(callGraph, f, b);
    }
  }

  /** The searches of one kind: exactly the accepted seeds of the module, ascending. */
  ghost predicate AreSearchesOf(functions: Functions, seeds: set<string>, accepts: string -> bool, order: seq<string>) {
    Ascends(order) && forall n :: n in order <==> n in seeds && n in functions && accepts(n)
  }

  /** `selected` is what searches from the allocators among the seeds, in ascending order, and
      then from the freers among them, in ascending order, find. */
  ghost predicate AllocatorsThenFreers(
      functions: Functions, seeds: set<string>, isAllocator: string -> bool, isFreer: string -> bool, hops: nat, selected: set<string>)
  {
    exists allocators, freers ::
      && AreSearchesOf(functions, seeds, isAllocator, allocators) && AreSearchesOf(functions, seeds, isFreer, freers)
      && selected == ExpandAll(functions, seeds, allocators + freers, hops)
  }

  lemma SearchesAreOrdered(functions: Functions, seeds: set<string>, isAllocator: string -> bool, isFreer: string -> bool, hops: nat)
    ensures AllocatorsThenFreers(functions, seeds, isAllocator, isFreer, hops,
                                 ExpandAll(functions, seeds, SearchOrder(functions, seeds, isAllocator, isFreer), hops))
  {
    var allocators, freers := SeedOrder(functions, seeds, isAllocator), SeedOrder(functions, seeds, isFreer);
    SortedAscendsThroughout(ResourceSeeds(functions, seeds, isAllocator));
    SortedAscendsThroughout(ResourceSeeds(functions, seeds, isFreer));
    assert AreSearchesOf(functions, seeds, isAllocator, allocators) && AreSearchesOf(functions, seeds, isFreer, freers);
    assert allocators + freers == SearchOrder(functions, seeds, isAllocator, isFreer);
  }

  /** The slice: all seeds, then the callers, up to `maxHops` calls away, of every allocator
      and then every freer among the seeds, each in ascending order. What that is exactly,
      `ExpandAllIsUnblocked` says. */
  method ComputeFfiClosure(
      functions: Functions, callGraph: Graph, reverse: Graph, seeds: set<string>, maxHops: nat,
      isAllocator: string -> bool, isFreer: string -> bool)
    returns (selected: set<string>)
    requires IsConverse(reverse, functions) && forall a, b :: HasEdge(callGraph, a, b) <==> Calls(functions, a, b)
    ensures selected == ExpandAll(functions, seeds, SearchOrder(functions, seeds, isAllocator, isFreer), maxHops)
    ensures seeds <= selected
    ensures forall a :: a in selected - seeds ==>
      Justified(functions, seeds, isAllocator, maxHops, a) || Justified(functions, seeds, isFreer, maxHops, a)
    ensures forall s :: s in functions && seeds == {s} && (isAllocator(s) || isFreer(s)) ==>
      selected == Ball(functions, s, maxHops)
    ensures (forall s :: s in seeds && s in functions ==> !isAllocator(s) && !isFreer(s)) ==> selected == seeds
    ensures var order := SearchOrder(functions, seeds, isAllocator, isFreer);
      NoBallIsBlocked(functions, seeds, order, maxHops) ==> selected == seeds + Balls(functions, order, maxHops)
    ensures AllocatorsThenFreers(functions, seeds, isAllocator, isFreer, maxHops, selected)
  {
    selected := seeds;
    var rest := seeds;
    while rest != {}
      invariant selected == seeds && rest <= seeds
      decreases rest
    {
      var seed := FindLeast(rest);
      if seed in reverse {
        selected := AddBackwardClosure(functions, reverse, selected, seed, 0);
      }
      if seed in callGraph {
        selected := AddForwardClosure(functions, callGraph, reverse, selected, seed, 0);
      }
      rest := rest - {seed};
    }
    selected := ExpandSeeds(functions, reverse, selected, seeds, isAllocator, maxHops);
    selected := ExpandSeeds(functions, reverse, selected, seeds, isFreer, maxHops);
    ExpandAllConcat(functions, seeds, SeedOrder(functions, seeds, isAllocator), SeedOrder(functions, seeds, isFreer), maxHops);
    SliceIsJustified(functions, seeds, isAllocator, isFreer, maxHops);
    forall s | s in functions && seeds == {s} && (isAllocator(s) || isFreer(s))
      ensures selected == Ball(functions, s, maxHops)
    {
      OnlySeedGivesBall(functions, s, isAllocator, isFreer, maxHops);
    }
    if forall s :: s in seeds && s in functions ==> !isAllocator(s) && !isFreer(s) {
      assert ResourceSeeds(functions, seeds, isAllocator) == {} && ResourceSeeds(functions, seeds, isFreer) == {};
    }
    UnblockedSlice(functions, seeds, SearchOrder(functions, seeds, isAllocator, isFreer), maxHops);
    SearchesAreOrdered(functions, seeds, isAllocator, isFreer, maxHops);
  }

  lemma UnblockedSlice(functions: Functions, seeds: set<string>, order: seq<string>, hops: nat)
    ensures NoBallIsBlocked(functions, seeds, order, hops) ==> SelectsUnion(functions, seeds, order, hops)
  {
    if NoBallIsBlocked(functions, seeds, order, hops) {
      UnblockedSelectUnion(functions, seeds, order, hops, |order|);
      assert order[..|order|] == order;
    }
  }

  lemma SliceIsJustified(functions: Functions, seeds: set<string>, isAllocator: string -> bool, isFreer: string -> bool, hops: nat)
    ensures var slice := ExpandAll(functions, seeds, SearchOrder(functions, seeds, isAllocator, isFreer), hops);
      && seeds <= slice
      && forall a :: a in slice - seeds ==>
           Justified(functions, seeds, isAllocator, hops, a) || Justified(functions, seeds, isFreer, hops, a)
  {
    var order := SearchOrder(functions, seeds, isAllocator, isFreer);
    assert order[..0] == [];
    ExpandAllGrows(functions, seeds, order, hops, 0);
    forall a | a in ExpandAll(functions, seeds, order, hops) && a !in seeds
      ensures Justified(functions, seeds, isAllocator, hops, a) || Justified(functions, seeds, isFreer, hops, a)
    {
      ExpandAllIsSound(functions, seeds, order, hops, a);
      var s :| s in order && Found(functions, s, hops, a);
      assert s in SeedOrder(functions, seeds, isAllocator) || s in SeedOrder(functions, seeds, isFreer);
    }
  }

  /** One resource seed beside any other seeds: a name is selected exactly when it is a seed or
      has a chain of at most `hops` calls to the resource seed on which no other name is a seed. */
  lemma OneResourceSeed(functions: Functions, seeds: set<string>, isAllocator: string -> bool, isFreer: string -> bool, s: string, hops: nat, a: string)
    requires SearchOrder(functions, seeds, isAllocator, isFreer) == [s]
    ensures a in ExpandAll(functions, seeds, SearchOrder(functions, seeds, isAllocator, isFreer), hops)
            <==> a in seeds || exists path :: Unblocked(functions, seeds, {s}, hops, a, path)
  {
    assert [s][..0] == [] && ExpandAll(functions, seeds, [], hops) == seeds;
    assert ExpandAll(functions, seeds, [s], hops) == Expand(functions, seeds, {s}, hops);
    ExpandIsUnblocked(functions, seeds, {s}, hops, a);
  }

  lemma SortedOne(s: string)
    ensures Sorted({s}) == [s]
  {
    assert {s} - {s} == {};
  }

  lemma SearchedOnce(functions: Functions, selected: set<string>, s: string, hops: nat)
    ensures ExpandAll(functions, selected, [s], hops) == Expand(functions, selected, {s}, hops)
  {
    assert [s][..0] == [];
  }

  lemma OnlySeedGivesBall(functions: Functions, s: string, isAllocator: string -> bool, isFreer: string -> bool, hops: nat)
    requires s in functions && (isAllocator(s) || isFreer(s))
    ensures ExpandAll(functions, {s}, SearchOrder(functions, {s}, isAllocator, isFreer), hops) == Ball(functions, s, hops)
  {
    SortedOne(s);
    SingleSeed(functions, s, hops);
    SearchedOnce(functions, {s}, s, hops);
    assert ResourceSeeds(functions, {s}, isAllocator) == if isAllocator(s) then {s} else {};
    assert ResourceSeeds(functions, {s}, isFreer) == if isFreer(s) then {s} else {};
    if isAllocator(s) && isFreer(s) {
      ExpandAllConcat(functions, {s}, [s], [s], hops);
      SearchedOnce(functions, Ball(functions, s, hops), s, hops);
    } else {
      assert SearchOrder(functions, {s}, isAllocator, isFreer) == [s];
    }
  }

  /** Searching again from a seed whose ball is selected finds nothing more. */
  lemma SingleSeed(functions: Functions, s: string, hops: nat)
    ensures Expand(functions, {s}, {s}, hops) == Ball(functions, s, hops)
    ensures Expand(functions, Ball(functions, s, hops), {s}, hops) == Ball(functions, s, hops)
  {
    assert Ball(functions, s, 0) - {s} == {};
    ExpandIsBall(functions, {s}, hops, s, 0);
    if hops > 0 {
      var ball := Ball(functions, s, hops);
      BallGrows(functions, s, 1, hops);
      assert Callers(functions, {s}) <= Ball(functions, s, 1);
      assert Callers(functions, {s}) - ball == {} && ball + {} == ball;
      NothingCurrent(functions, ball, hops - 1);
    }
  }

  lemma {:induction false} NothingCurrent(functions: Functions, selected: set<string>, hops: nat)
    ensures Expand(functions, selected, {}, hops) == selected
  {
    if hops > 0 {
      assert Callers(functions, {}) - selected == {} && selected + {} == selected;
      NothingCurrent(functions, selected, hops - 1);
    }
  }

  /** "helper" calls "calloc", "wrapper" calls "malloc" and "helper", "user" calls "wrapper". */
  const BLOCKED: Functions := map[
    "malloc" := Summary(true, {}), "calloc" := Summary(true, {}),
    "helper" := Summary(false, {"calloc"}),
    "wrapper" := Summary(false, {"malloc", "helper"}),
    "user" := Summary(false, {"wrapper"})]

  lemma AllocatorsOnly()
    ensures IsAllocator("malloc") && IsAllocator("calloc") && !IsFreer("malloc") && !IsFreer("calloc")
  {
    assert "malloc" in ALLOCATORS && "calloc" in ALLOCATORS;
    assert "free"[0] == 'f' && "sqlite3_free"[0] == 's' && "malloc"[0] == 'm' && "calloc"[0] == 'c';
  }

  lemma BlockedOrder()
    ensures SearchOrder(BLOCKED, {"malloc", "calloc"}, IsAllocator, IsFreer) == ["calloc", "malloc"]
  {
    var seeds := {"malloc", "calloc"};
    AllocatorsOnly();
    assert ResourceSeeds(BLOCKED, seeds, IsAllocator) == seeds;
    assert ResourceSeeds(BLOCKED, seeds, IsFreer) == {};
    assert IsLeast(seeds, "calloc");
    LeastIsUnique(seeds, "calloc", Least(seeds));
    assert seeds - {"calloc"} == {"malloc"};
    SortedOne("malloc");
  }

  lemma BlockedSearches()
    ensures var seeds := {"malloc", "calloc"};
      && Expand(BLOCKED, seeds, {"calloc"}, 2) == seeds + {"helper", "wrapper"}
      && Expand(BLOCKED, seeds + {"helper", "wrapper"}, {"malloc"}, 2) == seeds + {"helper", "wrapper"}
  {
    var seeds := {"malloc", "calloc"};
    assert Calls(BLOCKED, "helper", "calloc") && Calls(BLOCKED, "wrapper", "helper") && Calls(BLOCKED, "wrapper", "malloc");
    assert Callers(BLOCKED, {"calloc"}) - seeds == {"helper"};
    assert Callers(BLOCKED, {"helper"}) - (seeds + {"helper"}) == {"wrapper"};
    var first := seeds + {"helper", "wrapper"};
    assert seeds + {"helper"} + {"wrapper"} == first;
    assert Expand(BLOCKED, seeds + {"helper"}, {"helper"}, 1) == first;
    assert Callers(BLOCKED, {"malloc"}) - first == {} && first + {} == first;
    NothingCurrent(BLOCKED, first, 1);
  }

  /** With several resource seeds a ball need not be completed: "calloc" is searched first and
      selects "wrapper" in its last round, so the search from "malloc" does not go on from it,
      and "user", two calls from "malloc", is never found. */
  lemma SecondSeedIsBlocked()
    ensures var slice := ExpandAll(BLOCKED, {"malloc", "calloc"}, SearchOrder(BLOCKED, {"malloc", "calloc"}, IsAllocator, IsFreer), 2);
      "user" in Ball(BLOCKED, "malloc", 2) && "user" !in slice
  {
    var seeds := {"malloc", "calloc"};
    BlockedOrder();
    BlockedSearches();
    SearchedOnce(BLOCKED, seeds, "calloc", 2);
    assert ["calloc"] + ["malloc"] == ["calloc", "malloc"];
    ExpandAllConcat(BLOCKED, seeds, ["calloc"], ["malloc"], 2);
    SearchedOnce(BLOCKED, seeds + {"helper", "wrapper"}, "malloc", 2);
    assert Calls(BLOCKED, "user", "wrapper") && Calls(BLOCKED, "wrapper", "malloc");
    PathIsInBall(BLOCKED, "malloc", 2, "user", ["user", "wrapper", "malloc"]);
  }

  /** "helper" calls "malloc", "wrapper" calls "free" and "helper", "user" calls "wrapper". */
  const FREED: Functions := map[
    "malloc" := Summary(true, {}), "free" := Summary(true, {}),
    "helper" := Summary(false, {"malloc"}),
    "wrapper" := Summary(false, {"free", "helper"}),
    "user" := Summary(false, {"wrapper"})]

  lemma AllocatorAndFreer()
    ensures IsAllocator("malloc") && !IsFreer("malloc") && IsFreer("free") && !IsAllocator("free")
  {
    assert "malloc" in ALLOCATORS && "free" in FREERS;
    assert "malloc"[0] == 'm' && "calloc"[0] == 'c' && "realloc"[0] == 'r' && "strdup"[0] == 's';
    assert "sqlite3_malloc"[0] == 's' && "sqlite3_realloc"[0] == 's' && "free"[0] == 'f' && "sqlite3_free"[0] == 's';
  }

  lemma FreedOrder()
    ensures SearchOrder(FREED, {"malloc", "free"}, IsAllocator, IsFreer) == ["malloc", "free"]
  {
    var seeds := {"malloc", "free"};
    AllocatorAndFreer();
    assert ResourceSeeds(FREED, seeds, IsAllocator) == {"malloc"};
    assert ResourceSeeds(FREED, seeds, IsFreer) == {"free"};
    SortedOne("malloc");
    SortedOne("free");
    assert ["malloc"] + ["free"] == ["malloc", "free"];
  }

  lemma FreedSearches()
    ensures var seeds, first := {"malloc", "free"}, {"malloc", "free", "helper", "wrapper"};
      Expand(FREED, seeds, {"malloc"}, 2) == first && Expand(FREED, first, {"free"}, 2) == first
  {
    var seeds, first := {"malloc", "free"}, {"malloc", "free", "helper", "wrapper"};
    assert Calls(FREED, "helper", "malloc") && Calls(FREED, "wrapper", "helper") && Calls(FREED, "wrapper", "free");
    assert Callers(FREED, {"malloc"}) - seeds == {"helper"};
    assert Callers(FREED, {"helper"}) - (seeds + {"helper"}) == {"wrapper"};
    assert seeds + {"helper"} + {"wrapper"} == first;
    assert Expand(FREED, seeds + {"helper"}, {"helper"}, 1) == first;
    assert Callers(FREED, {"free"}) - first == {} && first + {} == first;
    NothingCurrent(FREED, first, 1);
  }

  /** Allocators are searched before freers: the search from "malloc" takes "wrapper", so the one
      from "free" adds nothing, and "user" is left out. */
  lemma AllocatorsComeFirst()
    ensures var seeds := {"malloc", "free"};
      ExpandAll(FREED, seeds, SearchOrder(FREED, seeds, IsAllocator, IsFreer), 2) == {"malloc", "free", "helper", "wrapper"}
  {
    var seeds, first := {"malloc", "free"}, {"malloc", "free", "helper", "wrapper"};
    FreedOrder();
    FreedSearches();
    SearchedOnce(FREED, seeds, "malloc", 2);
    assert ["malloc"] + ["free"] == ["malloc", "free"];
    ExpandAllConcat(FREED, seeds, ["malloc"], ["free"], 2);
    SearchedOnce(FREED, first, "free", 2);
  }

  /** The declarations that selected functions call directly. */
  method SelectDeclarations(functions: Functions, selected: set<string>) returns (declarations: set<string>)
    ensures forall d :: d in declarations <==>
      d in functions && functions[d].isDeclaration && exists f :: f in selected && f in functions && d in functions[f].callees
  {
    declarations := {};
    var rest := selected;
    while rest != {}
      invariant rest <= selected
      invariant forall d :: d in declarations <==>
        d in functions && functions[d].isDeclaration && exists f :: f in selected - rest && f in functions && d in functions[f].callees
      decreases rest
    {
      var f :| f in rest;
      if f in functions {
        declarations := declarations + set d | d in functions[f].callees && d in functions && functions[d].isDeclaration;
      }
      rest := rest - {f};
    }
  }
}
