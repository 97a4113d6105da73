/** Sums over the passes of a schedule, and the levels of a schedule joined to one list: the sum
    is the same for every order in which the passes are listed, since each of them is listed
    exactly once. */
module Totals {
  import opened Sequences
  import opened PassManagers

  function TotalOf(f: nat -> nat, order: seq<nat>): nat {
    if order == [] then 0 else TotalOf(f, order[..|order| - 1]) + f(order[|order| - 1])
  }

  function TotalBelow(f: nat -> nat, n: nat): nat {
    if n == 0 then 0 else TotalBelow(f, n - 1) + f(n - 1)
  }

  lemma {:induction false} TotalOfConcat(f: nat -> nat, a: seq<nat>, b: seq<nat>)
    ensures TotalOf(f, a + b) == TotalOf(f, a) + TotalOf(f, b)
  {
    if b == [] {
      assert a + b == a;
    } else {
      TotalOfConcat(f, a, b[..|b| - 1]);
      assert (a + b)[..|a + b| - 1] == a + b[..|b| - 1];
    }
  }

  /** `order` lists the indices below `n`, each once. */
  ghost predicate Permutes(order: seq<nat>, n: nat) {
    Distinct(order) && forall i: nat :: i in order <==> i < n
  }

  /** Taking the last index out of a permutation. */
  lemma WithoutLastIndex(order: seq<nat>, n: nat) returns (p: nat)
    requires Permutes(order, n + 1)
    ensures p < |order| && order[p] == n && Permutes(order[..p] + order[p + 1..], n)
  {
    assert n in order;
    p :| 0 <= p < |order| && order[p] == n;
    var rest := order[..p] + order[p + 1..];
    forall i: nat ensures i in rest <==> i < n {
      if i in rest {
        var r :| 0 <= r < |rest| && rest[r] == i;
        assert order[if r < p then r else r + 1] == i;
        assert i in order;
      }
      if i < n {
        assert i in order;
        var r :| 0 <= r < |order| && order[r] == i;
        assert rest[if r < p then r else r - 1] == i;
      }
    }
  }

  lemma NothingPermuted(order: seq<nat>)
    requires Permutes(order, 0)
    ensures order == []
  {
    HeadIsMember(order);
  }

  lemma HeadIsMember(order: seq<nat>)
    ensures order != [] ==> order[0] in order
  {
  }

  lemma TotalOfPush(f: nat -> nat, order: seq<nat>, i: nat)
    ensures TotalOf(f, order + [i]) == TotalOf(f, order) + f(i)
  {
    assert (order + [i])[..|order|] == order;
  }

  lemma SplitAt(order: seq<nat>, p: nat)
    requires p < |order|
    ensures order == order[..p] + [order[p]] + order[p + 1..]
  {
  }

  lemma TotalWithoutIndex(f: nat -> nat, order: seq<nat>, p: nat)
    requires p < |order|
    ensures TotalOf(f, order) == TotalOf(f, order[..p] + order[p + 1..]) + f(order[p])
  {
    SplitAt(order, p);
    TotalOfConcat(f, order[..p] + [order[p]], order[p + 1..]);
    TotalOfPush(f, order[..p], order[p]);
    TotalOfConcat(f, order[..p], order[p + 1..]);
  }

  /** The total does not depend on the order in which the passes are listed. */
  lemma {:induction false} TotalOfPermutation(f: nat -> nat, order: seq<nat>, n: nat)
    requires Permutes(order, n)
    ensures TotalOf(f, order) == TotalBelow(f, n)
    decreases n
  {
    if n == 0 {
      NothingPermuted(order);
    } else {
      var p := WithoutLastIndex(order, n - 1);
      TotalWithoutIndex(f, order, p);
      TotalOfPermutation(f, order[..p] + order[p + 1..], n - 1);
    }
  }

  lemma {:induction false} SameTotals(f: nat -> nat, g: nat -> nat, n: nat)
    requires forall i: nat :: i < n ==> f(i) == g(i)
    ensures TotalBelow(f, n) == TotalBelow(g, n)
  {
    if n > 0 {
      SameTotals(f, g, n - 1);
    }
  }

  lemma {:induction false} OneSummand(f: nat -> nat, i: nat, n: nat)
    requires forall j: nat :: j < n && j != i ==> f(j) == 0
    ensures TotalBelow(f, n) == if i < n then f(i) else 0
  {
    if n > 0 {
      OneSummand(f, i, n - 1);
    }
  }

  function Flatten(levels: seq<seq<nat>>): seq<nat> {
    if levels == [] then [] else Flatten(levels[..|levels| - 1]) + levels[|levels| - 1]
  }

  lemma {:induction false} FlattenMembers(levels: seq<seq<nat>>, i: nat)
    ensures i in Flatten(levels) <==> Placed(levels, i)
  {
    if levels != [] {
      var init := levels[..|levels| - 1];
      FlattenMembers(init, i);
      if Placed(levels, i) {
        var k :| 0 <= k < |levels| && i in levels[k];
        assert k < |init| ==> i in init[k];
      }
      if Placed(init, i) {
        var k :| 0 <= k < |init| && i in init[k];
        assert i in levels[k];
      }
    }
  }

  lemma {:induction false} FlattenDistinct(levels: seq<seq<nat>>)
    requires forall j, k, i :: 0 <= j < |levels| && 0 <= k < |levels| && i in levels[j] && i in levels[k] ==> j == k
    requires forall k :: 0 <= k < |levels| ==> Distinct(levels[k])
    ensures Distinct(Flatten(levels))
  {
    if levels != [] {
      var init, last := levels[..|levels| - 1], levels[|levels| - 1];
      FlattenDistinct(init);
      forall p, q | 0 <= p < |Flatten(init)| && 0 <= q < |last| ensures Flatten(init)[p] != last[q] {
        FlattenMembers(init, Flatten(init)[p]);
        assert last[q] in levels[|levels| - 1];
      }
    }
  }
}
