/** The byte-wise order of names, in which ordered sets and maps of names are traversed. */
module NameOrders {

  predicate Before(a: string, b: string) {
    if a == [] then b != []
    else b != [] && (a[0] < b[0] || (a[0] == b[0] && Before(a[1..], b[1..])))
  }

  /** `a` and `b` first differ at position `i`, where `a` has ended or has the smaller character. */
  predicate FirstDiffersAt(a: string, b: string, i: nat) {
    i <= |a| && i < |b| && a[..i] == b[..i] && (i < |a| ==> a[i] < b[i])
  }

  /** The order of names: by the first character in which they differ, prefixes first. */
  lemma {:induction false} BeforeIffFirstDifference(a: string, b: string)
    ensures Before(a, b) <==> exists i: nat :: FirstDiffersAt(a, b, i)
    decreases |a|
  {
    if a == [] {
      assert b != [] ==> FirstDiffersAt(a, b, 0);
    } else if b != [] {
      BeforeIffFirstDifference(a[1..], b[1..]);
      if Before(a, b) {
        if a[0] < b[0] {
          assert FirstDiffersAt(a, b, 0);
        } else {
          var i: nat :| FirstDiffersAt(a[1..], b[1..], i);
          LaterDifference(a, b, i);
        }
      }
      if i: nat :| FirstDiffersAt(a, b, i) {
        if i > 0 {
          EarlierDifference(a, b, i);
        }
      }
    }
  }

  lemma LaterDifference(a: string, b: string, i: nat)
    requires a != [] && b != [] && a[0] == b[0] && FirstDiffersAt(a[1..], b[1..], i)
    ensures FirstDiffersAt(a, b, i + 1)
  {
    assert a[..i + 1] == [a[0]] + a[1..][..i] && b[..i + 1] == [b[0]] + b[1..][..i];
  }

  lemma EarlierDifference(a: string, b: string, i: nat)
    requires i > 0 && FirstDiffersAt(a, b, i)
    ensures a[0] == b[0] && FirstDiffersAt(a[1..], b[1..], i - 1)
  {
    assert a[..i][0] == b[..i][0];
    assert a[1..][..i - 1] == a[..i][1..] && b[1..][..i - 1] == b[..i][1..];
  }

  lemma {:induction false} BeforeIsTotal(a: string, b: string)
    ensures !(Before(a, b) && Before(b, a)) && (a != b ==> Before(a, b) || Before(b, a)) && !Before(a, a)
    decreases |a|
  {
    if a != [] {
      BeforeIsTotal(a[1..], a[1..]);
      if b != [] && a[0] == b[0] {
        BeforeIsTotal(a[1..], b[1..]);
        assert a == [a[0]] + a[1..] && b == [b[0]] + b[1..];
      }
    }
  }

  lemma {:induction false} BeforeIsTransitive(a: string, b: string, c: string)
    requires Before(a, b) && Before(b, c)
    ensures Before(a, c)
    decreases |a|
  {
    if a != [] && a[0] == b[0] == c[0] {
      BeforeIsTransitive(a[1..], b[1..], c[1..]);
    }
  }

  ghost predicate IsLeast(names: set<string>, m: string) {
    m in names && forall n :: n in names && n != m ==> Before(m, n)
  }

  lemma {:induction false} LeastExists(names: set<string>) returns (m: string)
    requires names != {}
    ensures IsLeast(names, m)
    decreases |names|
  {
    m :| m in names;
    if names != {m} {
      assert names - {m} != {} by {
        assert exists n :: n in names && n != m;
      }
      var l := LeastExists(names - {m});
      LeastWith(names - {m}, l, m);
      assert names - {m} + {m} == names;
      m := if Before(m, l) then m else l;
    }
  }

  /** The least of a set and one more name. */
  lemma LeastWith(names: set<string>, l: string, n: string)
    requires IsLeast(names, l) && n !in names
    ensures IsLeast(names + {n}, if Before(n, l) then n else l)
  {
    BeforeIsTotal(l, n);
    if Before(n, l) {
      forall x | x in names && x != l ensures Before(n, x) {
        BeforeIsTransitive(n, l, x);
      }
    }
  }

  lemma LeastIsUnique(names: set<string>, l: string, m: string)
    requires IsLeast(names, l) && IsLeast(names, m)
    ensures l == m
  {
    BeforeIsTotal(l, m);
  }

  ghost function Least(names: set<string>): (m: string)
    requires names != {}
    ensures IsLeast(names, m)
  {
    HasLeast(names);
    var m :| IsLeast(names, m);
    m
  }

  lemma HasLeast(names: set<string>)
    requires names != {}
    ensures exists m :: IsLeast(names, m)
  {
    var m := LeastExists(names);
  }

  /** Walks through the names to find the least. */
  method FindLeast(names: set<string>) returns (m: string)
    requires names != {}
    ensures m == Least(names)
  {
    m :| m in names;
    var rest := names - {m};
    while rest != {}
      invariant rest <= names && IsLeast(names - rest, m)
      decreases rest
    {
      var n :| n in rest;
      LeastWith(names - rest, m, n);
      assert names - rest + {n} == names - (rest - {n});
      if Before(n, m) {
        m := n;
      }
      rest := rest - {n};
    }
    assert names - rest == names;
    LeastIsUnique(names, m, Least(names));
  }

  /** The names in ascending order. */
  ghost function Sorted(names: set<string>): (order: seq<string>)
    ensures forall n :: n in order <==> n in names
    decreases |names|
  {
    if names == {} then [] else [Least(names)] + Sorted(names - {Least(names)})
  }

  lemma {:induction false} SortedAscends(names: set<string>, i: nat, j: nat)
    requires i < j < |Sorted(names)|
    ensures Before(Sorted(names)[i], Sorted(names)[j])
    decreases |names|
  {
    var rest := names - {Least(names)};
    if i > 0 {
      SortedAscends(rest, i - 1, j - 1);
    } else {
      assert Sorted(names)[j] == Sorted(rest)[j - 1] && Sorted(rest)[j - 1] in Sorted(rest);
    }
  }

  ghost predicate Ascends(order: seq<string>) {
    forall i, j :: 0 <= i < j < |order| ==> Before(order[i], order[j])
  }

  lemma SortedAscendsThroughout(names: set<string>)
    ensures Ascends(Sorted(names))
  {
    forall i, j | 0 <= i < j < |Sorted(names)| ensures Before(Sorted(names)[i], Sorted(names)[j]) {
      SortedAscends(names, i, j);
    }
  }
}
