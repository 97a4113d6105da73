/** The flat constant lattice of the analysis tests: unreachable below every constant, every
    constant below conflicting. It meets every hypothesis of the fixpoint results. */
module FlatConstants {
  import opened DataFlowGraphs
  import opened Lattices

  datatype AbsVal = Bottom | Const(value: int) | Top

  function Join(a: AbsVal, b: AbsVal): AbsVal {
    if a.Bottom? then b
    else if b.Bottom? then a
    else if a == b then a
    else Top
  }

  function Meet(a: AbsVal, b: AbsVal): AbsVal {
    if a.Top? then b
    else if b.Top? then a
    else if a == b then a
    else Bottom
  }

  /** Nodes called "entry" produce one, nodes called "inc" add one, all others pass through. */
  function Transfer(node: DataNode, input: AbsVal): AbsVal {
    if node.valueType == Variable("entry") then Const(1)
    else if node.valueType == Variable("inc") && input.Const? then Const(input.value + 1)
    else input
  }

  function TransferBackward(node: DataNode, output: AbsVal): AbsVal {
    if node.valueType == Variable("inc") && output.Const? then Const(output.value - 1)
    else output
  }

  function TestDomain(): Domain<AbsVal> {
    Domain(Const(1), Bottom, Top, Join, Meet, Transfer, TransferBackward)
  }

  lemma JoinQualifies()
    ensures JoinSemilattice(TestDomain())
  {
    var d := TestDomain();
    assert forall a, b :: d.join(a, b) == Join(a, b);
  }

  lemma TransferQualifies()
    ensures Monotone(TestDomain())
  {
    var d := TestDomain();
    forall n, a, b | Leq(d, a, b) ensures Leq(d, d.transfer(n, a), d.transfer(n, b)) {
      assert d.join(a, b) == Join(a, b);
      assert d.transfer(n, a) == Transfer(n, a) && d.transfer(n, b) == Transfer(n, b);
      assert Join(Transfer(n, a), Transfer(n, b)) == Transfer(n, b);
    }
  }

  lemma BackwardQualifies()
    ensures JoinSemilattice(Dual(TestDomain())) && Monotone(Dual(TestDomain()))
  {
    var d := Dual(TestDomain());
    assert forall a, b :: d.join(a, b) == Meet(a, b);
    assert forall n, a :: d.transfer(n, a) == TransferBackward(n, a);
  }

  function Level(v: AbsVal): nat {
    match v
    case Bottom => 0
    case Const(_) => 1
    case Top => 2
  }

  lemma {:induction false} LevelsClimb(chain: seq<AbsVal>, i: nat)
    requires StrictChain(TestDomain(), chain) && i < |chain|
    ensures i <= Level(chain[i])
  {
    if i > 0 {
      LevelsClimb(chain, i - 1);
      assert Leq(TestDomain(), chain[i - 1], chain[i]) && chain[i - 1] != chain[i];
    }
  }

  lemma {:induction false} LevelsFall(chain: seq<AbsVal>, i: nat)
    requires StrictChain(Dual(TestDomain()), chain) && i < |chain|
    ensures Level(chain[i]) + i <= 2
  {
    if i > 0 {
      LevelsFall(chain, i - 1);
      assert Leq(Dual(TestDomain()), chain[i - 1], chain[i]) && chain[i - 1] != chain[i];
    }
  }

  /** Both directions of the domain are semilattices with monotone transfer and height two. */
  lemma TestDomainQualifies()
    ensures JoinSemilattice(TestDomain()) && Monotone(TestDomain()) && HeightAtMost(TestDomain(), 2)
    ensures JoinSemilattice(Dual(TestDomain())) && Monotone(Dual(TestDomain())) && HeightAtMost(Dual(TestDomain()), 2)
  {
    JoinQualifies();
    TransferQualifies();
    BackwardQualifies();
    forall chain | StrictChain(TestDomain(), chain) ensures |chain| <= 3 {
      if chain != [] {
        LevelsClimb(chain, |chain| - 1);
      }
    }
    forall chain | StrictChain(Dual(TestDomain()), chain) ensures |chain| <= 3 {
      if chain != [] {
        LevelsFall(chain, |chain| - 1);
      }
    }
  }
}
