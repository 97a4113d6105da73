/** Analysis domains: the lattice operations and transfer functions an analysis is
    parameterised by, and the hypotheses its results rest on. */
module Lattices {
  import opened DataFlowGraphs

  datatype Domain<!V> = Domain(
    initial: V,
    bottom: V,
    top: V,
    join: (V, V) -> V,
    meet: (V, V) -> V,
    transfer: (DataNode, V) -> V,
    transferBackward: (DataNode, V) -> V)

  /** The domain turned upside down: meet for join, top for bottom, backward for forward. */
  function Dual<V>(d: Domain<V>): Domain<V> {
    Domain(d.initial, d.top, d.bottom, d.meet, d.join, d.transferBackward, d.transfer)
  }

  /** The order that `join` induces. */
  ghost predicate Leq<V>(d: Domain<V>, a: V, b: V) {
    d.join(a, b) == b
  }

  ghost predicate Idempotent<V>(d: Domain<V>, a: V) {
    d.join(a, a) == a
  }

  ghost predicate Commutes<V>(d: Domain<V>, a: V, b: V) {
    d.join(a, b) == d.join(b, a)
  }

  ghost predicate Associates<V>(d: Domain<V>, a: V, b: V, c: V) {
    d.join(d.join(a, b), c) == d.join(a, d.join(b, c))
  }

  /** `join` is a least upper bound operation with least element `bottom`. */
  ghost predicate JoinSemilattice<V(!new)>(d: Domain<V>) {
    && (forall a :: Idempotent(d, a))
    && (forall a, b :: Commutes(d, a, b))
    && (forall a, b, c :: Associates(d, a, b, c))
    && (forall a :: Leq(d, d.bottom, a))
  }

  ghost predicate MonotoneAt<V>(d: Domain<V>, n: DataNode, a: V, b: V) {
    Leq(d, a, b) ==> Leq(d, d.transfer(n, a), d.transfer(n, b))
  }

  ghost predicate Monotone<V(!new)>(d: Domain<V>) {
    forall n, a, b :: MonotoneAt(d, n, a, b)
  }

  lemma LeqReflexive<V(!new)>(d: Domain<V>, a: V)
    requires JoinSemilattice(d)
    ensures Leq(d, a, a)
  {
    assert Idempotent(d, a);
  }

  lemma LeqAntisymmetric<V(!new)>(d: Domain<V>, a: V, b: V)
    requires JoinSemilattice(d) && Leq(d, a, b) && Leq(d, b, a)
    ensures a == b
  {
    assert Commutes(d, a, b);
  }

  lemma LeqTransitive<V(!new)>(d: Domain<V>, a: V, b: V, c: V)
    requires JoinSemilattice(d) && Leq(d, a, b) && Leq(d, b, c)
    ensures Leq(d, a, c)
  {
    assert Associates(d, a, b, c);
  }

  lemma JoinIsUpperBound<V(!new)>(d: Domain<V>, a: V, b: V)
    requires JoinSemilattice(d)
    ensures Leq(d, a, d.join(a, b)) && Leq(d, b, d.join(a, b))
  {
    assert Idempotent(d, a) && Associates(d, a, a, b);
    assert Idempotent(d, b) && Associates(d, b, b, a) && Commutes(d, a, b);
  }

  /** And the least one. */
  lemma JoinIsLeast<V(!new)>(d: Domain<V>, a: V, b: V, u: V)
    requires JoinSemilattice(d) && Leq(d, a, u) && Leq(d, b, u)
    ensures Leq(d, d.join(a, b), u)
  {
    assert Associates(d, a, b, u);
  }

  lemma JoinIsMonotone<V(!new)>(d: Domain<V>, a: V, b: V, a': V, b': V)
    requires JoinSemilattice(d) && Leq(d, a, a') && Leq(d, b, b')
    ensures Leq(d, d.join(a, b), d.join(a', b'))
  {
    var c := d.join(a', b');
    JoinIsUpperBound(d, a', b');
    LeqTransitive(d, a, a', c);
    LeqTransitive(d, b, b', c);
    assert Associates(d, a, b, c);
  }

  /** A chain whose every step goes strictly up. */
  ghost predicate StrictChain<V>(d: Domain<V>, chain: seq<V>) {
    forall i :: 0 < i < |chain| ==> Leq(d, chain[i - 1], chain[i]) && chain[i - 1] != chain[i]
  }

  /** No strictly ascending chain takes more than `h` steps. */
  ghost predicate HeightAtMost<V(!new)>(d: Domain<V>, h: nat) {
    forall chain: seq<V> :: StrictChain(d, chain) ==> |chain| <= h + 1
  }

  /** A strict chain of `k` steps that ends in `v`. */
  ghost predicate ChainTo<V>(d: Domain<V>, v: V, k: nat, chain: seq<V>) {
    StrictChain(d, chain) && |chain| == k + 1 && chain[k] == v
  }

  /** The length of the longest chain into `v` among those of at most `k` steps. */
  ghost function RankUpTo<V(!new)>(d: Domain<V>, v: V, k: nat): (r: nat)
    ensures r <= k
    ensures exists chain :: ChainTo(d, v, r, chain)
    ensures forall j, chain :: r < j <= k ==> !ChainTo(d, v, j, chain)
  {
    if k == 0 then
      assert ChainTo(d, v, 0, [v]);
      0
    else if exists chain :: ChainTo(d, v, k, chain) then k
    else RankUpTo(d, v, k - 1)
  }

  /** How far `v` is above the bottom of a lattice of height `h`. */
  ghost function Rank<V(!new)>(d: Domain<V>, h: nat, v: V): (r: nat)
    ensures r <= h
  {
    RankUpTo(d, v, h)
  }

  /** Going strictly up raises the rank. */
  lemma RankAscends<V(!new)>(d: Domain<V>, h: nat, a: V, b: V)
    requires HeightAtMost(d, h) && Leq(d, a, b)
    ensures Rank(d, h, a) <= Rank(d, h, b)
    ensures a != b ==> Rank(d, h, a) < Rank(d, h, b)
  {
    if a != b {
      var k := Rank(d, h, a);
      var chain :| ChainTo(d, a, k, chain);
      assert ChainTo(d, b, k + 1, chain + [b]);
    }
  }
}
