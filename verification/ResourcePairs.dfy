/** The call indexes of the module index, and the pairing of acquire with release calls. */
module ResourcePairs {
  import opened Sequences
  import opened Wrappers

  type Family = nat
  type Key = (string, Option<Family>)

  datatype CallMeta = CallMeta(caller: string, callee: string, family: Option<Family>, isAlloc: bool, isDealloc: bool)

  function KeyOf(meta: CallMeta): Key {
    (meta.caller, meta.family)
  }

  // ----- Insertion-ordered maps from a key to a list of call positions -----

  datatype Buckets<K(==)> = Buckets(keys: seq<K>, lists: map<K, seq<nat>>)

  function At<K>(b: Buckets<K>, key: K): seq<nat> {
    if key in b.lists then b.lists[key] else []
  }

  /** Appends to the list of `key`; a new key goes to the end of the key order. */
  function Push<K>(b: Buckets<K>, key: K, position: nat): Buckets<K> {
    Buckets(if key in b.lists then b.keys else b.keys + [key], b.lists[key := At(b, key) + [position]])
  }

  function First<K>(b: Buckets<K>, key: K): nat {
    if At(b, key) == [] then 0 else At(b, key)[0]
  }

  /** Keys without repetition, in the order of the first positions of their lists, all of which
      come before `n`. */
  ghost predicate InOrder<K(!new)>(b: Buckets<K>, n: nat) {
    && Distinct(b.keys)
    && (forall key :: key in b.lists <==> key in b.keys)
    && (forall key :: key in b.lists ==> b.lists[key] != [] && b.lists[key][0] < n)
    && (forall i, j :: 0 <= i < j < |b.keys| ==> First(b, b.keys[i]) < First(b, b.keys[j]))
  }

  // ----- Positions of the calls playing a role -----

  datatype Role = Acquires(key: Key) | Releases(key: Key) | CalledFrom(name: string) | CallTo(name: string)

  /** A call classified both ways counts as an acquire. */
  predicate Plays(meta: CallMeta, role: Role) {
    match role
    case Acquires(key) => meta.isAlloc && KeyOf(meta) == key
    case Releases(key) => !meta.isAlloc && meta.isDealloc && KeyOf(meta) == key
    case CalledFrom(name) => meta.caller == name
    case CallTo(name) => meta.callee == name
  }

  function Positions(metas: seq<CallMeta>, role: Role): seq<nat> {
    if metas == [] then []
    else
      var n := |metas| - 1;
      Positions(metas[..n], role) + if Plays(metas[n], role) then [n] else []
  }

  ghost predicate Ascending(positions: seq<nat>) {
    forall i, j :: 0 <= i < j < |positions| ==> positions[i] < positions[j]
  }

  /** The positions of a role are exactly the calls that play it, in ascending order. */
  lemma {:induction false} PositionsAreExact(metas: seq<CallMeta>, role: Role)
    ensures Ascending(Positions(metas, role))
    ensures forall p: nat :: p in Positions(metas, role) <==> p < |metas| && Plays(metas[p], role)
  {
    if metas != [] {
      var n := |metas| - 1;
      PositionsAreExact(metas[..n], role);
      var front := Positions(metas[..n], role);
      forall i | 0 <= i < |front| ensures front[i] < n {
        assert front[i] in front;
      }
      if Plays(metas[n], role) {
        LaterAscends(front, n);
      }
    }
  }

  /** A position after all others extends an ascending list. */
  lemma LaterAscends(front: seq<nat>, n: nat)
    requires Ascending(front) && forall i :: 0 <= i < |front| ==> front[i] < n
    ensures Ascending(front + [n]) && forall p: nat :: p in front + [n] <==> p in front || p == n
  {
  }

  /** Each call position occurs in exactly one caller list and exactly one callee list. */
  lemma ListsPartitionCalls(metas: seq<CallMeta>, p: nat, name: string)
    requires p < |metas|
    ensures p in Positions(metas, CalledFrom(name)) <==> name == metas[p].caller
    ensures p in Positions(metas, CallTo(name)) <==> name == metas[p].callee
  {
    PositionsAreExact(metas, CalledFrom(name));
    PositionsAreExact(metas, CallTo(name));
  }

  /** Pushing the next position keeps the buckets in order. */
  lemma PushKeepsOrder<K(!new)>(b: Buckets<K>, key: K, n: nat)
    requires InOrder(b, n)
    ensures InOrder(Push(b, key, n), n + 1)
  {
    var b' := Push(b, key, n);
    forall i, j | 0 <= i < j < |b'.keys| ensures First(b', b'.keys[i]) < First(b', b'.keys[j]) {
      assert b'.keys[i] in b.keys && First(b', b'.keys[i]) == First(b, b'.keys[i]) < n;
      if j < |b.keys| { assert b.keys[j] in b.keys && First(b', b.keys[j]) == First(b, b.keys[j]); }
    }
  }

  lemma PositionsGrow(metas: seq<CallMeta>, meta: CallMeta, role: Role)
    ensures Positions(metas + [meta], role) == Positions(metas, role) + if Plays(meta, role) then [|metas|] else []
  {
    assert (metas + [meta])[..|metas|] == metas;
  }

  // ----- The caller and callee indexes -----

  datatype Call = Call(caller: string, callee: string)

  /** What a registered function does to the resources of its family. */
  datatype SymbolEffect = Acquire | Release | ConditionalRelease | Retain | Escape | Reclaim

  datatype Registered = Registered(family: Family, effect: SymbolEffect)

  type Registry = string -> Option<Registered>

  function TrimAt(name: string): string {
    if name != [] && name[0] == '@' then TrimAt(name[1..]) else name
  }

  function MetaOf(call: Call, lookup: Registry): CallMeta {
    var callee := TrimAt(call.callee);
    match lookup(callee)
    case None => CallMeta(TrimAt(call.caller), callee, None, false, false)
    case Some(Registered(family, effect)) =>
      CallMeta(TrimAt(call.caller), callee, Some(family),
               effect == Acquire || effect == Retain || effect == Reclaim,
               effect == Release || effect == ConditionalRelease)
  }

  ghost predicate AreMetas(metas: seq<CallMeta>, calls: seq<Call>, lookup: Registry) {
    |metas| == |calls| && forall i :: 0 <= i < |calls| ==> metas[i] == MetaOf(calls[i], lookup)
  }

  /** The name starts with exactly `n` characters `@`, and `rest` is what follows them. */
  ghost predicate StartsWithAt(name: string, rest: string, n: nat) {
    n <= |name| && rest == name[n..] && (forall i :: 0 <= i < n ==> name[i] == '@') && (rest != [] ==> rest[0] != '@')
  }

  ghost predicate LosesAt(name: string, rest: string) {
    exists n: nat :: StartsWithAt(name, rest, n)
  }

  lemma {:induction false} TrimAtCounts(name: string) returns (n: nat)
    ensures StartsWithAt(name, TrimAt(name), n)
  {
    if name != [] && name[0] == '@' {
      var m := TrimAtCounts(name[1..]);
      n := m + 1;
      assert name[n..] == name[1..][m..];
      forall i | 0 <= i < n ensures name[i] == '@' {
        assert i > 0 ==> name[i] == name[1..][i - 1];
      }
    } else {
      n := 0;
    }
  }

  lemma TrimAtLosesAt(name: string)
    ensures LosesAt(name, TrimAt(name))
  {
    var n := TrimAtCounts(name);
  }

  /** What is recorded of a registered callee: its family, and what it does. Acquiring,
      retaining and reclaiming count as acquires, releasing and conditionally releasing as
      releases, and escaping as neither. */
  predicate RecordsEffect(meta: CallMeta, known: Option<Registered>) {
    match known
    case None => meta.family == None && !meta.isAlloc && !meta.isDealloc
    case Some(Registered(family, Acquire)) => meta.family == Some(family) && meta.isAlloc && !meta.isDealloc
    case Some(Registered(family, Retain)) => meta.family == Some(family) && meta.isAlloc && !meta.isDealloc
    case Some(Registered(family, Reclaim)) => meta.family == Some(family) && meta.isAlloc && !meta.isDealloc
    case Some(Registered(family, Release)) => meta.family == Some(family) && !meta.isAlloc && meta.isDealloc
    case Some(Registered(family, ConditionalRelease)) => meta.family == Some(family) && !meta.isAlloc && meta.isDealloc
    case Some(Registered(family, Escape)) => meta.family == Some(family) && !meta.isAlloc && !meta.isDealloc
  }

  /** Both names are recorded without their `@`, and the callee is looked up without it. */
  ghost predicate Records(meta: CallMeta, call: Call, lookup: Registry) {
    LosesAt(call.caller, meta.caller) && LosesAt(call.callee, meta.callee) && RecordsEffect(meta, lookup(meta.callee))
  }

  ghost predicate RecordsAll(metas: seq<CallMeta>, calls: seq<Call>, lookup: Registry) {
    |metas| == |calls| && forall i :: 0 <= i < |calls| ==> Records(metas[i], calls[i], lookup)
  }

  lemma EffectIsRecorded(call: Call, lookup: Registry)
    ensures var meta := MetaOf(call, lookup);
      && meta.caller == TrimAt(call.caller) && meta.callee == TrimAt(call.callee)
      && RecordsEffect(meta, lookup(meta.callee))
  {
  }

  lemma MetaRecords(call: Call, lookup: Registry)
    ensures Records(MetaOf(call, lookup), call, lookup)
  {
    EffectIsRecorded(call, lookup);
    TrimAtLosesAt(call.caller);
    TrimAtLosesAt(call.callee);
  }

  lemma MetasRecordCalls(metas: seq<CallMeta>, calls: seq<Call>, lookup: Registry)
    requires AreMetas(metas, calls, lookup)
    ensures RecordsAll(metas, calls, lookup)
  {
    forall i | 0 <= i < |calls| ensures Records(metas[i], calls[i], lookup) {
      MetaRecords(calls[i], lookup);
    }
  }

  /** The role of a name in the caller index, or in the callee index. */
  function NameRole(callers: bool, name: string): Role {
    if callers then CalledFrom(name) else CallTo(name)
  }

  function NameIn(callers: bool, meta: CallMeta): string {
    if callers then meta.caller else meta.callee
  }

  /** The buckets list, under each name in order of first use, the positions of its calls. */
  ghost predicate IndexesNames(b: Buckets<string>, metas: seq<CallMeta>, callers: bool) {
    InOrder(b, |metas|) && forall name :: At(b, name) == Positions(metas, NameRole(callers, name))
  }

  lemma NameIndexGrows(b: Buckets<string>, metas: seq<CallMeta>, meta: CallMeta, callers: bool)
    requires IndexesNames(b, metas, callers)
    ensures IndexesNames(Push(b, NameIn(callers, meta), |metas|), metas + [meta], callers)
  {
    var own := NameIn(callers, meta);
    var b' := Push(b, own, |metas|);
    assert InOrder(b', |metas + [meta]|) by { PushKeepsOrder(b, own, |metas|); }
    forall name ensures At(b', name) == Positions(metas + [meta], NameRole(callers, name)) {
      PositionsGrow(metas, meta, NameRole(callers, name));
      assert At(b, name) == Positions(metas, NameRole(callers, name));
      assert At(b', name) == At(b, name) + if Plays(meta, NameRole(callers, name)) then [|metas|] else [];
    }
  }

  ghost predicate BothIndex(callerCalls: Buckets<string>, calleeCallers: Buckets<string>, metas: seq<CallMeta>) {
    IndexesNames(callerCalls, metas, true) && IndexesNames(calleeCallers, metas, false)
  }

  /** Lists the next call under its callee and under its caller. */
  method IndexCall(callerCalls: Buckets<string>, calleeCallers: Buckets<string>, metas: seq<CallMeta>, meta: CallMeta)
    returns (callerCalls': Buckets<string>, calleeCallers': Buckets<string>)
    requires BothIndex(callerCalls, calleeCallers, metas)
    ensures BothIndex(callerCalls', calleeCallers', metas + [meta])
  {
    NameIndexGrows(callerCalls, metas, meta, true);
    NameIndexGrows(calleeCallers, metas, meta, false);
    calleeCallers' := Push(calleeCallers, NameIn(false, meta), |metas|);
    callerCalls' := Push(callerCalls, NameIn(true, meta), |metas|);
  }

  /** Under each name the ascending positions of exactly the calls from it, and to it. */
  ghost predicate ListsCalls(callerCalls: Buckets<string>, calleeCallers: Buckets<string>, metas: seq<CallMeta>) {
    && (forall name :: Ascending(At(callerCalls, name)) && Ascending(At(calleeCallers, name)))
    && (forall name, p: nat :: p in At(callerCalls, name) <==> p < |metas| && metas[p].caller == name)
    && (forall name, p: nat :: p in At(calleeCallers, name) <==> p < |metas| && metas[p].callee == name)
  }

  lemma IndexesListCalls(callerCalls: Buckets<string>, calleeCallers: Buckets<string>, metas: seq<CallMeta>)
    requires BothIndex(callerCalls, calleeCallers, metas)
    ensures ListsCalls(callerCalls, calleeCallers, metas)
  {
    forall name
      ensures Ascending(At(callerCalls, name)) && Ascending(At(calleeCallers, name))
      ensures forall p: nat :: p in At(callerCalls, name) <==> p < |metas| && metas[p].caller == name
      ensures forall p: nat :: p in At(calleeCallers, name) <==> p < |metas| && metas[p].callee == name
    {
      assert At(callerCalls, name) == Positions(metas, NameRole(true, name));
      assert At(calleeCallers, name) == Positions(metas, NameRole(false, name));
      PositionsAreExact(metas, CalledFrom(name));
      PositionsAreExact(metas, CallTo(name));
    }
  }

  /** The first pass over the calls: names lose their leading `@`, and each call is listed under
      its caller and under its callee. */
  method BuildIndexes(calls: seq<Call>, lookup: Registry)
    returns (metas: seq<CallMeta>, callerCalls: Buckets<string>, calleeCallers: Buckets<string>)
    ensures RecordsAll(metas, calls, lookup)
    ensures ListsCalls(callerCalls, calleeCallers, metas)
    ensures BothIndex(callerCalls, calleeCallers, metas)
  {
    metas, callerCalls, calleeCallers := [], Buckets([], map[]), Buckets([], map[]);
    for i := 0 to |calls|
      invariant AreMetas(metas, calls[..i], lookup)
      invariant BothIndex(callerCalls, calleeCallers, metas)
    {
      var meta := MetaOf(calls[i], lookup);
      callerCalls, calleeCallers := IndexCall(callerCalls, calleeCallers, metas, meta);
      metas := metas + [meta];
      assert calls[..i + 1] == calls[..i] + [calls[i]];
    }
    assert calls[..|calls|] == calls;
    MetasRecordCalls(metas, calls, lookup);
    IndexesListCalls(callerCalls, calleeCallers, metas);
  }

  // ----- Matchings of acquire with release calls -----

  type Pair = (nat, nat)

  ghost predicate Matches(metas: seq<CallMeta>, pair: Pair) {
    && pair.0 < |metas| && pair.1 < |metas|
    && Plays(metas[pair.0], Acquires(KeyOf(metas[pair.0])))
    && Plays(metas[pair.1], Releases(KeyOf(metas[pair.0])))
  }

  predicate Apart(p: Pair, q: Pair) {
    p.0 != q.0 && p.1 != q.1
  }

  /** Pairs of an acquire and a release with one caller and family; no call is used twice. */
  ghost predicate IsMatching(metas: seq<CallMeta>, pairs: seq<Pair>) {
    && (forall i :: 0 <= i < |pairs| ==> Matches(metas, pairs[i]))
    && (forall i, j :: 0 <= i < j < |pairs| ==> Apart(pairs[i], pairs[j]))
  }

  /** Within one key, a later acquire goes with a later release. */
  ghost predicate PreservesOrder(metas: seq<CallMeta>, pairs: seq<Pair>) {
    forall i, j :: 0 <= i < |pairs| && 0 <= j < |pairs| && Matches(metas, pairs[i]) && Matches(metas, pairs[j])
                   && KeyOf(metas[pairs[i].0]) == KeyOf(metas[pairs[j].0]) && pairs[i].0 < pairs[j].0
                   ==> pairs[i].1 < pairs[j].1
  }

  function Min(a: nat, b: nat): nat {
    if a < b then a else b
  }

  /** How many pairs one key allows. */
  function Room(metas: seq<CallMeta>, key: Key): nat {
    Min(|Positions(metas, Acquires(key))|, |Positions(metas, Releases(key))|)
  }

  function TotalRoom(metas: seq<CallMeta>, keys: seq<Key>): nat {
    if keys == [] then 0 else TotalRoom(metas, keys[..|keys| - 1]) + Room(metas, keys[|keys| - 1])
  }

  /** The first acquire of the key with its first release, and so on. */
  function Zip(metas: seq<CallMeta>, key: Key): seq<Pair> {
    seq(Room(metas, key), i requires 0 <= i < Room(metas, key) =>
      (Positions(metas, Acquires(key))[i], Positions(metas, Releases(key))[i]))
  }

  /** The pairs of one key. */
  function PairsOf(metas: seq<CallMeta>, pairs: seq<Pair>, key: Key): seq<Pair>
    requires forall i :: 0 <= i < |pairs| ==> pairs[i].0 < |metas|
  {
    if pairs == [] then []
    else
      var n := |pairs| - 1;
      PairsOf(metas, pairs[..n], key) + if KeyOf(metas[pairs[n].0]) == key then [pairs[n]] else []
  }

  function OtherPairs(metas: seq<CallMeta>, pairs: seq<Pair>, key: Key): seq<Pair>
    requires forall i :: 0 <= i < |pairs| ==> pairs[i].0 < |metas|
  {
    if pairs == [] then []
    else
      var n := |pairs| - 1;
      OtherPairs(metas, pairs[..n], key) + if KeyOf(metas[pairs[n].0]) == key then [] else [pairs[n]]
  }

  /** Splitting a matching by key loses no pair and keeps both parts matchings. */
  lemma {:induction false} SplitByKey(metas: seq<CallMeta>, pairs: seq<Pair>, key: Key)
    requires IsMatching(metas, pairs)
    ensures |pairs| == |PairsOf(metas, pairs, key)| + |OtherPairs(metas, pairs, key)|
    ensures IsMatching(metas, PairsOf(metas, pairs, key)) && IsMatching(metas, OtherPairs(metas, pairs, key))
    ensures forall p :: p in PairsOf(metas, pairs, key) ==> p in pairs && KeyOf(metas[p.0]) == key
    ensures forall p :: p in OtherPairs(metas, pairs, key) ==> p in pairs && KeyOf(metas[p.0]) != key
  {
    if pairs != [] {
      var n := |pairs| - 1;
      SplitByKey(metas, pairs[..n], key);
      MatchingExtends(metas, pairs, PairsOf(metas, pairs[..n], key));
      MatchingExtends(metas, pairs, OtherPairs(metas, pairs[..n], key));
    }
  }

  lemma MatchingExtends(metas: seq<CallMeta>, pairs: seq<Pair>, part: seq<Pair>)
    requires pairs != [] && IsMatching(metas, pairs) && IsMatching(metas, part)
    requires forall p :: p in part ==> p in pairs[..|pairs| - 1]
    ensures IsMatching(metas, part + [pairs[|pairs| - 1]])
  {
    var last := pairs[|pairs| - 1];
    forall i | 0 <= i < |part| ensures Apart(part[i], last) {
      assert part[i] in part;
      var j :| 0 <= j < |pairs| - 1 && pairs[j] == part[i];
    }
  }

  /** No matching has more pairs of one key than the key has acquires, or releases. */
  lemma OneKeyFits(metas: seq<CallMeta>, pairs: seq<Pair>, key: Key)
    requires IsMatching(metas, pairs)
    requires forall p :: p in pairs ==> KeyOf(metas[p.0]) == key
    ensures |pairs| <= Room(metas, key)
  {
    var firsts, seconds := seq(|pairs|, i requires 0 <= i < |pairs| => pairs[i].0), seq(|pairs|, i requires 0 <= i < |pairs| => pairs[i].1);
    forall i | 0 <= i < |pairs|
      ensures firsts[i] in Positions(metas, Acquires(key)) && seconds[i] in Positions(metas, Releases(key))
    {
      assert pairs[i] in pairs && Matches(metas, pairs[i]);
      PositionsAreExact(metas, Acquires(key));
      PositionsAreExact(metas, Releases(key));
    }
    FitsIn(firsts, Positions(metas, Acquires(key)));
    FitsIn(seconds, Positions(metas, Releases(key)));
  }

  lemma FitsIn(s: seq<nat>, bound: seq<nat>)
    requires Distinct(s) && forall i :: 0 <= i < |s| ==> s[i] in bound
    ensures |s| <= |bound|
  {
    DistinctFits(s, Members(bound));
    MembersFit(bound);
  }

  function Members(s: seq<nat>): set<nat> {
    set x | x in s
  }

  lemma {:induction false} MembersFit(s: seq<nat>)
    ensures |Members(s)| <= |s|
  {
    if s != [] {
      var n := |s| - 1;
      MembersFit(s[..n]);
      assert Members(s) == Members(s[..n]) + {s[n]};
    }
  }

  ghost predicate KeysIn(metas: seq<CallMeta>, pairs: seq<Pair>, keys: seq<Key>) {
    forall i :: 0 <= i < |pairs| ==> Matches(metas, pairs[i]) && KeyOf(metas[pairs[i].0]) in keys
  }

  lemma OtherKeys(metas: seq<CallMeta>, pairs: seq<Pair>, keys: seq<Key>, key: Key)
    requires IsMatching(metas, pairs) && KeysIn(metas, pairs, keys + [key])
    ensures KeysIn(metas, OtherPairs(metas, pairs, key), keys)
  {
    SplitByKey(metas, pairs, key);
    var others := OtherPairs(metas, pairs, key);
    forall i | 0 <= i < |others| ensures Matches(metas, others[i]) && KeyOf(metas[others[i].0]) in keys {
      assert others[i] in others;
      var j :| 0 <= j < |pairs| && pairs[j] == others[i];
    }
  }

  /** No matching is larger than the room of all the keys it touches. */
  lemma {:induction false} MatchingFits(metas: seq<CallMeta>, pairs: seq<Pair>, keys: seq<Key>)
    requires IsMatching(metas, pairs) && KeysIn(metas, pairs, keys)
    ensures |pairs| <= TotalRoom(metas, keys)
    decreases |keys|
  {
    assert |pairs| > 0 ==> KeyOf(metas[pairs[0].0]) in keys;
    if keys != [] {
      var n := |keys| - 1;
      SplitByKey(metas, pairs, keys[n]);
      OneKeyFits(metas, PairsOf(metas, pairs, keys[n]), keys[n]);
      assert keys[..n] + [keys[n]] == keys;
      OtherKeys(metas, pairs, keys[..n], keys[n]);
      MatchingFits(metas, OtherPairs(metas, pairs, keys[n]), keys[..n]);
    }
  }

  // ----- The pairing itself -----

  /** What the pairing has produced once it has gone through these keys. */
  function ZipAll(metas: seq<CallMeta>, keys: seq<Key>): seq<Pair> {
    if keys == [] then [] else ZipAll(metas, keys[..|keys| - 1]) + Zip(metas, keys[|keys| - 1])
  }

  lemma ZipMatches(metas: seq<CallMeta>, key: Key)
    ensures IsMatching(metas, Zip(metas, key)) && PreservesOrder(metas, Zip(metas, key))
    ensures KeysIn(metas, Zip(metas, key), [key])
  {
    PositionsAreExact(metas, Acquires(key));
    PositionsAreExact(metas, Releases(key));
    var pairs := Zip(metas, key);
    forall i | 0 <= i < |pairs| ensures Matches(metas, pairs[i]) && KeyOf(metas[pairs[i].0]) == key {
      assert pairs[i].0 in Positions(metas, Acquires(key)) && pairs[i].1 in Positions(metas, Releases(key));
    }
  }

  /** Matchings of different keys join to one that preserves order if both do. */
  lemma JoinMatchings(metas: seq<CallMeta>, a: seq<Pair>, b: seq<Pair>, keys: seq<Key>, key: Key)
    requires IsMatching(metas, a) && PreservesOrder(metas, a) && KeysIn(metas, a, keys)
    requires IsMatching(metas, b) && PreservesOrder(metas, b) && KeysIn(metas, b, [key]) && key !in keys
    ensures IsMatching(metas, a + b) && PreservesOrder(metas, a + b) && KeysIn(metas, a + b, keys + [key])
  {
    var all := a + b;
    forall i, j | 0 <= i < |a| && 0 <= j < |b| ensures KeyOf(metas[a[i].0]) != KeyOf(metas[b[j].0]) && Apart(a[i], b[j]) {
      assert Matches(metas, a[i]) && Matches(metas, b[j]);
    }
    forall i, j | 0 <= i < j < |all| ensures Apart(all[i], all[j]) {
      if i < |a| <= j { assert Apart(a[i], b[j - |a|]); }
    }
  }

  /** Pairing key by key in first-in-first-out order gives an order-preserving matching that
      uses all the room there is. */
  lemma {:induction false} ZipAllMatches(metas: seq<CallMeta>, keys: seq<Key>)
    requires Distinct(keys)
    ensures IsMatching(metas, ZipAll(metas, keys)) && PreservesOrder(metas, ZipAll(metas, keys))
    ensures KeysIn(metas, ZipAll(metas, keys), keys)
    ensures |ZipAll(metas, keys)| == TotalRoom(metas, keys)
  {
    if keys != [] {
      var n := |keys| - 1;
      ZipAllMatches(metas, keys[..n]);
      ZipMatches(metas, keys[n]);
      JoinMatchings(metas, ZipAll(metas, keys[..n]), Zip(metas, keys[n]), keys[..n], keys[n]);
      assert keys[..n] + [keys[n]] == keys;
    }
  }

  lemma {:induction false} PairsOfConcat(metas: seq<CallMeta>, a: seq<Pair>, b: seq<Pair>, key: Key)
    requires forall i :: 0 <= i < |a| ==> a[i].0 < |metas|
    requires forall i :: 0 <= i < |b| ==> b[i].0 < |metas|
    ensures PairsOf(metas, a + b, key) == PairsOf(metas, a, key) + PairsOf(metas, b, key)
  {
    if b == [] {
      assert a + b == a;
    } else {
      var n := |b| - 1;
      PairsOfConcat(metas, a, b[..n], key);
      assert (a + b)[..|a| + n] == a + b[..n];
    }
  }

  lemma {:induction false} PairsOfOneKey(metas: seq<CallMeta>, pairs: seq<Pair>, own: Key, key: Key)
    requires KeysIn(metas, pairs, [own])
    ensures PairsOf(metas, pairs, key) == if key == own then pairs else []
  {
    if pairs != [] {
      var n := |pairs| - 1;
      PairsOfOneKey(metas, pairs[..n], own, key);
      assert KeyOf(metas[pairs[n].0]) in [own];
      assert pairs[..n] + [pairs[n]] == pairs;
    }
  }

  /** Of the pairing, the pairs of a key are its acquires zipped with its releases. */
  lemma {:induction false} PairsOfZipAll(metas: seq<CallMeta>, keys: seq<Key>, key: Key)
    requires Distinct(keys) && KeysIn(metas, ZipAll(metas, keys), keys)
    ensures PairsOf(metas, ZipAll(metas, keys), key) == if key in keys then Zip(metas, key) else []
  {
    if keys != [] {
      var n := |keys| - 1;
      var init, last := ZipAll(metas, keys[..n]), Zip(metas, keys[n]);
      ZipAllMatches(metas, keys[..n]);
      ZipMatches(metas, keys[n]);
      PairsOfZipAll(metas, keys[..n], key);
      PairsOfConcat(metas, init, last, key);
      PairsOfOneKey(metas, last, keys[n], key);
    }
  }

  function KeyRole(acquires: bool, key: Key): Role {
    if acquires then Acquires(key) else Releases(key)
  }

  ghost predicate IndexesKeys(b: Buckets<Key>, metas: seq<CallMeta>, acquires: bool) {
    InOrder(b, |metas|) && forall key :: At(b, key) == Positions(metas, KeyRole(acquires, key))
  }

  lemma KeyIndexGrows(b: Buckets<Key>, metas: seq<CallMeta>, meta: CallMeta, acquires: bool)
    requires IndexesKeys(b, metas, acquires)
    ensures IndexesKeys(if Plays(meta, KeyRole(acquires, KeyOf(meta))) then Push(b, KeyOf(meta), |metas|) else b,
                        metas + [meta], acquires)
  {
    var own := KeyOf(meta);
    var b' := if Plays(meta, KeyRole(acquires, own)) then Push(b, own, |metas|) else b;
    assert InOrder(b', |metas| + 1) by { PushKeepsOrder(b, own, |metas|); }
    forall key ensures At(b', key) == Positions(metas + [meta], KeyRole(acquires, key)) {
      PositionsGrow(metas, meta, KeyRole(acquires, key));
      assert At(b, key) == Positions(metas, KeyRole(acquires, key));
      assert Plays(meta, KeyRole(acquires, key)) ==> key == own;
      assert At(b', key) == At(b, key) + if Plays(meta, KeyRole(acquires, key)) then [|metas|] else [];
    }
  }

  ghost predicate BothGroup(acquires: Buckets<Key>, releases: Buckets<Key>, metas: seq<CallMeta>) {
    IndexesKeys(acquires, metas, true) && IndexesKeys(releases, metas, false)
  }

  /** Groups one more call: as an acquire, else as a release, else not at all. */
  method GroupCall(acquires: Buckets<Key>, releases: Buckets<Key>, ghost metas: seq<CallMeta>, meta: CallMeta, i: nat)
    returns (acquires': Buckets<Key>, releases': Buckets<Key>)
    requires BothGroup(acquires, releases, metas) && i == |metas|
    ensures BothGroup(acquires', releases', metas + [meta])
  {
    KeyIndexGrows(acquires, metas, meta, true);
    KeyIndexGrows(releases, metas, meta, false);
    acquires', releases' := acquires, releases;
    if meta.isAlloc {
      acquires' := Push(acquires, KeyOf(meta), i);
    } else if meta.isDealloc {
      releases' := Push(releases, KeyOf(meta), i);
    }
  }

  method GroupByKey(metas: seq<CallMeta>) returns (acquires: Buckets<Key>, releases: Buckets<Key>)
    ensures IndexesKeys(acquires, metas, true) && IndexesKeys(releases, metas, false)
  {
    acquires, releases := Buckets([], map[]), Buckets([], map[]);
    for i := 0 to |metas|
      invariant BothGroup(acquires, releases, metas[..i])
    {
      acquires, releases := GroupCall(acquires, releases, metas[..i], metas[i], i);
      assert metas[..i + 1] == metas[..i] + [metas[i]];
    }
    assert metas[..|metas|] == metas;
  }

  /** Every matching fits into the keys that have an acquire. */
  lemma GroupedKeysBound(metas: seq<CallMeta>, acquires: Buckets<Key>, pairs: seq<Pair>)
    requires IndexesKeys(acquires, metas, true) && IsMatching(metas, pairs)
    ensures |pairs| <= TotalRoom(metas, acquires.keys)
  {
    forall i | 0 <= i < |pairs| ensures Matches(metas, pairs[i]) && KeyOf(metas[pairs[i].0]) in acquires.keys {
      var key := KeyOf(metas[pairs[i].0]);
      assert Matches(metas, pairs[i]);
      PositionsAreExact(metas, Acquires(key));
      assert pairs[i].0 in At(acquires, key);
    }
    MatchingFits(metas, pairs, acquires.keys);
  }

  ghost predicate IsMaximum(metas: seq<CallMeta>, pairs: seq<Pair>) {
    forall other: seq<Pair> :: IsMatching(metas, other) ==> |other| <= |pairs|
  }

  lemma ZipAllIsMaximum(metas: seq<CallMeta>, acquires: Buckets<Key>)
    requires IndexesKeys(acquires, metas, true)
    ensures IsMatching(metas, ZipAll(metas, acquires.keys)) && PreservesOrder(metas, ZipAll(metas, acquires.keys))
    ensures IsMaximum(metas, ZipAll(metas, acquires.keys))
  {
    ZipAllMatches(metas, acquires.keys);
    forall other: seq<Pair> | IsMatching(metas, other) ensures |other| <= |ZipAll(metas, acquires.keys)| {
      GroupedKeysBound(metas, acquires, other);
    }
  }

  /** A key without acquires has no pairs; the others have theirs zipped. */
  lemma PairsAreZipped(metas: seq<CallMeta>, acquires: Buckets<Key>, key: Key)
    requires IndexesKeys(acquires, metas, true) && IsMatching(metas, ZipAll(metas, acquires.keys))
    ensures PairsOf(metas, ZipAll(metas, acquires.keys), key) == Zip(metas, key)
  {
    ZipAllMatches(metas, acquires.keys);
    PairsOfZipAll(metas, acquires.keys, key);
    assert At(acquires, key) == Positions(metas, KeyRole(true, key));
  }

  // ----- The pairing, from the recorded calls alone -----

  predicate SameScope(a: CallMeta, b: CallMeta) {
    a.caller == b.caller && a.family == b.family
  }

  /** An acquire with a release of the same caller and family; what is both is an acquire. */
  predicate PairsUp(metas: seq<CallMeta>, p: nat, q: nat) {
    && p < |metas| && q < |metas| && SameScope(metas[p], metas[q])
    && metas[p].isAlloc && metas[q].isDealloc && !metas[q].isAlloc
  }

  ghost predicate UsesNoneTwice(pairs: seq<Pair>) {
    forall i, j :: 0 <= i < j < |pairs| ==> pairs[i].0 != pairs[j].0 && pairs[i].1 != pairs[j].1
  }

  ghost predicate PairsCalls(metas: seq<CallMeta>, pairs: seq<Pair>) {
    UsesNoneTwice(pairs) && forall i :: 0 <= i < |pairs| ==> PairsUp(metas, pairs[i].0, pairs[i].1)
  }

  lemma PairsCallsIffMatching(metas: seq<CallMeta>, pairs: seq<Pair>)
    ensures PairsCalls(metas, pairs) <==> IsMatching(metas, pairs)
  {
    forall i | 0 <= i < |pairs| ensures PairsUp(metas, pairs[i].0, pairs[i].1) <==> Matches(metas, pairs[i]) {
    }
    if IsMatching(metas, pairs) {
      forall i, j | 0 <= i < j < |pairs| ensures pairs[i].0 != pairs[j].0 && pairs[i].1 != pairs[j].1 {
        assert Apart(pairs[i], pairs[j]);
      }
    }
  }

  /** No other pairing has more pairs. */
  ghost predicate PairsMost(metas: seq<CallMeta>, pairs: seq<Pair>) {
    forall other: seq<Pair> :: PairsCalls(metas, other) ==> |other| <= |pairs|
  }

  /** How many calls before `p` are acquires of the scope of call `p`, or releases of it. */
  function AcquiresBefore(metas: seq<CallMeta>, p: nat, scope: CallMeta): nat
    requires p <= |metas|
  {
    if p == 0 then 0
    else AcquiresBefore(metas, p - 1, scope) + if SameScope(metas[p - 1], scope) && metas[p - 1].isAlloc then 1 else 0
  }

  function ReleasesBefore(metas: seq<CallMeta>, p: nat, scope: CallMeta): nat
    requires p <= |metas|
  {
    if p == 0 then 0
    else
      ReleasesBefore(metas, p - 1, scope)
        + if SameScope(metas[p - 1], scope) && metas[p - 1].isDealloc && !metas[p - 1].isAlloc then 1 else 0
  }

  /** Two calls are paired exactly if they may be and are equally far down their lists: the first
      acquire of a caller and family with its first release, and so on. */
  ghost predicate PairsInTurn(metas: seq<CallMeta>, pairs: seq<Pair>) {
    forall p: nat, q: nat :: (p, q) in pairs
      <==> PairsUp(metas, p, q) && AcquiresBefore(metas, p, metas[p]) == ReleasesBefore(metas, q, metas[q])
  }

  lemma {:induction false} AcquiresBeforeCounts(metas: seq<CallMeta>, p: nat, scope: CallMeta)
    requires p <= |metas|
    ensures AcquiresBefore(metas, p, scope) == |Positions(metas[..p], Acquires(KeyOf(scope)))|
  {
    if p > 0 {
      AcquiresBeforeCounts(metas, p - 1, scope);
      assert metas[..p][..p - 1] == metas[..p - 1];
    }
  }

  lemma {:induction false} ReleasesBeforeCounts(metas: seq<CallMeta>, p: nat, scope: CallMeta)
    requires p <= |metas|
    ensures ReleasesBefore(metas, p, scope) == |Positions(metas[..p], Releases(KeyOf(scope)))|
  {
    if p > 0 {
      ReleasesBeforeCounts(metas, p - 1, scope);
      assert metas[..p][..p - 1] == metas[..p - 1];
    }
  }

  /** A position stands in its list behind as many as come before it. */
  lemma PlaceInList(metas: seq<CallMeta>, role: Role, i: nat)
    requires i < |Positions(metas, role)|
    ensures Positions(metas, role)[i] < |metas| && |Positions(metas[..Positions(metas, role)[i]], role)| == i
  {
    PositionsAreExact(metas, role);
    var all := Positions(metas, role);
    var p := all[i];
    assert p in all;
    PrefixPositions(metas, role, p);
    assert !(all[i] < p);
    if i > 0 {
      assert all[i - 1] < p;
    }
  }

  lemma PlaceOf(metas: seq<CallMeta>, role: Role, p: nat) returns (i: nat)
    requires p < |metas| && Plays(metas[p], role)
    ensures i < |Positions(metas, role)| && Positions(metas, role)[i] == p && |Positions(metas[..p], role)| == i
  {
    PositionsAreExact(metas, role);
    assert p in Positions(metas, role);
    i :| 0 <= i < |Positions(metas, role)| && Positions(metas, role)[i] == p;
    PlaceInList(metas, role, i);
  }

  lemma {:induction false} PairsOfMembers(metas: seq<CallMeta>, pairs: seq<Pair>, key: Key, pair: Pair)
    requires forall i :: 0 <= i < |pairs| ==> pairs[i].0 < |metas|
    ensures pair in PairsOf(metas, pairs, key) <==> pair in pairs && KeyOf(metas[pair.0]) == key
  {
    if pairs != [] {
      var n := |pairs| - 1;
      PairsOfMembers(metas, pairs[..n], key, pair);
      assert pair in pairs <==> pair in pairs[..n] || pair == pairs[n];
    }
  }

  lemma ZippedAreInTurn(metas: seq<CallMeta>, key: Key, p: nat, q: nat)
    requires (p, q) in Zip(metas, key)
    ensures PairsUp(metas, p, q) && AcquiresBefore(metas, p, metas[p]) == ReleasesBefore(metas, q, metas[q])
  {
    var i :| 0 <= i < Room(metas, key) && Zip(metas, key)[i] == (p, q);
    PositionsAreExact(metas, Acquires(key));
    PositionsAreExact(metas, Releases(key));
    assert p in Positions(metas, Acquires(key)) && q in Positions(metas, Releases(key));
    PlaceInList(metas, Acquires(key), i);
    PlaceInList(metas, Releases(key), i);
    AcquiresBeforeCounts(metas, p, metas[p]);
    ReleasesBeforeCounts(metas, q, metas[q]);
  }

  lemma InTurnAreZipped(metas: seq<CallMeta>, p: nat, q: nat)
    requires PairsUp(metas, p, q) && AcquiresBefore(metas, p, metas[p]) == ReleasesBefore(metas, q, metas[q])
    ensures (p, q) in Zip(metas, KeyOf(metas[p]))
  {
    var key := KeyOf(metas[p]);
    AcquiresBeforeCounts(metas, p, metas[p]);
    ReleasesBeforeCounts(metas, q, metas[q]);
    var i := PlaceOf(metas, Acquires(key), p);
    var j := PlaceOf(metas, Releases(key), q);
    assert Zip(metas, key)[i] == (p, q);
  }

  lemma PairingIsInTurn(metas: seq<CallMeta>, pairs: seq<Pair>)
    requires IsMatching(metas, pairs) && forall key :: PairsOf(metas, pairs, key) == Zip(metas, key)
    ensures PairsInTurn(metas, pairs)
  {
    forall p: nat, q: nat
      ensures (p, q) in pairs
        <==> PairsUp(metas, p, q) && AcquiresBefore(metas, p, metas[p]) == ReleasesBefore(metas, q, metas[q])
    {
      if (p, q) in pairs {
        var key := KeyOf(metas[p]);
        PairsOfMembers(metas, pairs, key, (p, q));
        assert PairsOf(metas, pairs, key) == Zip(metas, key);
        ZippedAreInTurn(metas, key, p, q);
      }
      if PairsUp(metas, p, q) && AcquiresBefore(metas, p, metas[p]) == ReleasesBefore(metas, q, metas[q]) {
        var key := KeyOf(metas[p]);
        InTurnAreZipped(metas, p, q);
        assert PairsOf(metas, pairs, key) == Zip(metas, key);
        PairsOfMembers(metas, pairs, key, (p, q));
      }
    }
  }

  lemma PairingIsMost(metas: seq<CallMeta>, pairs: seq<Pair>)
    requires IsMatching(metas, pairs) && IsMaximum(metas, pairs)
    ensures PairsCalls(metas, pairs) && PairsMost(metas, pairs)
  {
    PairsCallsIffMatching(metas, pairs);
    forall other: seq<Pair> | PairsCalls(metas, other) ensures |other| <= |pairs| {
      PairsCallsIffMatching(metas, other);
    }
  }

  predicate Acquiring(metas: seq<CallMeta>, p: nat, scope: CallMeta) {
    p < |metas| && metas[p].isAlloc && SameScope(metas[p], scope)
  }

  /** Some acquire of the one scope comes before every acquire of the other. */
  ghost predicate AcquiresEarlier(metas: seq<CallMeta>, one: CallMeta, other: CallMeta) {
    exists p: nat :: Acquiring(metas, p, one) && forall q: nat :: Acquiring(metas, q, other) ==> p < q
  }

  /** Pairs of one scope follow its acquires, and scopes follow their first acquires. */
  ghost predicate ComesFirst(metas: seq<CallMeta>, x: Pair, y: Pair) {
    && x.0 < |metas| && y.0 < |metas|
    && if SameScope(metas[x.0], metas[y.0]) then x.0 < y.0 else AcquiresEarlier(metas, metas[x.0], metas[y.0])
  }

  ghost predicate ListedByAcquire(metas: seq<CallMeta>, pairs: seq<Pair>) {
    forall i, j :: 0 <= i < j < |pairs| ==> ComesFirst(metas, pairs[i], pairs[j])
  }

  function FirstAcquire(metas: seq<CallMeta>, key: Key): nat {
    if Positions(metas, Acquires(key)) == [] then 0 else Positions(metas, Acquires(key))[0]
  }

  lemma EarlierKeyAcquiresEarlier(metas: seq<CallMeta>, one: CallMeta, other: CallMeta)
    requires Positions(metas, Acquires(KeyOf(one))) != [] && FirstAcquire(metas, KeyOf(one)) < FirstAcquire(metas, KeyOf(other))
    ensures AcquiresEarlier(metas, one, other)
  {
    var p := FirstAcquire(metas, KeyOf(one));
    PositionsAreExact(metas, Acquires(KeyOf(one)));
    PositionsAreExact(metas, Acquires(KeyOf(other)));
    assert p in Positions(metas, Acquires(KeyOf(one)));
    assert Acquiring(metas, p, one);
    forall q: nat | Acquiring(metas, q, other) ensures p < q {
      assert q in Positions(metas, Acquires(KeyOf(other)));
    }
  }

  lemma ZipListed(metas: seq<CallMeta>, key: Key)
    ensures ListedByAcquire(metas, Zip(metas, key))
  {
    PositionsAreExact(metas, Acquires(key));
    ZipMatches(metas, key);
    var pairs := Zip(metas, key);
    forall i, j | 0 <= i < j < |pairs| ensures ComesFirst(metas, pairs[i], pairs[j]) {
      assert KeyOf(metas[pairs[i].0]) in [key] && KeyOf(metas[pairs[j].0]) in [key];
    }
  }

  lemma {:induction false} ZipAllListed(metas: seq<CallMeta>, keys: seq<Key>)
    requires Distinct(keys)
    requires forall i, j :: 0 <= i < j < |keys| ==> FirstAcquire(metas, keys[i]) < FirstAcquire(metas, keys[j])
    ensures ListedByAcquire(metas, ZipAll(metas, keys))
  {
    if keys != [] {
      var n := |keys| - 1;
      var front, last := ZipAll(metas, keys[..n]), Zip(metas, keys[n]);
      ZipAllListed(metas, keys[..n]);
      ZipListed(metas, keys[n]);
      ZipAllMatches(metas, keys[..n]);
      ZipMatches(metas, keys[n]);
      forall i, j | 0 <= i < |front| && 0 <= j < |last| ensures ComesFirst(metas, front[i], last[j]) {
        var one, other := metas[front[i].0], metas[last[j].0];
        assert Matches(metas, front[i]) && KeyOf(one) in keys[..n] && KeyOf(other) in [keys[n]];
        PositionsAreExact(metas, Acquires(KeyOf(one)));
        assert front[i].0 in Positions(metas, Acquires(KeyOf(one)));
        EarlierKeyAcquiresEarlier(metas, one, other);
      }
    }
  }

  lemma PairingIsListed(metas: seq<CallMeta>, acquires: Buckets<Key>)
    requires IndexesKeys(acquires, metas, true)
    ensures ListedByAcquire(metas, ZipAll(metas, acquires.keys))
  {
    forall i | 0 <= i < |acquires.keys| ensures First(acquires, acquires.keys[i]) == FirstAcquire(metas, acquires.keys[i]) {
      assert At(acquires, acquires.keys[i]) == Positions(metas, KeyRole(true, acquires.keys[i]));
    }
    ZipAllListed(metas, acquires.keys);
  }

  /** The result is a maximum matching of acquire with release calls that share caller and
      family; it pairs, key by key, the first acquire with the first release, and so on. */
  method BuildResourcePairClosure(metas: seq<CallMeta>) returns (pairs: seq<Pair>)
    ensures PairsCalls(metas, pairs) && PairsMost(metas, pairs)
    ensures PairsInTurn(metas, pairs) && ListedByAcquire(metas, pairs)
    ensures IsMatching(metas, pairs) && PreservesOrder(metas, pairs) && IsMaximum(metas, pairs)
    ensures exists keys :: Distinct(keys) && pairs == ZipAll(metas, keys)
    ensures forall key :: PairsOf(metas, pairs, key) == Zip(metas, key)
  {
    var acquires, releases := GroupByKey(metas);
    pairs := PairAll(metas, acquires, releases);
    ZipAllIsMaximum(metas, acquires);
    forall key ensures PairsOf(metas, pairs, key) == Zip(metas, key) {
      PairsAreZipped(metas, acquires, key);
    }
    PairingIsInTurn(metas, pairs);
    PairingIsMost(metas, pairs);
    PairingIsListed(metas, acquires);
  }

  /** Goes through the keys that have an acquire, in order. */
  method PairAll(ghost metas: seq<CallMeta>, acquires: Buckets<Key>, releases: Buckets<Key>) returns (pairs: seq<Pair>)
    requires IndexesKeys(acquires, metas, true) && IndexesKeys(releases, metas, false)
    ensures pairs == ZipAll(metas, acquires.keys)
  {
    pairs := [];
    var keys := acquires.keys;
    for k := 0 to |keys|
      invariant pairs == ZipAll(metas, keys[..k])
    {
      var zipped := PairKey(metas, keys[k], acquires, releases);
      ZipAllStep(metas, keys, k);
      pairs := pairs + zipped;
    }
    assert keys[..|keys|] == keys;
  }

  lemma ZipAllStep(metas: seq<CallMeta>, keys: seq<Key>, k: nat)
    requires k < |keys|
    ensures ZipAll(metas, keys[..k + 1]) == ZipAll(metas, keys[..k]) + Zip(metas, keys[k])
  {
    assert keys[..k + 1][..k] == keys[..k];
  }

  /** Pairs the acquires of one key with its releases, if it has any. */
  method PairKey(ghost metas: seq<CallMeta>, key: Key, acquires: Buckets<Key>, releases: Buckets<Key>) returns (zipped: seq<Pair>)
    requires IndexesKeys(acquires, metas, true) && IndexesKeys(releases, metas, false) && key in acquires.keys
    ensures zipped == Zip(metas, key)
  {
    assert At(acquires, key) == Positions(metas, KeyRole(true, key));
    assert At(releases, key) == Positions(metas, KeyRole(false, key));
    if key !in releases.lists {
      return [];
    }
    zipped := ZipLists(acquires.lists[key], releases.lists[key]);
  }

  method ZipLists(a: seq<nat>, b: seq<nat>) returns (pairs: seq<Pair>)
    ensures |pairs| == Min(|a|, |b|)
    ensures forall i :: 0 <= i < |pairs| ==> pairs[i] == (a[i], b[i])
  {
    pairs := [];
    for i := 0 to Min(|a|, |b|)
      invariant |pairs| == i && forall j :: 0 <= j < i ==> pairs[j] == (a[j], b[j])
    {
      pairs := pairs + [(a[i], b[i])];
    }
  }

  // ----- When the pairs follow the order of the calls -----

  /** Each acquire of the key comes before the release it is paired with. */
  ghost predicate AcquiredFirst(metas: seq<CallMeta>, key: Key) {
    forall i :: 0 <= i < |Zip(metas, key)| ==> Zip(metas, key)[i].0 < Zip(metas, key)[i].1
  }

  /** No prefix of the calls has more of the key's paired releases than acquires. */
  ghost predicate NeverOverdrawn(metas: seq<CallMeta>, key: Key) {
    forall p :: 0 <= p <= |metas| ==>
      Min(|Positions(metas[..p], Releases(key))|, Room(metas, key)) <= |Positions(metas[..p], Acquires(key))|
  }

  /** The positions in a prefix are the positions below its length. */
  lemma {:induction false} PrefixPositions(metas: seq<CallMeta>, role: Role, p: nat)
    requires p <= |metas|
    ensures var all, prefix := Positions(metas, role), Positions(metas[..p], role);
            |prefix| <= |all| && forall i :: 0 <= i < |all| ==> (i < |prefix| <==> all[i] < p)
  {
    PositionsAreExact(metas, role);
    if p == |metas| {
      assert metas[..p] == metas;
      assert forall i :: 0 <= i < |Positions(metas, role)| ==> Positions(metas, role)[i] in Positions(metas, role);
    } else {
      var n := |metas| - 1;
      assert metas[..n][..p] == metas[..p];
      PrefixPositions(metas[..n], role, p);
    }
  }

  /** First-in-first-out pairing ignores the order of the calls: it pairs every acquire with a
      later release exactly when no prefix is overdrawn. */
  lemma AcquiredFirstIffNeverOverdrawn(metas: seq<CallMeta>, key: Key)
    ensures AcquiredFirst(metas, key) <==> NeverOverdrawn(metas, key)
  {
    var acquires, releases := Positions(metas, Acquires(key)), Positions(metas, Releases(key));
    PositionsAreExact(metas, Acquires(key));
    PositionsAreExact(metas, Releases(key));
    if AcquiredFirst(metas, key) {
      forall p | 0 <= p <= |metas|
        ensures Min(|Positions(metas[..p], Releases(key))|, Room(metas, key)) <= |Positions(metas[..p], Acquires(key))|
      {
        PrefixPositions(metas, Acquires(key), p);
        PrefixPositions(metas, Releases(key), p);
        var c := Min(|Positions(metas[..p], Releases(key))|, Room(metas, key));
        if c > 0 {
          assert Zip(metas, key)[c - 1] == (acquires[c - 1], releases[c - 1]);
        }
      }
    }
    if NeverOverdrawn(metas, key) {
      forall i | 0 <= i < |Zip(metas, key)| ensures acquires[i] < releases[i] {
        assert acquires[i] in acquires && releases[i] in releases;
        var p := releases[i] + 1;
        PrefixPositions(metas, Acquires(key), p);
        PrefixPositions(metas, Releases(key), p);
        assert Min(|Positions(metas[..p], Releases(key))|, Room(metas, key)) <= |Positions(metas[..p], Acquires(key))|;
      }
    }
  }

  /** A release followed by an acquire is overdrawn: the two are paired backwards. */
  lemma ReleaseFirstIsPaired(caller: string, callee: string, family: Option<Family>)
    ensures var metas := [CallMeta(caller, callee, family, false, true), CallMeta(caller, callee, family, true, false)];
            Zip(metas, (caller, family)) == [(1, 0)]
  {
    var release, acquire := CallMeta(caller, callee, family, false, true), CallMeta(caller, callee, family, true, false);
    var key := (caller, family);
    PositionsGrow([], release, Acquires(key));
    PositionsGrow([], release, Releases(key));
    PositionsGrow([release], acquire, Acquires(key));
    PositionsGrow([release], acquire, Releases(key));
    assert [] + [release] == [release] && [release] + [acquire] == [release, acquire];
  }
}
