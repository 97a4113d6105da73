/** Schedules of passes in levels, what passes must keep to in them, and which write decides the
    value of a shared key. */
module Schedules {
  import opened Sequences
  import opened PassContexts
  import opened PassManagers
  import opened PassRunners

  /** A schedule: every pass in exactly one level, at one position, and the passes it depends
      on in earlier levels. */
  ghost predicate IsSchedule(passes: seq<Pass>, levels: seq<seq<nat>>) {
    && AllInRange(passes, levels)
    && (forall i :: 0 <= i < |passes| ==> Placed(levels, i))
    && (forall j, k, i :: 0 <= j < |levels| && 0 <= k < |levels| && i in levels[j] && i in levels[k] ==> j == k)
    && (forall k :: 0 <= k < |levels| ==> Distinct(levels[k]))
    && (forall k, i, dep :: 0 <= k < |levels| && i in levels[k] && 0 <= i < |passes| && dep in passes[i].dependencies ==>
          exists d: nat :: PlacedBefore(levels, k, d) && d < |passes| && passes[d].name == dep)
  }

  ghost predicate PlacedBefore(levels: seq<seq<nat>>, k: nat, d: nat) {
    exists j :: 0 <= j < k && j < |levels| && d in levels[j]
  }

  ghost predicate Writes(passes: seq<Pass>, i: nat, key: string)
    requires i < |passes|
  {
    !NeverWrites(passes[i].body, key)
  }

  /** Pass `i` may read or write `key`; emitting an issue reads the key of the gate. */
  ghost predicate Accesses(passes: seq<Pass>, i: nat, key: string)
    requires i < |passes|
  {
    !NeverReads(passes[i].body, key) || Writes(passes, i, key)
  }

  ghost predicate WrittenIn(passes: seq<Pass>, level: seq<nat>, key: string)
    requires InRange(passes, level)
  {
    exists p :: 0 <= p < |level| && Writes(passes, level[p], key)
  }

  ghost predicate WrittenBefore(passes: seq<Pass>, levels: seq<seq<nat>>, k: nat, key: string)
    requires AllInRange(passes, levels) && k <= |levels|
  {
    exists j :: 0 <= j < k && WrittenIn(passes, levels[j], key)
  }

  /** A key that may be there before a level is written only by the last pass of that level. */
  ghost predicate UpdatesComeLast(passes: seq<Pass>, levels: seq<seq<nat>>, base: map<string, Any>)
    requires AllInRange(passes, levels)
  {
    forall k, p, key :: 0 <= k < |levels| && 0 <= p < |levels[k]| && Writes(passes, levels[k][p], key)
                        && (key in base || WrittenBefore(passes, levels, k, key)) ==>
      p == |levels[k]| - 1
  }

  ghost predicate AllIgnoreIds(passes: seq<Pass>) {
    forall i :: 0 <= i < |passes| ==> Alike(passes[i].body, passes[i].body)
  }

  /** No level has two writers of a key. */
  ghost predicate OneWriterPerLevel(passes: seq<Pass>, levels: seq<seq<nat>>)
    requires AllInRange(passes, levels)
  {
    forall k, p, q, key :: 0 <= k < |levels| && 0 <= p < |levels[k]| && 0 <= q < |levels[k]|
                           && Writes(passes, levels[k][p], key) && Writes(passes, levels[k][q], key) ==>
      p == q
  }

  /** A level has at most one writer of a key, the last of its passes if the key may be there
      already; and no pass branches on ids or stores them, though it may record them in facts and
      diagnostics. */
  ghost predicate NonInterfering(gate: Gate, passes: seq<Pass>, levels: seq<seq<nat>>, base: map<string, Any>) {
    && GateIgnoresIds(gate) && AllIgnoreIds(passes)
    && AllInRange(passes, levels) && OneWriterPerLevel(passes, levels) && UpdatesComeLast(passes, levels, base)
  }

  /** The same writers of `key` come before level `k1` of one schedule and level `k2` of the other. */
  ghost predicate SameWritersBefore(passes: seq<Pass>, levels1: seq<seq<nat>>, k1: nat, levels2: seq<seq<nat>>, k2: nat, key: string) {
    forall j: nat :: j < |passes| && Writes(passes, j, key) ==> (PlacedBefore(levels1, k1, j) <==> PlacedBefore(levels2, k2, j))
  }

  /** Before every pass both schedules place the same writers of the keys the pass accesses. */
  ghost predicate PlacedAlike(passes: seq<Pass>, levels1: seq<seq<nat>>, levels2: seq<seq<nat>>) {
    forall k1: nat, k2: nat, i: nat, key ::
      k1 < |levels1| && i in levels1[k1] && k2 < |levels2| && i in levels2[k2] && i < |passes| && Accesses(passes, i, key) ==>
        SameWritersBefore(passes, levels1, k1, levels2, k2, key)
  }

  // ----- One level -----

  /** A key no pass of the level writes keeps its value. */
  lemma {:induction false} LevelKeepsKey(gate: Gate, passes: seq<Pass>, level: seq<nat>, c: Context, key: string)
    requires InRange(passes, level)
    requires forall p :: 0 <= p < |level| ==> !Writes(passes, level[p], key)
    ensures Lookup(RunLevel(gate, passes, level, c).shared, key) == Lookup(c.shared, key)
  {
    if level != [] {
      LevelKeepsKey(gate, passes, level[..|level| - 1], c, key);
      UnwrittenKeyIsKept(gate, passes[level[|level| - 1]].body, CloneOf(c), key);
    }
  }

  /** A key that exactly one pass of the level writes gets that pass's value if the key is new
      or the pass is the last. */
  lemma {:induction false} LevelWritesKey(gate: Gate, passes: seq<Pass>, level: seq<nat>, c: Context, key: string, q: nat)
    requires InRange(passes, level) && q < |level| && (key !in c.shared || q == |level| - 1)
    requires forall p :: 0 <= p < |level| && p != q ==> !Writes(passes, level[p], key)
    ensures Lookup(RunLevel(gate, passes, level, c).shared, key)
         == Lookup(Exec(gate, passes[level[q]].body, CloneOf(c)).shared, key)
  {
    var init := level[..|level| - 1];
    if key in c.shared {
      PresentKeyIsDecidedByLastClone(gate, passes, level, c, key);
    } else if q == |level| - 1 {
      LevelKeepsKey(gate, passes, init, c, key);
    } else {
      LevelWritesKey(gate, passes, init, c, key, q);
      UnwrittenKeyIsKept(gate, passes[level[|level| - 1]].body, CloneOf(c), key);
    }
  }

  /** A key that is present before a level ends with the value of the level's last clone. */
  lemma PresentKeyIsDecidedByLastClone(gate: Gate, passes: seq<Pass>, level: seq<nat>, c: Context, key: string)
    requires InRange(passes, level) && level != [] && key in c.shared
    ensures Lookup(RunLevel(gate, passes, level, c).shared, key)
         == Lookup(Exec(gate, passes[level[|level| - 1]].body, CloneOf(c)).shared, key)
  {
    ExecGrows(gate, passes[level[|level| - 1]].body, CloneOf(c));
  }

  /** An update of a present key by the level's only writer of it survives the level exactly
      when the writer is the level's last pass, or leaves the old value. */
  lemma UpdateSurvivesIffLast(gate: Gate, passes: seq<Pass>, level: seq<nat>, c: Context, key: string, q: nat)
    requires InRange(passes, level) && q < |level| && key in c.shared
    requires forall p :: 0 <= p < |level| && p != q ==> !Writes(passes, level[p], key)
    ensures var written := Lookup(Exec(gate, passes[level[q]].body, CloneOf(c)).shared, key);
      Lookup(RunLevel(gate, passes, level, c).shared, key) == written
      <==> q == |level| - 1 || written == Lookup(c.shared, key)
  {
    PresentKeyIsDecidedByLastClone(gate, passes, level, c, key);
    if q != |level| - 1 {
      UnwrittenKeyIsKept(gate, passes[level[|level| - 1]].body, CloneOf(c), key);
    }
  }

  // ----- All levels -----

  ghost function After(gate: Gate, passes: seq<Pass>, levels: seq<seq<nat>>, c: Context, k: nat): Context
    requires AllInRange(passes, levels) && k <= |levels|
  {
    RunLevels(gate, passes, levels[..k], c)
  }

  lemma AfterStep(gate: Gate, passes: seq<Pass>, levels: seq<seq<nat>>, c: Context, k: nat)
    requires AllInRange(passes, levels) && k < |levels|
    ensures After(gate, passes, levels, c, k + 1) == RunLevel(gate, passes, levels[k], After(gate, passes, levels, c, k))
  {
    assert levels[..k + 1][..k] == levels[..k];
  }

  lemma {:induction false} LevelsKeepKey(gate: Gate, passes: seq<Pass>, levels: seq<seq<nat>>, c: Context, key: string, a: nat, b: nat)
    requires AllInRange(passes, levels) && a <= b <= |levels|
    requires forall k, p :: a <= k < b && 0 <= p < |levels[k]| ==> !Writes(passes, levels[k][p], key)
    ensures Lookup(After(gate, passes, levels, c, b).shared, key) == Lookup(After(gate, passes, levels, c, a).shared, key)
    decreases b - a
  {
    if a < b {
      LevelsKeepKey(gate, passes, levels, c, key, a, b - 1);
      AfterStep(gate, passes, levels, c, b - 1);
      LevelKeepsKey(gate, passes, levels[b - 1], After(gate, passes, levels, c, b - 1), key);
    }
  }

  /** A key that nobody has written so far has the value it had before the run. */
  lemma UnwrittenBefore(gate: Gate, passes: seq<Pass>, levels: seq<seq<nat>>, c: Context, k: nat, key: string)
    requires AllInRange(passes, levels) && k <= |levels| && !WrittenBefore(passes, levels, k, key)
    ensures Lookup(After(gate, passes, levels, c, k).shared, key) == Lookup(c.shared, key)
  {
    forall j, p | 0 <= j < k && 0 <= p < |levels[j]| ensures !Writes(passes, levels[j][p], key) {
      assert !WrittenIn(passes, levels[j], key);
    }
    LevelsKeepKey(gate, passes, levels, c, key, 0, k);
    assert levels[..0] == [];
  }

  // ----- Which write decides a value -----

  /** The run of pass `i` on its clone in level `k`. */
  ghost function RunAt(gate: Gate, passes: seq<Pass>, levels: seq<seq<nat>>, c: Context, k: nat, i: nat): Context
    requires AllInRange(passes, levels) && k <= |levels| && i < |passes|
  {
    Exec(gate, passes[i].body, CloneOf(After(gate, passes, levels, c, k)))
  }

  /** After its level a key holds what its writer in that level left there. */
  lemma WriterDecides(gate: Gate, passes: seq<Pass>, levels: seq<seq<nat>>, c: Context, k: nat, q: nat, key: string)
    requires NonInterfering(gate, passes, levels, c.shared)
    requires k < |levels| && q < |levels[k]| && Writes(passes, levels[k][q], key)
    ensures Lookup(After(gate, passes, levels, c, k + 1).shared, key)
         == Lookup(RunAt(gate, passes, levels, c, k, levels[k][q]).shared, key)
  {
    var now := After(gate, passes, levels, c, k);
    if !WrittenBefore(passes, levels, k, key) {
      UnwrittenBefore(gate, passes, levels, c, k, key);
    }
    assert key in now.shared ==> key in c.shared || WrittenBefore(passes, levels, k, key);
    assert Writes(passes, levels[k][q], key) && key in now.shared ==> q == |levels[k]| - 1;
    AfterStep(gate, passes, levels, c, k);
    LevelWritesKey(gate, passes, levels[k], now, key, q);
  }

  /** `j`, in level `l`, is the last pass before level `k` that writes `key`. */
  ghost predicate IsLastWriter(passes: seq<Pass>, levels: seq<seq<nat>>, k: nat, key: string, l: nat, j: nat)
    requires AllInRange(passes, levels) && k <= |levels|
  {
    && l < k && j < |passes| && j in levels[l] && Writes(passes, j, key)
    && forall m :: l < m < k ==> !WrittenIn(passes, levels[m], key)
  }

  lemma WriterIsLast(passes: seq<Pass>, levels: seq<seq<nat>>, n: nat, q: nat, key: string)
    requires AllInRange(passes, levels) && n < |levels| && q < |levels[n]| && Writes(passes, levels[n][q], key)
    ensures IsLastWriter(passes, levels, n + 1, key, n, levels[n][q])
  {
    assert levels[n][q] in levels[n];
  }

  lemma LastWriterStays(passes: seq<Pass>, levels: seq<seq<nat>>, n: nat, key: string, l: nat, j: nat)
    requires AllInRange(passes, levels) && n < |levels| && !WrittenIn(passes, levels[n], key)
    requires IsLastWriter(passes, levels, n, key, l, j)
    ensures IsLastWriter(passes, levels, n + 1, key, l, j)
  {
  }

  /** A level without a writer of the key hands its value on. */
  lemma QuietLevel(gate: Gate, passes: seq<Pass>, levels: seq<seq<nat>>, c: Context, n: nat, key: string)
    requires AllInRange(passes, levels) && n < |levels| && !WrittenIn(passes, levels[n], key)
    ensures Lookup(After(gate, passes, levels, c, n + 1).shared, key) == Lookup(After(gate, passes, levels, c, n).shared, key)
  {
    AfterStep(gate, passes, levels, c, n);
    LevelKeepsKey(gate, passes, levels[n], After(gate, passes, levels, c, n), key);
  }

  /** The value of a written key is what its last writer left there. */
  lemma {:induction false} LastWriterDecides(gate: Gate, passes: seq<Pass>, levels: seq<seq<nat>>, c: Context, k: nat, key: string)
    returns (l: nat, j: nat)
    requires NonInterfering(gate, passes, levels, c.shared)
    requires k <= |levels| && WrittenBefore(passes, levels, k, key)
    ensures IsLastWriter(passes, levels, k, key, l, j)
    ensures Lookup(After(gate, passes, levels, c, k).shared, key) == Lookup(RunAt(gate, passes, levels, c, l, j).shared, key)
    decreases k
  {
    var n := k - 1;
    if WrittenIn(passes, levels[n], key) {
      var q: nat :| q < |levels[n]| && Writes(passes, levels[n][q], key);
      l, j := n, levels[n][q];
      WriterIsLast(passes, levels, n, q, key);
      WriterDecides(gate, passes, levels, c, n, q, key);
    } else {
      l, j := LastWriterDecides(gate, passes, levels, c, n, key);
      LastWriterStays(passes, levels, n, key, l, j);
      QuietLevel(gate, passes, levels, c, n, key);
    }
  }
}
