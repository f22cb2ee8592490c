/**
 * Keyed de-duplication of row lists, as the pages do it with a `Set` of seen
 * keys or a `Map` from key to row.  A JavaScript `Map` keeps its keys in the
 * order they were first set, and setting a key again replaces the value in
 * place; the models below keep the same order.
 */
module Keyed {
  import opened Base

  // ---------------------------------------------------------------------
  // First occurrence per key (a `Set` of seen keys)
  // ---------------------------------------------------------------------

  /**
   * `xs[j]` is kept: it has no key (`keyed` is false), or no earlier keyed
   * element has the same key.
   */
  predicate IsFirst<T, K(==, !new)>(xs: seq<T>, key: T -> K, keyed: T -> bool, j: nat)
    requires j < |xs|
  {
    !keyed(xs[j]) || forall i :: 0 <= i < j ==> !(keyed(xs[i]) && key(xs[i]) == key(xs[j]))
  }

  /** The elements that are first occurrences, in order. */
  function DedupeFirst<T, K(==, !new)>(xs: seq<T>, key: T -> K, keyed: T -> bool): (r: seq<T>)
    ensures |r| <= |xs|
  {
    if xs == [] then []
    else DedupeFirst(xs[..|xs| - 1], key, keyed) + (if IsFirst(xs, key, keyed, |xs| - 1) then [xs[|xs| - 1]] else [])
  }

  /** The keys of the keyed elements of `xs`. */
  function KeySet<T, K(==, !new)>(xs: seq<T>, key: T -> K, keyed: T -> bool): (s: set<K>)
    ensures forall k :: k in s <==> exists i :: 0 <= i < |xs| && keyed(xs[i]) && key(xs[i]) == k
  {
    if xs == [] then {}
    else
      var init := xs[..|xs| - 1];
      var s := KeySet(init, key, keyed) + (if keyed(xs[|xs| - 1]) then {key(xs[|xs| - 1])} else {});
      assert forall i :: 0 <= i < |init| ==> init[i] == xs[i];
      s
  }

  lemma IsFirstPrefix<T, K(!new)>(xs: seq<T>, key: T -> K, keyed: T -> bool, n: nat, j: nat)
    requires j < n <= |xs|
    ensures IsFirst(xs[..n], key, keyed, j) <==> IsFirst(xs, key, keyed, j)
  {
    assert forall i :: 0 <= i <= j ==> xs[..n][i] == xs[i];
  }

  /**
   * The positions `DedupeFirst` keeps: strictly increasing, exactly the first
   * occurrences, each the source of the kept element at the same place.
   */
  ghost function FirstPositions<T, K(!new)>(xs: seq<T>, key: T -> K, keyed: T -> bool): (idx: seq<nat>)
    ensures |idx| == |DedupeFirst(xs, key, keyed)| && StrictlyIncreasing(idx)
    ensures forall k :: 0 <= k < |idx| ==>
      idx[k] < |xs| && IsFirst(xs, key, keyed, idx[k]) && DedupeFirst(xs, key, keyed)[k] == xs[idx[k]]
    ensures forall j :: 0 <= j < |xs| && IsFirst(xs, key, keyed, j) ==> j in idx
  {
    if xs == [] then []
    else
      var n := |xs| - 1;
      var init := xs[..n];
      var prev := FirstPositions(init, key, keyed);
      forall k | 0 <= k < |prev| ensures xs[prev[k]] == init[prev[k]] && IsFirst(xs, key, keyed, prev[k]) {
        IsFirstPrefix(xs, key, keyed, n, prev[k]);
      }
      forall j | 0 <= j < n && IsFirst(xs, key, keyed, j) ensures j in prev {
        IsFirstPrefix(xs, key, keyed, n, j);
      }
      if IsFirst(xs, key, keyed, n) then prev + [n] else prev
  }

  /** The kept keyed elements have pairwise different keys. */
  lemma DedupeFirstDistinct<T, K(!new)>(xs: seq<T>, key: T -> K, keyed: T -> bool)
    ensures var r := DedupeFirst(xs, key, keyed);
      forall a, b :: 0 <= a < b < |r| && keyed(r[a]) && keyed(r[b]) ==> key(r[a]) != key(r[b])
  {
    var r := DedupeFirst(xs, key, keyed);
    var idx := FirstPositions(xs, key, keyed);
    forall a, b | 0 <= a < b < |r| && keyed(r[a]) && keyed(r[b]) ensures key(r[a]) != key(r[b]) {
      assert idx[a] < idx[b];
      assert IsFirst(xs, key, keyed, idx[b]);
    }
  }

  /** Every key of the input survives, and no other. */
  lemma DedupeFirstKeys<T, K(!new)>(xs: seq<T>, key: T -> K, keyed: T -> bool)
    ensures KeySet(DedupeFirst(xs, key, keyed), key, keyed) == KeySet(xs, key, keyed)
  {
    var r := DedupeFirst(xs, key, keyed);
    var idx := FirstPositions(xs, key, keyed);
    forall k | k in KeySet(xs, key, keyed) ensures k in KeySet(r, key, keyed) {
      var j :| 0 <= j < |xs| && keyed(xs[j]) && key(xs[j]) == k;
      var m := FirstIndex(xs, key, keyed, j);
      assert m in idx;
      var a :| 0 <= a < |idx| && idx[a] == m;
      assert r[a] == xs[m];
    }
    forall k | k in KeySet(r, key, keyed) ensures k in KeySet(xs, key, keyed) {
      var a :| 0 <= a < |r| && keyed(r[a]) && key(r[a]) == k;
      assert r[a] == xs[idx[a]];
    }
  }

  /** The first keyed element with the key of `xs[j]` is a first occurrence. */
  lemma FirstIndex<T, K(!new)>(xs: seq<T>, key: T -> K, keyed: T -> bool, j: nat) returns (m: nat)
    requires j < |xs| && keyed(xs[j])
    ensures m <= j && keyed(xs[m]) && key(xs[m]) == key(xs[j]) && IsFirst(xs, key, keyed, m)
    decreases j
  {
    if IsFirst(xs, key, keyed, j) {
      m := j;
    } else {
      var i :| 0 <= i < j && keyed(xs[i]) && key(xs[i]) == key(xs[j]);
      m := FirstIndex(xs, key, keyed, i);
    }
  }

  /** Every element without a key is kept. */
  lemma DedupeFirstKeepsUnkeyed<T, K(!new)>(xs: seq<T>, key: T -> K, keyed: T -> bool, j: nat)
    requires j < |xs| && !keyed(xs[j])
    ensures exists a :: 0 <= a < |DedupeFirst(xs, key, keyed)| && FirstPositions(xs, key, keyed)[a] == j
  {
    var idx := FirstPositions(xs, key, keyed);
    assert j in idx;
  }

  /** De-duplicating twice is de-duplicating once. */
  lemma {:induction false} DedupeFirstIdempotent<T, K(!new)>(xs: seq<T>, key: T -> K, keyed: T -> bool)
    ensures DedupeFirst(DedupeFirst(xs, key, keyed), key, keyed) == DedupeFirst(xs, key, keyed)
  {
    DedupeFirstDistinct(xs, key, keyed);
    DistinctIsFixed(DedupeFirst(xs, key, keyed), key, keyed);
  }

  /** A list whose keyed elements have distinct keys is left as it is. */
  lemma {:induction false} DistinctIsFixed<T, K(!new)>(ys: seq<T>, key: T -> K, keyed: T -> bool)
    requires forall a, b :: 0 <= a < b < |ys| && keyed(ys[a]) && keyed(ys[b]) ==> key(ys[a]) != key(ys[b])
    ensures DedupeFirst(ys, key, keyed) == ys
  {
    if ys != [] {
      var init := ys[..|ys| - 1];
      DistinctIsFixed(init, key, keyed);
      assert IsFirst(ys, key, keyed, |ys| - 1);
      assert init + [ys[|ys| - 1]] == ys;
    }
  }

  /** The loop with a `Set` of seen keys. */
  method DedupeFirstLoop<T, K(==, !new)>(xs: seq<T>, key: T -> K, keyed: T -> bool) returns (out: seq<T>)
    ensures out == DedupeFirst(xs, key, keyed)
  {
    out := [];
    var seen: set<K> := {};
    var i := 0;
    while i < |xs|
      invariant 0 <= i <= |xs|
      invariant out == DedupeFirst(xs[..i], key, keyed)
      invariant seen == KeySet(xs[..i], key, keyed)
    {
      var x := xs[i];
      var prefix := xs[..i + 1];
      assert prefix[..i] == xs[..i];
      assert IsFirst(prefix, key, keyed, i) <==> !(keyed(x) && key(x) in seen) by {
        assert forall a :: 0 <= a < i ==> prefix[a] == xs[..i][a];
      }
      if !keyed(x) {
        out := out + [x];
      } else if key(x) !in seen {
        seen := seen + {key(x)};
        out := out + [x];
      }
      i := i + 1;
    }
    assert xs[..|xs|] == xs;
  }

  // ---------------------------------------------------------------------
  // Latest element per key (a `Map` whose value is replaced)
  // ---------------------------------------------------------------------

  /** The place in `pos` whose element has key `k`, if any. */
  function Find<T, K(==, !new)>(xs: seq<T>, pos: seq<nat>, key: T -> K, k: K): (r: Option<nat>)
    requires forall i :: 0 <= i < |pos| ==> pos[i] < |xs|
    ensures r.Some? ==> r.value < |pos| && key(xs[pos[r.value]]) == k
    ensures r.None? ==> forall i :: 0 <= i < |pos| ==> key(xs[pos[i]]) != k
  {
    if pos == [] then None
    else if key(xs[pos[|pos| - 1]]) == k then Some(|pos| - 1)
    else Find(xs, pos[..|pos| - 1], key, k)
  }

  /**
   * The positions kept among the first `n` elements, by replacing, per key,
   * the element held when a later one's time `ts` is at least as large: one
   * place per key, in the order the keys first appear.
   */
  function LatestUpTo<T, K(==, !new)>(xs: seq<T>, key: T -> K, ts: T -> int, n: nat): (pos: seq<nat>)
    requires n <= |xs|
    ensures forall i :: 0 <= i < |pos| ==> pos[i] < n
  {
    if n == 0 then []
    else
      var prev := LatestUpTo(xs, key, ts, n - 1);
      match Find(xs, prev, key, key(xs[n - 1]))
      case None => prev + [n - 1]
      case Some(i) => if ts(xs[n - 1]) >= ts(xs[prev[i]]) then prev[i := n - 1] else prev
  }

  function LatestPositions<T, K(==, !new)>(xs: seq<T>, key: T -> K, ts: T -> int): (pos: seq<nat>)
    ensures forall i :: 0 <= i < |pos| ==> pos[i] < |xs|
  {
    LatestUpTo(xs, key, ts, |xs|)
  }

  /** The elements at `pos`. */
  function At<T>(xs: seq<T>, pos: seq<nat>): (r: seq<T>)
    requires forall i :: 0 <= i < |pos| ==> pos[i] < |xs|
    ensures |r| == |pos| && forall i :: 0 <= i < |pos| ==> r[i] == xs[pos[i]]
  {
    seq(|pos|, i requires 0 <= i < |pos| => xs[pos[i]])
  }

  /** One element per key, the one with the latest time; a later one wins a tie. */
  function DedupeLatest<T, K(==, !new)>(xs: seq<T>, key: T -> K, ts: T -> int): seq<T>
  {
    At(xs, LatestPositions(xs, key, ts))
  }

  ghost predicate InRange(pos: seq<nat>, n: nat)
  {
    forall i :: 0 <= i < |pos| ==> pos[i] < n
  }

  /** No two places hold the same key. */
  ghost predicate KeysDistinct<T, K(!new)>(xs: seq<T>, key: T -> K, pos: seq<nat>)
    requires InRange(pos, |xs|)
  {
    forall a, b :: 0 <= a < b < |pos| ==> key(xs[pos[a]]) != key(xs[pos[b]])
  }

  /** Every key among the first `n` elements has a place. */
  ghost predicate Covers<T, K(!new)>(xs: seq<T>, key: T -> K, pos: seq<nat>, n: nat)
    requires n <= |xs| && InRange(pos, |xs|)
  {
    forall j :: 0 <= j < n ==> Find(xs, pos, key, key(xs[j])).Some?
  }

  /**
   * The element held for a key has the largest time of that key among the
   * first `n`, and every later element of that key is strictly older.
   */
  ghost predicate HeldLatest<T, K(!new)>(xs: seq<T>, key: T -> K, ts: T -> int, pos: seq<nat>, n: nat)
    requires n <= |xs| && InRange(pos, |xs|)
  {
    forall i, j :: 0 <= i < |pos| && 0 <= j < n && key(xs[j]) == key(xs[pos[i]]) ==>
      ts(xs[j]) <= ts(xs[pos[i]]) && (j > pos[i] ==> ts(xs[j]) < ts(xs[pos[i]]))
  }

  ghost predicate LatestSpec<T, K(!new)>(xs: seq<T>, key: T -> K, ts: T -> int, pos: seq<nat>, n: nat)
    requires n <= |xs|
  {
    InRange(pos, n) && KeysDistinct(xs, key, pos) && Covers(xs, key, pos, n) && HeldLatest(xs, key, ts, pos, n)
  }

  /** What the positions kept among the first `n` elements satisfy. */
  lemma {:induction false} LatestUpToSpec<T, K(!new)>(xs: seq<T>, key: T -> K, ts: T -> int, n: nat)
    requires n <= |xs|
    ensures LatestSpec(xs, key, ts, LatestUpTo(xs, key, ts, n), n)
  {
    if n > 0 {
      var m := n - 1;
      var prev := LatestUpTo(xs, key, ts, m);
      LatestUpToSpec(xs, key, ts, m);
      var pos := LatestUpTo(xs, key, ts, n);
      var f := Find(xs, prev, key, key(xs[m]));
      if f.None? {
        assert pos == prev + [m];
        LatestAppend(xs, key, ts, prev, m);
      } else if ts(xs[m]) >= ts(xs[prev[f.value]]) {
        assert pos == prev[f.value := m];
        LatestReplace(xs, key, ts, prev, m, f.value);
      } else {
        assert pos == prev;
        LatestKeep(xs, key, ts, prev, m, f.value);
      }
    }
  }

  /** When no held key equals the new element's key, no earlier element has it. */
  lemma NoKeyBefore<T, K(!new)>(xs: seq<T>, key: T -> K, prev: seq<nat>, m: nat)
    requires m < |xs| && InRange(prev, m) && Covers(xs, key, prev, m)
    requires forall i :: 0 <= i < |prev| ==> key(xs[prev[i]]) != key(xs[m])
    ensures forall j :: 0 <= j < m ==> key(xs[j]) != key(xs[m])
  {
    forall j | 0 <= j < m ensures key(xs[j]) != key(xs[m]) {
      var i := Find(xs, prev, key, key(xs[j])).value;
      assert key(xs[prev[i]]) == key(xs[j]);
    }
  }

  /** The step in which element `m` brings a new key. */
  lemma LatestAppend<T, K(!new)>(xs: seq<T>, key: T -> K, ts: T -> int, prev: seq<nat>, m: nat)
    requires m < |xs| && LatestSpec(xs, key, ts, prev, m)
    requires forall i :: 0 <= i < |prev| ==> key(xs[prev[i]]) != key(xs[m])
    ensures LatestSpec(xs, key, ts, prev + [m], m + 1)
  {
    var pos := prev + [m];
    NoKeyBefore(xs, key, prev, m);
    forall j | 0 <= j < m + 1 ensures Find(xs, pos, key, key(xs[j])).Some? {
      if j < m {
        var i := Find(xs, prev, key, key(xs[j])).value;
        assert pos[i] == prev[i];
        assert key(xs[pos[i]]) == key(xs[j]);
      } else {
        assert pos[|prev|] == m;
      }
    }
    forall a, b | 0 <= a < b < |pos| ensures key(xs[pos[a]]) != key(xs[pos[b]]) {
      if b < |prev| {
        assert pos[a] == prev[a] && pos[b] == prev[b];
      } else {
        assert pos[a] == prev[a] && pos[b] == m;
      }
    }
    forall i, j | 0 <= i < |pos| && 0 <= j < m + 1 && key(xs[j]) == key(xs[pos[i]])
      ensures ts(xs[j]) <= ts(xs[pos[i]]) && (j > pos[i] ==> ts(xs[j]) < ts(xs[pos[i]]))
    {
      if i < |prev| {
        assert pos[i] == prev[i];
        assert j != m;
      } else {
        assert pos[i] == m;
        assert j == m;
      }
    }
  }

  /** The step in which element `m` replaces the one held for its key. */
  lemma LatestReplace<T, K(!new)>(xs: seq<T>, key: T -> K, ts: T -> int, prev: seq<nat>, m: nat, p: nat)
    requires m < |xs| && p < |prev| && LatestSpec(xs, key, ts, prev, m)
    requires key(xs[prev[p]]) == key(xs[m]) && ts(xs[m]) >= ts(xs[prev[p]])
    ensures LatestSpec(xs, key, ts, prev[p := m], m + 1)
  {
    LatestReplaceCovers(xs, key, prev, m, p);
    LatestReplaceDistinct(xs, key, prev, m, p);
    LatestReplaceHeld(xs, key, ts, prev, m, p);
  }

  lemma LatestReplaceCovers<T, K(!new)>(xs: seq<T>, key: T -> K, prev: seq<nat>, m: nat, p: nat)
    requires m < |xs| && p < |prev| && InRange(prev, m) && Covers(xs, key, prev, m)
    requires key(xs[prev[p]]) == key(xs[m])
    ensures InRange(prev[p := m], |xs|) && Covers(xs, key, prev[p := m], m + 1)
  {
    var pos := prev[p := m];
    forall j | 0 <= j < m + 1 ensures Find(xs, pos, key, key(xs[j])).Some? {
      if j < m {
        var i := Find(xs, prev, key, key(xs[j])).value;
        if i == p {
          assert pos[i] == m;
        } else {
          assert pos[i] == prev[i];
        }
        assert key(xs[pos[i]]) == key(xs[j]);
      } else {
        assert pos[p] == j;
      }
    }
  }

  lemma LatestReplaceDistinct<T, K(!new)>(xs: seq<T>, key: T -> K, prev: seq<nat>, m: nat, p: nat)
    requires m < |xs| && p < |prev| && InRange(prev, m) && KeysDistinct(xs, key, prev)
    requires key(xs[prev[p]]) == key(xs[m])
    ensures InRange(prev[p := m], |xs|) && KeysDistinct(xs, key, prev[p := m])
  {
    var pos := prev[p := m];
    forall a, b | 0 <= a < b < |pos| ensures key(xs[pos[a]]) != key(xs[pos[b]]) {
      assert key(xs[pos[a]]) == key(xs[prev[a]]) && key(xs[pos[b]]) == key(xs[prev[b]]);
    }
  }

  lemma LatestReplaceHeld<T, K(!new)>(xs: seq<T>, key: T -> K, ts: T -> int, prev: seq<nat>, m: nat, p: nat)
    requires m < |xs| && p < |prev| && LatestSpec(xs, key, ts, prev, m)
    requires key(xs[prev[p]]) == key(xs[m]) && ts(xs[m]) >= ts(xs[prev[p]])
    ensures InRange(prev[p := m], |xs|) && HeldLatest(xs, key, ts, prev[p := m], m + 1)
  {
    var pos := prev[p := m];
    forall i, j | 0 <= i < |pos| && 0 <= j < m + 1 && key(xs[j]) == key(xs[pos[i]])
      ensures ts(xs[j]) <= ts(xs[pos[i]]) && (j > pos[i] ==> ts(xs[j]) < ts(xs[pos[i]]))
    {
      if i == p {
        if j < m {
          assert key(xs[j]) == key(xs[prev[p]]);
        }
      } else {
        assert pos[i] == prev[i];
        assert key(xs[prev[i]]) != key(xs[prev[p]]) by {
          if i < p { assert key(xs[prev[i]]) != key(xs[prev[p]]); }
          else { assert key(xs[prev[p]]) != key(xs[prev[i]]); }
        }
        assert j != m;
      }
    }
  }

  /** The step in which element `m` is older than the one held for its key. */
  lemma LatestKeep<T, K(!new)>(xs: seq<T>, key: T -> K, ts: T -> int, prev: seq<nat>, m: nat, p: nat)
    requires m < |xs| && p < |prev| && LatestSpec(xs, key, ts, prev, m)
    requires key(xs[prev[p]]) == key(xs[m]) && ts(xs[m]) < ts(xs[prev[p]])
    ensures LatestSpec(xs, key, ts, prev, m + 1)
  {
    forall j | 0 <= j < m + 1 ensures Find(xs, prev, key, key(xs[j])).Some? {
      if j == m {
        assert key(xs[prev[p]]) == key(xs[j]);
      }
    }
    forall i, j | 0 <= i < |prev| && 0 <= j < m + 1 && key(xs[j]) == key(xs[prev[i]])
      ensures ts(xs[j]) <= ts(xs[prev[i]]) && (j > prev[i] ==> ts(xs[j]) < ts(xs[prev[i]]))
    {
      if i != p {
        assert key(xs[prev[i]]) != key(xs[prev[p]]) by {
          if i < p { assert key(xs[prev[i]]) != key(xs[prev[p]]); }
          else { assert key(xs[prev[p]]) != key(xs[prev[i]]); }
        }
        assert j != m;
      }
    }
  }

  /**
   * One element per key; it is an element of the list, it has the latest
   * time of its key, and every key of the list is kept.
   */
  lemma DedupeLatestSpec<T, K(!new)>(xs: seq<T>, key: T -> K, ts: T -> int)
    ensures var r := DedupeLatest(xs, key, ts);
      && (forall i :: 0 <= i < |r| ==> r[i] in xs)
      && (forall a, b :: 0 <= a < b < |r| ==> key(r[a]) != key(r[b]))
      && (forall j :: 0 <= j < |xs| ==> exists i :: 0 <= i < |r| && key(r[i]) == key(xs[j]))
      && (forall i, j :: 0 <= i < |r| && 0 <= j < |xs| && key(xs[j]) == key(r[i]) ==> ts(xs[j]) <= ts(r[i]))
  {
    var pos := LatestPositions(xs, key, ts);
    var r := DedupeLatest(xs, key, ts);
    LatestUpToSpec(xs, key, ts, |xs|);
    forall j | 0 <= j < |xs| ensures exists i :: 0 <= i < |r| && key(r[i]) == key(xs[j]) {
      var i := Find(xs, pos, key, key(xs[j])).value;
      assert key(r[i]) == key(xs[j]);
    }
  }

  /** A list whose keys are already distinct is kept whole. */
  lemma LatestUpToDistinct<T, K(!new)>(xs: seq<T>, key: T -> K, ts: T -> int, n: nat)
    requires n <= |xs|
    requires forall a, b :: 0 <= a < b < |xs| ==> key(xs[a]) != key(xs[b])
    ensures var pos := LatestUpTo(xs, key, ts, n); |pos| == n && forall i :: 0 <= i < n ==> pos[i] == i
  {
    var pos: seq<nat> := [];
    var m := 0;
    while m < n
      invariant m <= n && pos == LatestUpTo(xs, key, ts, m)
      invariant |pos| == m && forall t :: 0 <= t < m ==> pos[t] == t
    {
      forall t | 0 <= t < |pos| ensures key(xs[pos[t]]) != key(xs[m]) {
        assert pos[t] == t;
      }
      assert Find(xs, pos, key, key(xs[m])).None?;
      assert LatestUpTo(xs, key, ts, m + 1) == pos + [m];
      pos := pos + [m];
      m := m + 1;
    }
  }

  lemma DedupeLatestDistinct<T, K(!new)>(xs: seq<T>, key: T -> K, ts: T -> int)
    requires forall a, b :: 0 <= a < b < |xs| ==> key(xs[a]) != key(xs[b])
    ensures DedupeLatest(xs, key, ts) == xs
  {
    LatestUpToDistinct(xs, key, ts, |xs|);
  }

  /** De-duplicating twice keeps what de-duplicating once kept. */
  lemma DedupeLatestIdempotent<T, K(!new)>(xs: seq<T>, key: T -> K, ts: T -> int)
    ensures DedupeLatest(DedupeLatest(xs, key, ts), key, ts) == DedupeLatest(xs, key, ts)
  {
    DedupeLatestSpec(xs, key, ts);
    DedupeLatestDistinct(DedupeLatest(xs, key, ts), key, ts);
  }

  lemma LatestUpToKeysDistinct<T, K(!new)>(xs: seq<T>, key: T -> K, ts: T -> int, n: nat)
    requires n <= |xs|
    ensures forall a, b :: 0 <= a < b < |LatestUpTo(xs, key, ts, n)| ==>
      key(xs[LatestUpTo(xs, key, ts, n)[a]]) != key(xs[LatestUpTo(xs, key, ts, n)[b]])
  {
    LatestUpToSpec(xs, key, ts, n);
  }

  /** `order` and `held` mirror the positions `pos`: the keys in order, and the element held for each. */
  ghost predicate Mirrors<T, K(!new)>(xs: seq<T>, key: T -> K, order: seq<K>, held: map<K, T>, pos: seq<nat>)
  {
    && InRange(pos, |xs|)
    && |order| == |pos|
    && (forall t :: 0 <= t < |order| ==> order[t] == key(xs[pos[t]]))
    && (forall t :: 0 <= t < |order| ==> order[t] in held && held[order[t]] == xs[pos[t]])
    && (forall k :: k in held ==> k in order)
  }

  lemma MirrorsAppend<T, K(!new)>(xs: seq<T>, key: T -> K, order: seq<K>, held: map<K, T>, pos: seq<nat>, n: nat)
    requires n < |xs| && Mirrors(xs, key, order, held, pos) && key(xs[n]) !in held
    ensures Mirrors(xs, key, order + [key(xs[n])], held[key(xs[n]) := xs[n]], pos + [n])
  {
    var k := key(xs[n]);
    assert forall t :: 0 <= t < |order| ==> order[t] != k;
  }

  lemma MirrorsReplace<T, K(!new)>(xs: seq<T>, key: T -> K, order: seq<K>, held: map<K, T>, pos: seq<nat>, n: nat, p: nat)
    requires n < |xs| && p < |pos| && Mirrors(xs, key, order, held, pos) && KeysDistinct(xs, key, pos)
    requires order[p] == key(xs[n])
    ensures Mirrors(xs, key, order, held[key(xs[n]) := xs[n]], pos[p := n])
  {
    var k := key(xs[n]);
    forall t | 0 <= t < |order| && t != p ensures order[t] != k {
      if t < p { assert key(xs[pos[t]]) != key(xs[pos[p]]); }
      else { assert key(xs[pos[p]]) != key(xs[pos[t]]); }
    }
  }

  /**
   * The page's loop: a map from key to the element held, whose keys keep the
   * order in which they were first set (`order`).
   */
  method DedupeLatestLoop<T, K(==, !new)>(xs: seq<T>, key: T -> K, ts: T -> int) returns (out: seq<T>)
    ensures out == DedupeLatest(xs, key, ts)
  {
    var order: seq<K> := [];
    var held: map<K, T> := map[];
    ghost var pos: seq<nat> := [];
    var n := 0;
    while n < |xs|
      invariant n <= |xs| && pos == LatestUpTo(xs, key, ts, n)
      invariant Mirrors(xs, key, order, held, pos)
    {
      var x := xs[n];
      var k := key(x);
      if k !in held {
        StepOpens(xs, key, ts, order, held, pos, n);
        order := order + [k];
        held := held[k := x];
        pos := pos + [n];
      } else {
        ghost var p := StepHeld(xs, key, ts, order, held, pos, n);
        if ts(x) >= ts(held[k]) {
          held := held[k := x];
          pos := pos[p := n];
        }
      }
      n := n + 1;
    }
    MirrorsAt(xs, key, order, held, pos);
    out := seq(|order|, t requires 0 <= t < |order| && order[t] in held => held[order[t]]);
  }

  /** A key not held yet opens a new place at the end. */
  lemma StepOpens<T, K(!new)>(xs: seq<T>, key: T -> K, ts: T -> int, order: seq<K>, held: map<K, T>, pos: seq<nat>, n: nat)
    requires n < |xs| && pos == LatestUpTo(xs, key, ts, n) && Mirrors(xs, key, order, held, pos)
    requires key(xs[n]) !in held
    ensures LatestUpTo(xs, key, ts, n + 1) == pos + [n]
    ensures Mirrors(xs, key, order + [key(xs[n])], held[key(xs[n]) := xs[n]], pos + [n])
  {
    var k := key(xs[n]);
    assert forall t :: 0 <= t < |order| ==> order[t] != k;
    assert Find(xs, pos, key, k).None?;
    MirrorsAppend(xs, key, order, held, pos, n);
  }

  /** A key already held sits at place `p`; a time at least as late takes the place over, an earlier one changes nothing. */
  lemma StepHeld<T, K(!new)>(xs: seq<T>, key: T -> K, ts: T -> int, order: seq<K>, held: map<K, T>, pos: seq<nat>, n: nat)
    returns (p: nat)
    requires n < |xs| && pos == LatestUpTo(xs, key, ts, n) && Mirrors(xs, key, order, held, pos)
    requires key(xs[n]) in held
    ensures p < |pos| && held[key(xs[n])] == xs[pos[p]]
    ensures ts(xs[n]) >= ts(held[key(xs[n])]) ==>
      LatestUpTo(xs, key, ts, n + 1) == pos[p := n] && Mirrors(xs, key, order, held[key(xs[n]) := xs[n]], pos[p := n])
    ensures ts(xs[n]) < ts(held[key(xs[n])]) ==> LatestUpTo(xs, key, ts, n + 1) == pos
  {
    LatestUpToKeysDistinct(xs, key, ts, n);
    var k := key(xs[n]);
    var f := Find(xs, pos, key, k);
    assert k in order;
    assert f.Some?;
    p := f.value;
    assert order[p] == k;
    if ts(xs[n]) >= ts(held[k]) {
      MirrorsReplace(xs, key, order, held, pos, n, p);
    }
  }

  /** The held elements, read in key order, are the elements at the places. */
  lemma MirrorsAt<T, K(!new)>(xs: seq<T>, key: T -> K, order: seq<K>, held: map<K, T>, pos: seq<nat>)
    requires Mirrors(xs, key, order, held, pos)
    ensures seq(|order|, t requires 0 <= t < |order| && order[t] in held => held[order[t]]) == At(xs, pos)
  {
  }

  /**
   * The element kept for a key is strictly newer than every later element
   * with that key; with one time for all, it is the last of its key.
   */
  lemma DedupeLatestNewest<T, K(!new)>(xs: seq<T>, key: T -> K, ts: T -> int)
    ensures var pos := LatestPositions(xs, key, ts);
      && |pos| == |DedupeLatest(xs, key, ts)|
      && (forall i :: 0 <= i < |pos| ==> pos[i] < |xs| && DedupeLatest(xs, key, ts)[i] == xs[pos[i]])
      && (forall i, j :: 0 <= i < |pos| && pos[i] < j < |xs| && key(xs[j]) == key(xs[pos[i]]) ==>
            ts(xs[j]) < ts(xs[pos[i]]))
  {
    LatestUpToSpec(xs, key, ts, |xs|);
  }

  /** Every element kept comes from the list. */
  lemma DedupeLatestFrom<T, K(!new)>(xs: seq<T>, key: T -> K, ts: T -> int)
    ensures forall i :: 0 <= i < |DedupeLatest(xs, key, ts)| ==> DedupeLatest(xs, key, ts)[i] in xs
  {
  }

  /** The kept elements have pairwise different keys. */
  lemma DedupeLatestKeysDistinct<T, K(!new)>(xs: seq<T>, key: T -> K, ts: T -> int)
    ensures var r := DedupeLatest(xs, key, ts);
      forall a, b :: 0 <= a < b < |r| ==> key(r[a]) != key(r[b])
  {
    LatestUpToKeysDistinct(xs, key, ts, |xs|);
  }

  /** The key of `xs[j]` is kept, at place `i`. */
  lemma DedupeLatestCoversAt<T, K(!new)>(xs: seq<T>, key: T -> K, ts: T -> int, j: nat) returns (i: nat)
    requires j < |xs|
    ensures i < |DedupeLatest(xs, key, ts)| && key(DedupeLatest(xs, key, ts)[i]) == key(xs[j])
  {
    var pos := LatestPositions(xs, key, ts);
    LatestUpToSpec(xs, key, ts, |xs|);
    i := Find(xs, pos, key, key(xs[j])).value;
  }

  /** A property every element of the list has, every kept element has. */
  lemma DedupeLatestKeeps<T, K(!new)>(xs: seq<T>, key: T -> K, ts: T -> int, P: T -> bool)
    requires forall j :: 0 <= j < |xs| ==> P(xs[j])
    ensures forall i :: 0 <= i < |DedupeLatest(xs, key, ts)| ==> P(DedupeLatest(xs, key, ts)[i])
  {
  }

  /** Each element adds at most one place. */
  lemma {:induction false} LatestUpToLength<T, K(!new)>(xs: seq<T>, key: T -> K, ts: T -> int, n: nat)
    requires n <= |xs|
    ensures |LatestUpTo(xs, key, ts, n)| <= n
  {
    if n > 0 {
      LatestUpToLength(xs, key, ts, n - 1);
    }
  }

  lemma DedupeLatestShorter<T, K(!new)>(xs: seq<T>, key: T -> K, ts: T -> int)
    ensures |DedupeLatest(xs, key, ts)| <= |xs|
  {
    LatestUpToLength(xs, key, ts, |xs|);
  }
}
