/**
 * Grouping rows by a key, as the pages do with a `Map`: one accumulator
 * per key, created when the key is first seen and updated by every row
 * carrying it, read back in the order keys were first seen.  A plain
 * object used the same way (the campaign cards) is read back in this order
 * only while no key is an array index ("0", "17"): JavaScript lists such
 * keys first, in numeric order.
 */
module Grouping {
  import opened Base

  /** The keys of the first `n` rows, each once, in the order they first appear. */
  function GroupKeys<T, K(==, !new)>(items: seq<T>, key: T -> K, n: nat): (ks: seq<K>)
    requires n <= |items|
    ensures Distinct(ks)
    ensures forall j :: 0 <= j < n ==> key(items[j]) in ks
    ensures |ks| <= n
  {
    if n == 0 then []
    else
      var prev := GroupKeys(items, key, n - 1);
      if key(items[n - 1]) in prev then prev else prev + [key(items[n - 1])]
  }

  /** Every listed key belongs to some row. */
  lemma {:induction false} GroupKeyWitness<T, K(!new)>(items: seq<T>, key: T -> K, n: nat, t: nat) returns (j: nat)
    requires n <= |items| && t < |GroupKeys(items, key, n)|
    ensures j < n && key(items[j]) == GroupKeys(items, key, n)[t]
  {
    var prev := GroupKeys(items, key, n - 1);
    if t < |prev| {
      j := GroupKeyWitness(items, key, n - 1, t);
    } else {
      j := n - 1;
    }
  }

  /**
   * Keys are listed in the order first seen: the first row carrying key `t`
   * comes after rows carrying earlier keys only.
   */
  lemma {:induction false} GroupKeyFirst<T, K(!new)>(items: seq<T>, key: T -> K, n: nat, t: nat) returns (j: nat)
    requires n <= |items| && t < |GroupKeys(items, key, n)|
    ensures j < n && key(items[j]) == GroupKeys(items, key, n)[t]
    ensures forall j' :: 0 <= j' < j ==> key(items[j']) in GroupKeys(items, key, n)[..t]
  {
    var prev := GroupKeys(items, key, n - 1);
    if t < |prev| {
      j := GroupKeyFirst(items, key, n - 1, t);
      assert GroupKeys(items, key, n)[..t] == prev[..t];
    } else {
      j := n - 1;
      assert GroupKeys(items, key, n)[..t] == prev;
    }
  }

  /** A key no row carries is not listed. */
  lemma GroupKeysOnlyRows<T, K(!new)>(items: seq<T>, key: T -> K, n: nat, k: K)
    requires n <= |items|
    requires k in GroupKeys(items, key, n)
    ensures exists j :: 0 <= j < n && key(items[j]) == k
  {
    var t :| 0 <= t < |GroupKeys(items, key, n)| && GroupKeys(items, key, n)[t] == k;
    var j := GroupKeyWitness(items, key, n, t);
  }

  /** The keys of the first `n` rows depend on those rows only. */
  lemma {:induction false} GroupKeysPrefix<T, K(!new)>(items: seq<T>, other: seq<T>, key: T -> K, n: nat)
    requires n <= |items| && n <= |other| && items[..n] == other[..n]
    ensures GroupKeys(items, key, n) == GroupKeys(other, key, n)
  {
    if n > 0 {
      assert items[n - 1] == items[..n][n - 1] == other[n - 1];
      assert items[..n - 1] == other[..n - 1] by {
        assert items[..n - 1] == items[..n][..n - 1];
        assert other[..n - 1] == other[..n][..n - 1];
      }
      GroupKeysPrefix(items, other, key, n - 1);
    }
  }

  /** One more row lists its key at the end when the key is new, and changes nothing otherwise. */
  lemma GroupKeysSnoc<T, K(!new)>(items: seq<T>, x: T, key: T -> K)
    ensures GroupKeys(items + [x], key, |items| + 1)
      == var ks := GroupKeys(items, key, |items|); if key(x) in ks then ks else ks + [key(x)]
  {
    assert (items + [x])[..|items|] == items[..|items|];
    GroupKeysPrefix(items + [x], items, key, |items|);
  }

  /** The accumulator of key `k` after the first `n` rows. */
  function Fold<T, K(==), A>(items: seq<T>, key: T -> K, init: K -> A, add: (A, T) -> A, n: nat, k: K): A
    requires n <= |items|
  {
    if n == 0 then init(k)
    else
      var prev := Fold(items, key, init, add, n - 1, k);
      if key(items[n - 1]) == k then add(prev, items[n - 1]) else prev
  }

  /** No row carries `k`: its accumulator is the initial one. */
  lemma {:induction false} FoldAbsent<T, K(!new), A>(items: seq<T>, key: T -> K, init: K -> A, add: (A, T) -> A, n: nat, k: K)
    requires n <= |items|
    requires forall j :: 0 <= j < n ==> key(items[j]) != k
    ensures Fold(items, key, init, add, n, k) == init(k)
  {
    if n > 0 {
      FoldAbsent(items, key, init, add, n - 1, k);
    }
  }

  /** The accumulators for the keys `ks` after the first `n` rows. */
  function GroupsFor<T, K(==), A>(items: seq<T>, key: T -> K, init: K -> A, add: (A, T) -> A, n: nat, ks: seq<K>): (gs: seq<A>)
    requires n <= |items|
    ensures |gs| == |ks| && forall t :: 0 <= t < |ks| ==> gs[t] == Fold(items, key, init, add, n, ks[t])
  {
    if ks == [] then []
    else GroupsFor(items, key, init, add, n, ks[..|ks| - 1]) + [Fold(items, key, init, add, n, ks[|ks| - 1])]
  }

  /** One accumulator per key, in first-appearance order. */
  function Groups<T, K(==, !new), A>(items: seq<T>, key: T -> K, init: K -> A, add: (A, T) -> A): (gs: seq<A>)
    ensures |gs| == |GroupKeys(items, key, |items|)|
  {
    GroupsFor(items, key, init, add, |items|, GroupKeys(items, key, |items|))
  }

  /** The loop state after `i` rows: the keys seen, in order, each mapped to its accumulator. */
  ghost predicate GroupState<T, K(!new), A>(items: seq<T>, key: T -> K, init: K -> A, add: (A, T) -> A,
                                          i: nat, acc: map<K, A>, order: seq<K>)
  {
    && i <= |items|
    && order == GroupKeys(items, key, i)
    && (forall k :: k in acc <==> k in order)
    && (forall k :: k in acc ==> acc[k] == Fold(items, key, init, add, i, k))
  }

  /** The grouping loop: a map from key to accumulator plus the order keys were first seen in. */
  method GroupBy<T, K(==, !new), A>(items: seq<T>, key: T -> K, init: K -> A, add: (A, T) -> A) returns (out: seq<A>)
    ensures out == Groups(items, key, init, add)
  {
    var acc: map<K, A> := map[];
    var order: seq<K> := [];
    var i := 0;
    while i < |items|
      invariant GroupState(items, key, init, add, i, acc, order)
    {
      var k := key(items[i]);
      ghost var acc0, order0 := acc, order;
      if k !in acc {
        acc := acc[k := init(k)];
        order := order + [k];
      }
      acc := acc[k := add(acc[k], items[i])];
      GroupStep(items, key, init, add, i, acc0, order0, acc, order);
      i := i + 1;
    }
    out := ReadInOrder(acc, order);
    GroupsReadBack(items, key, init, add, acc, order, out);
  }

  /** The values of `acc` for the keys `order`, in that order. */
  function ReadInOrder<K, A>(acc: map<K, A>, order: seq<K>): (out: seq<A>)
    requires forall t :: 0 <= t < |order| ==> order[t] in acc
    ensures |out| == |order| && forall t :: 0 <= t < |order| ==> out[t] == acc[order[t]]
  {
    seq(|order|, t requires 0 <= t < |order| => acc[order[t]])
  }

  /** One row added to the loop state keeps it the state of one more row. */
  lemma GroupStep<T, K(!new), A>(items: seq<T>, key: T -> K, init: K -> A, add: (A, T) -> A,
                                     i: nat, acc: map<K, A>, order: seq<K>, acc2: map<K, A>, order2: seq<K>)
    requires GroupState(items, key, init, add, i, acc, order) && i < |items|
    requires var k := key(items[i]);
      (k in acc ==> order2 == order && acc2 == acc[k := add(acc[k], items[i])]) &&
      (k !in acc ==> order2 == order + [k] && acc2 == acc[k := add(init(k), items[i])])
    ensures GroupState(items, key, init, add, i + 1, acc2, order2)
  {
    var k := key(items[i]);
    if k !in acc {
      FoldAbsent(items, key, init, add, i, k);
    }
  }

  /** At the end, reading the map in key order gives the groups. */
  lemma GroupsReadBack<T, K(!new), A>(items: seq<T>, key: T -> K, init: K -> A, add: (A, T) -> A,
                                          acc: map<K, A>, order: seq<K>, out: seq<A>)
    requires GroupState(items, key, init, add, |items|, acc, order)
    requires forall t :: 0 <= t < |order| ==> order[t] in acc
    requires out == ReadInOrder(acc, order)
    ensures out == Groups(items, key, init, add)
  {
  }

  // ---------------------------------------------------------------------
  // What the accumulators hold
  // ---------------------------------------------------------------------

  /** An accumulator that records its rows holds exactly the rows of its key, in order. */
  lemma {:induction false} FoldRows<T, K(!new), A>(items: seq<T>, key: T -> K, init: K -> A, add: (A, T) -> A,
                                                    rows: A -> seq<T>, n: nat, k: K)
    requires n <= |items|
    requires rows(init(k)) == []
    requires forall a, x :: rows(add(a, x)) == rows(a) + [x]
    ensures rows(Fold(items, key, init, add, n, k)) == Members(items[..n], key, k)
  {
    if n > 0 {
      FoldRows(items, key, init, add, rows, n - 1, k);
      assert items[..n] == items[..n - 1] + [items[n - 1]];
      FilterSnoc(items[..n - 1], items[n - 1], HasKey(key, k));
    }
  }

  /** `xs.reduce(add, a)`: the accumulator after adding the rows of `xs` in order. */
  function FoldSeq<T, A>(xs: seq<T>, a: A, add: (A, T) -> A): A {
    if xs == [] then a else add(FoldSeq(xs[..|xs| - 1], a, add), xs[|xs| - 1])
  }

  /** The accumulator of a key is its initial value with the rows of that key added in order. */
  lemma {:induction false} FoldMembers<T, K(!new), A>(items: seq<T>, key: T -> K, init: K -> A, add: (A, T) -> A,
                                                       n: nat, k: K)
    requires n <= |items|
    ensures Fold(items, key, init, add, n, k) == FoldSeq(Members(items[..n], key, k), init(k), add)
  {
    if n > 0 {
      FoldMembers(items, key, init, add, n - 1, k);
      var x := items[n - 1];
      assert items[..n] == items[..n - 1] + [x];
      FilterSnoc(items[..n - 1], x, HasKey(key, k));
      var m := Members(items[..n - 1], key, k);
      var prev := Fold(items, key, init, add, n - 1, k);
      assert prev == FoldSeq(m, init(k), add);
      if key(x) == k {
        assert Members(items[..n], key, k) == m + [x];
        FoldSeqSnoc(m, x, init(k), add);
        assert Fold(items, key, init, add, n, k) == add(prev, x);
      } else {
        assert Members(items[..n], key, k) == m;
        assert Fold(items, key, init, add, n, k) == prev;
      }
    }
  }

  lemma FoldSeqSnoc<T, A>(xs: seq<T>, x: T, a: A, add: (A, T) -> A)
    ensures FoldSeq(xs + [x], a, add) == add(FoldSeq(xs, a, add), x)
  {
    assert (xs + [x])[..|xs|] == xs;
  }

  function HasKey<T, K(==)>(key: T -> K, k: K): T -> bool {
    (x: T) => key(x) == k
  }

  /** The rows carrying key `k`, in order. */
  function Members<T, K(==)>(items: seq<T>, key: T -> K, k: K): (r: seq<T>)
    ensures forall i :: 0 <= i < |r| ==> key(r[i]) == k
    ensures forall i :: 0 <= i < |items| && key(items[i]) == k ==> items[i] in r
  {
    Filter(items, HasKey(key, k))
  }

  lemma FilterSnoc<T>(xs: seq<T>, x: T, p: T -> bool)
    ensures Filter(xs + [x], p) == Filter(xs, p) + (if p(x) then [x] else [])
  {
    if xs != [] {
      assert (xs + [x])[1..] == xs[1..] + [x];
      FilterSnoc(xs[1..], x, p);
    }
  }

  /** A property every accumulator starts with and every row keeps holds of every group. */
  lemma {:induction false} FoldKeeps<T, K(!new), A>(items: seq<T>, key: T -> K, init: K -> A, add: (A, T) -> A,
                                                     inv: A -> bool, n: nat, k: K)
    requires n <= |items|
    requires inv(init(k))
    requires forall a, x :: inv(a) ==> inv(add(a, x))
    ensures inv(Fold(items, key, init, add, n, k))
  {
    if n > 0 {
      FoldKeeps(items, key, init, add, inv, n - 1, k);
    }
  }

  /**
   * A property every accumulator starts with and that adding any row of
   * the accumulator's own key keeps holds of that accumulator.
   */
  lemma {:induction false} FoldKeepsKeyed<T, K(!new), A>(items: seq<T>, key: T -> K, init: K -> A, add: (A, T) -> A,
                                                          inv: A -> bool, n: nat, k: K)
    requires n <= |items|
    requires inv(init(k))
    requires forall a, j :: 0 <= j < n && key(items[j]) == k && inv(a) ==> inv(add(a, items[j]))
    ensures inv(Fold(items, key, init, add, n, k))
  {
    if n > 0 {
      FoldKeepsKeyed(items, key, init, add, inv, n - 1, k);
    }
  }

  /** `gs.map(f)`. */
  function MapSeq<A, B>(gs: seq<A>, f: A -> B): (r: seq<B>)
    ensures |r| == |gs| && forall t :: 0 <= t < |gs| ==> r[t] == f(gs[t])
  {
    if gs == [] then [] else MapSeq(gs[..|gs| - 1], f) + [f(gs[|gs| - 1])]
  }

  /** The sizes of a list of accumulators, added up. */
  function SumSizes<A>(gs: seq<A>, size: A -> nat): nat {
    if gs == [] then 0 else SumSizes(gs[..|gs| - 1], size) + size(gs[|gs| - 1])
  }

  /** Mapping each accumulator to a value of the same size keeps the total. */
  lemma {:induction false} SumSizesMap<A, B>(gs: seq<A>, f: A -> B, sa: A -> nat, sb: B -> nat)
    requires forall g :: sb(f(g)) == sa(g)
    ensures SumSizes(MapSeq(gs, f), sb) == SumSizes(gs, sa)
  {
    if gs != [] {
      SumSizesMap(gs[..|gs| - 1], f, sa, sb);
      assert MapSeq(gs, f)[..|gs| - 1] == MapSeq(gs[..|gs| - 1], f);
    }
  }

  /** One more row adds one to the group of its own key and to no other. */
  lemma {:induction false} SumSizesStep<T, K(!new), A>(items: seq<T>, key: T -> K, init: K -> A, add: (A, T) -> A,
                                                        size: A -> nat, n: nat, ks: seq<K>)
    requires n < |items| && Distinct(ks)
    requires forall a, x :: size(add(a, x)) == size(a) + 1
    ensures SumSizes(GroupsFor(items, key, init, add, n + 1, ks), size) ==
      SumSizes(GroupsFor(items, key, init, add, n, ks), size) + (if key(items[n]) in ks then 1 else 0)
  {
    if ks != [] {
      var init' := ks[..|ks| - 1];
      SumSizesStep(items, key, init, add, size, n, init');
      assert GroupsFor(items, key, init, add, n + 1, ks)[..|ks| - 1] == GroupsFor(items, key, init, add, n + 1, init');
      assert GroupsFor(items, key, init, add, n, ks)[..|ks| - 1] == GroupsFor(items, key, init, add, n, init');
      assert key(items[n]) in ks <==> key(items[n]) in init' || key(items[n]) == ks[|ks| - 1];
      if key(items[n]) == ks[|ks| - 1] {
        assert key(items[n]) !in init';
      }
    }
  }

  lemma {:induction false} SumSizesEmpty<T, K(!new), A>(items: seq<T>, key: T -> K, init: K -> A, add: (A, T) -> A,
                                                         size: A -> nat, ks: seq<K>)
    requires forall k :: size(init(k)) == 0
    ensures SumSizes(GroupsFor(items, key, init, add, 0, ks), size) == 0
  {
    if ks != [] {
      SumSizesEmpty(items, key, init, add, size, ks[..|ks| - 1]);
      assert GroupsFor(items, key, init, add, 0, ks)[..|ks| - 1] == GroupsFor(items, key, init, add, 0, ks[..|ks| - 1]);
    }
  }

  lemma SumSizesAdd<T, K(!new), A>(items: seq<T>, key: T -> K, init: K -> A, add: (A, T) -> A,
                                   size: A -> nat, m: nat, ks: seq<K>)
    requires m < |items| && Distinct(ks) && key(items[m]) in ks
    requires forall a, x :: size(add(a, x)) == size(a) + 1
    requires SumSizes(GroupsFor(items, key, init, add, m, ks), size) == m
    ensures SumSizes(GroupsFor(items, key, init, add, m + 1, ks), size) == m + 1
  {
    SumSizesStep(items, key, init, add, size, m, ks);
  }

  /**
   * Every row lands in exactly one group: when an accumulator counts the
   * rows added to it, the counts over all groups add up to the number of
   * rows, and every group counts at least one.
   */
  lemma GroupsPartition<T, K(!new), A>(items: seq<T>, key: T -> K, init: K -> A, add: (A, T) -> A, size: A -> nat)
    requires forall k :: size(init(k)) == 0
    requires forall a, x :: size(add(a, x)) == size(a) + 1
    ensures SumSizes(Groups(items, key, init, add), size) == |items|
    ensures forall t :: 0 <= t < |Groups(items, key, init, add)| ==> size(Groups(items, key, init, add)[t]) > 0
  {
    GroupsSumSizes(items, key, init, add, size);
    GroupsNonEmpty(items, key, init, add, size);
  }

  /** The counts over all groups add up to the number of rows. */
  lemma GroupsSumSizes<T, K(!new), A>(items: seq<T>, key: T -> K, init: K -> A, add: (A, T) -> A, size: A -> nat)
    requires forall k :: size(init(k)) == 0
    requires forall a, x :: size(add(a, x)) == size(a) + 1
    ensures SumSizes(Groups(items, key, init, add), size) == |items|
  {
    var ks := GroupKeys(items, key, |items|);
    SumSizesEmpty(items, key, init, add, size, ks);
    var m: nat := 0;
    while m < |items|
      invariant m <= |items|
      invariant SumSizes(GroupsFor(items, key, init, add, m, ks), size) == m
    {
      SumSizesAdd(items, key, init, add, size, m, ks);
      m := m + 1;
    }
  }

  /** Every group counts at least one row. */
  lemma GroupsNonEmpty<T, K(!new), A>(items: seq<T>, key: T -> K, init: K -> A, add: (A, T) -> A, size: A -> nat)
    requires forall a, x :: size(add(a, x)) == size(a) + 1
    ensures forall t :: 0 <= t < |Groups(items, key, init, add)| ==> size(Groups(items, key, init, add)[t]) > 0
  {
    var ks := GroupKeys(items, key, |items|);
    forall t | 0 <= t < |ks|
      ensures size(Groups(items, key, init, add)[t]) > 0
    {
      var j := GroupKeyWitness(items, key, |items|, t);
      FoldSizeFrom(items, key, init, add, size, |items|, j);
    }
  }

  /** The group of row `j` has counted it. */
  lemma {:induction false} FoldSizeFrom<T, K(!new), A>(items: seq<T>, key: T -> K, init: K -> A, add: (A, T) -> A,
                                                        size: A -> nat, n: nat, j: nat)
    requires j < n <= |items|
    requires forall a, x :: size(add(a, x)) == size(a) + 1
    ensures size(Fold(items, key, init, add, n, key(items[j]))) > 0
  {
    if j < n - 1 {
      FoldSizeFrom(items, key, init, add, size, n - 1, j);
    }
  }
}
