/**
 Group-by-sum, the meaning shared by every "map plus order slice" loop of the
 analytics code: keys in order of first appearance, and per key the sum of its rows.
 */
module Grouping {

  /** What is added up per group: energy, a second real quantity (expected energy or kg of CO2), two counters. */
  datatype Amount = Amount(energy: real, second: real, readings: int, backfilled: int) {
    function Plus(b: Amount): Amount {
      Amount(energy + b.energy, second + b.second, readings + b.readings, backfilled + b.backfilled)
    }
  }

  const NOTHING: Amount := Amount(0.0, 0.0, 0, 0)

  function Sum<T>(xs: seq<T>, amount: T -> Amount): Amount {
    if xs == [] then NOTHING
    else Sum(xs[..|xs| - 1], amount).Plus(amount(xs[|xs| - 1]))
  }

  /** The sum over the rows of `xs` whose key is `k`. */
  function GroupSum<T, K(==)>(xs: seq<T>, key: T -> K, amount: T -> Amount, k: K): Amount {
    if xs == [] then NOTHING
    else
      var before := GroupSum(xs[..|xs| - 1], key, amount, k);
      if key(xs[|xs| - 1]) == k then before.Plus(amount(xs[|xs| - 1])) else before
  }

  /** The distinct keys of `xs`, in order of first appearance. */
  function Keys<T, K(==)>(xs: seq<T>, key: T -> K): seq<K> {
    if xs == [] then []
    else
      var before := Keys(xs[..|xs| - 1], key);
      if key(xs[|xs| - 1]) in before then before else before + [key(xs[|xs| - 1])]
  }

  predicate Distinct<K(==)>(ks: seq<K>) {
    forall i, j :: 0 <= i < j < |ks| ==> ks[i] != ks[j]
  }

  predicate Increasing(ks: seq<int>) {
    forall i, j :: 0 <= i < j < |ks| ==> ks[i] < ks[j]
  }

  predicate KeysOrdered<T>(xs: seq<T>, key: T -> int) {
    forall i, j :: 0 <= i < j < |xs| ==> key(xs[i]) <= key(xs[j])
  }

  lemma PrefixStep<T>(xs: seq<T>, i: nat)
    requires i < |xs|
    ensures xs[..i + 1] == xs[..i] + [xs[i]]
    ensures xs[..i + 1][..i] == xs[..i]
  {
  }

  lemma SumAppend<T>(xs: seq<T>, x: T, amount: T -> Amount)
    ensures Sum(xs + [x], amount) == Sum(xs, amount).Plus(amount(x))
  {
    assert (xs + [x])[..|xs|] == xs;
  }

  lemma {:induction false} KeysAreTheKeys<T, K>(xs: seq<T>, key: T -> K)
    ensures Distinct(Keys(xs, key))
    ensures forall k :: k in Keys(xs, key) <==> exists i :: 0 <= i < |xs| && key(xs[i]) == k
    decreases |xs|
  {
    if xs != [] {
      var front := xs[..|xs| - 1];
      KeysAreTheKeys(front, key);
      assert forall i :: 0 <= i < |front| ==> front[i] == xs[i];
    }
  }

  /** On rows ordered by key the keys come out strictly increasing. */
  lemma {:induction false} KeysOfOrderedRows<T>(xs: seq<T>, key: T -> int)
    requires KeysOrdered(xs, key)
    ensures Increasing(Keys(xs, key))
    decreases |xs|
  {
    if xs != [] {
      var front := xs[..|xs| - 1];
      assert KeysOrdered(front, key) by {
        forall i, j | 0 <= i < j < |front| ensures key(front[i]) <= key(front[j]) {
          assert key(xs[i]) <= key(xs[j]);
        }
      }
      KeysOfOrderedRows(front, key);
      KeysAreTheKeys(front, key);
      var last := key(xs[|xs| - 1]);
      var ks := Keys(front, key);
      forall n | 0 <= n < |ks| ensures ks[n] <= last {
        assert ks[n] in ks;
        var i :| 0 <= i < |front| && key(front[i]) == ks[n];
        assert key(xs[i]) <= last;
      }
    }
  }

  /** Absent keys have no amount. */
  lemma {:induction false} GroupSumOfAbsentKey<T, K>(xs: seq<T>, key: T -> K, amount: T -> Amount, k: K)
    requires k !in Keys(xs, key)
    ensures GroupSum(xs, key, amount, k) == NOTHING
    decreases |xs|
  {
    if xs != [] {
      GroupSumOfAbsentKey(xs[..|xs| - 1], key, amount, k);
    }
  }

  /** The sum of the groups named in `ks`. */
  function SumOfGroups<T, K(==)>(ks: seq<K>, xs: seq<T>, key: T -> K, amount: T -> Amount): Amount {
    if ks == [] then NOTHING
    else SumOfGroups(ks[..|ks| - 1], xs, key, amount).Plus(GroupSum(xs, key, amount, ks[|ks| - 1]))
  }

  lemma {:induction false} AddRowToGroups<T, K>(ks: seq<K>, xs: seq<T>, x: T, key: T -> K, amount: T -> Amount)
    requires Distinct(ks)
    ensures SumOfGroups(ks, xs + [x], key, amount)
            == if key(x) in ks then SumOfGroups(ks, xs, key, amount).Plus(amount(x)) else SumOfGroups(ks, xs, key, amount)
    decreases |ks|
  {
    if ks != [] {
      var front, k := ks[..|ks| - 1], ks[|ks| - 1];
      assert (xs + [x])[..|xs|] == xs;
      AddRowToGroups(front, xs, x, key, amount);
      assert ks == front + [k];
    }
  }

  /** Nothing is lost or counted twice: the groups of distinct keys that cover the rows add up to the rows. */
  lemma {:induction false} Conservation<T, K>(ks: seq<K>, xs: seq<T>, key: T -> K, amount: T -> Amount)
    requires Distinct(ks)
    requires forall i :: 0 <= i < |xs| ==> key(xs[i]) in ks
    ensures SumOfGroups(ks, xs, key, amount) == Sum(xs, amount)
    decreases |xs|
  {
    if xs == [] {
      EmptyGroups(ks, xs, key, amount);
    } else {
      var front, x := xs[..|xs| - 1], xs[|xs| - 1];
      assert xs == front + [x];
      forall i | 0 <= i < |front| ensures key(front[i]) in ks {
        assert key(xs[i]) in ks;
      }
      Conservation(ks, front, key, amount);
      AddRowToGroups(ks, front, x, key, amount);
    }
  }

  lemma {:induction false} EmptyGroups<T, K>(ks: seq<K>, xs: seq<T>, key: T -> K, amount: T -> Amount)
    requires xs == []
    ensures SumOfGroups(ks, xs, key, amount) == NOTHING
    decreases |ks|
  {
    if ks != [] {
      EmptyGroups(ks[..|ks| - 1], xs, key, amount);
    }
  }

  /** Rows that carry the groups, one each, add up to the groups. */
  lemma {:induction false} SumOfGroupedRows<T, Y, K>(ys: seq<Y>, yamount: Y -> Amount, ks: seq<K>, xs: seq<T>, key: T -> K, amount: T -> Amount)
    requires |ys| == |ks|
    requires forall i :: 0 <= i < |ks| ==> yamount(ys[i]) == GroupSum(xs, key, amount, ks[i])
    ensures Sum(ys, yamount) == SumOfGroups(ks, xs, key, amount)
    decreases |ks|
  {
    if ks != [] {
      SumOfGroupedRows(ys[..|ks| - 1], yamount, ks[..|ks| - 1], xs, key, amount);
    }
  }

  lemma {:induction false} SumOfConcat<T>(xs: seq<T>, ys: seq<T>, amount: T -> Amount)
    ensures Sum(xs + ys, amount) == Sum(xs, amount).Plus(Sum(ys, amount))
    decreases |ys|
  {
    if ys == [] {
      assert xs + ys == xs;
    } else {
      var front, y := ys[..|ys| - 1], ys[|ys| - 1];
      assert xs + ys == (xs + front) + [y];
      assert (xs + ys)[..|xs + ys| - 1] == xs + front;
      SumOfConcat(xs, front, amount);
    }
  }

  lemma {:induction false} GroupSumOfConcat<T, K>(xs: seq<T>, ys: seq<T>, key: T -> K, amount: T -> Amount, k: K)
    ensures GroupSum(xs + ys, key, amount, k) == GroupSum(xs, key, amount, k).Plus(GroupSum(ys, key, amount, k))
    decreases |ys|
  {
    if ys == [] {
      assert xs + ys == xs;
    } else {
      var front, y := ys[..|ys| - 1], ys[|ys| - 1];
      assert xs + ys == (xs + front) + [y];
      assert (xs + ys)[..|xs + ys| - 1] == xs + front;
      GroupSumOfConcat(xs, front, key, amount, k);
    }
  }

  lemma KeysOfConcat<T, K>(xs: seq<T>, ys: seq<T>, key: T -> K)
    ensures forall k :: k in Keys(xs + ys, key) <==> k in Keys(xs, key) || k in Keys(ys, key)
  {
    KeysAreTheKeys(xs, key);
    KeysAreTheKeys(ys, key);
    KeysAreTheKeys(xs + ys, key);
    forall k | k in Keys(xs, key) || k in Keys(ys, key) ensures k in Keys(xs + ys, key) {
      if k in Keys(xs, key) {
        var i :| 0 <= i < |xs| && key(xs[i]) == k;
        assert (xs + ys)[i] == xs[i];
      } else {
        var i :| 0 <= i < |ys| && key(ys[i]) == k;
        assert (xs + ys)[|xs| + i] == ys[i];
      }
    }
  }

  // ---------- groups of groups ----------

  /** The sum of those groups of `ks` that the coarser key `coarse` sends to `b`. */
  function CoarseSum<T, K(==), J(==)>(ks: seq<K>, xs: seq<T>, key: T -> K, amount: T -> Amount, coarse: K -> J, b: J): Amount {
    if ks == [] then NOTHING
    else
      var k, before := ks[|ks| - 1], CoarseSum(ks[..|ks| - 1], xs, key, amount, coarse, b);
      if coarse(k) == b then before.Plus(GroupSum(xs, key, amount, k)) else before
  }

  lemma {:induction false} AddRowToCoarseSum<T, K, J>(ks: seq<K>, xs: seq<T>, x: T, key: T -> K, amount: T -> Amount, coarse: K -> J, b: J)
    requires Distinct(ks)
    ensures var before := CoarseSum(ks, xs, key, amount, coarse, b);
            CoarseSum(ks, xs + [x], key, amount, coarse, b)
            == if key(x) in ks && coarse(key(x)) == b then before.Plus(amount(x)) else before
    decreases |ks|
  {
    if ks != [] {
      var front, k := ks[..|ks| - 1], ks[|ks| - 1];
      assert (xs + [x])[..|xs|] == xs;
      AddRowToCoarseSum(front, xs, x, key, amount, coarse, b);
      assert ks == front + [k];
    }
  }

  lemma {:induction false} EmptyCoarseSum<T, K, J>(ks: seq<K>, xs: seq<T>, key: T -> K, amount: T -> Amount, coarse: K -> J, b: J)
    requires xs == []
    ensures CoarseSum(ks, xs, key, amount, coarse, b) == NOTHING
    decreases |ks|
  {
    if ks != [] {
      EmptyCoarseSum(ks[..|ks| - 1], xs, key, amount, coarse, b);
    }
  }

  /** Grouping by a fine key and then by a coarser one is grouping by the coarser one. */
  lemma {:induction false} Fusion<T, K, J>(ks: seq<K>, xs: seq<T>, key: T -> K, amount: T -> Amount, coarse: K -> J, coarseKey: T -> J, b: J)
    requires Distinct(ks)
    requires forall i :: 0 <= i < |xs| ==> key(xs[i]) in ks && coarseKey(xs[i]) == coarse(key(xs[i]))
    ensures CoarseSum(ks, xs, key, amount, coarse, b) == GroupSum(xs, coarseKey, amount, b)
    decreases |xs|
  {
    if xs == [] {
      EmptyCoarseSum(ks, xs, key, amount, coarse, b);
    } else {
      var front, x := xs[..|xs| - 1], xs[|xs| - 1];
      assert xs == front + [x];
      assert forall i :: 0 <= i < |front| ==> front[i] == xs[i];
      Fusion(ks, front, key, amount, coarse, coarseKey, b);
      AddRowToCoarseSum(ks, front, x, key, amount, coarse, b);
    }
  }

  /** Rows `ys` that carry the groups `ks` of `xs`, one each, group further as the groups do. */
  lemma {:induction false} GroupedRows<T, Y, K, J>(ys: seq<Y>, ykey: Y -> J, yamount: Y -> Amount,
                                                   ks: seq<K>, xs: seq<T>, key: T -> K, amount: T -> Amount, coarse: K -> J, b: J)
    requires |ys| == |ks|
    requires forall i :: 0 <= i < |ks| ==> ykey(ys[i]) == coarse(ks[i]) && yamount(ys[i]) == GroupSum(xs, key, amount, ks[i])
    ensures GroupSum(ys, ykey, yamount, b) == CoarseSum(ks, xs, key, amount, coarse, b)
    decreases |ks|
  {
    if ks != [] {
      GroupedRows(ys[..|ks| - 1], ykey, yamount, ks[..|ks| - 1], xs, key, amount, coarse, b);
    }
  }

  // ---------- partition by a category ----------

  function Where<T, C(==)>(xs: seq<T>, category: T -> C, c: C): seq<T> {
    if xs == [] then []
    else
      var before := Where(xs[..|xs| - 1], category, c);
      if category(xs[|xs| - 1]) == c then before + [xs[|xs| - 1]] else before
  }

  /** The group `k` of `xs`, added up category by category. */
  function SumOfCategories<T, C(==), K(==)>(cs: seq<C>, xs: seq<T>, category: T -> C, key: T -> K, amount: T -> Amount, k: K): Amount {
    if cs == [] then NOTHING
    else
      SumOfCategories(cs[..|cs| - 1], xs, category, key, amount, k)
      .Plus(GroupSum(Where(xs, category, cs[|cs| - 1]), key, amount, k))
  }

  lemma GroupSumAppend<T, K>(xs: seq<T>, x: T, key: T -> K, amount: T -> Amount, k: K)
    ensures var before := GroupSum(xs, key, amount, k);
            GroupSum(xs + [x], key, amount, k) == if key(x) == k then before.Plus(amount(x)) else before
  {
    assert (xs + [x])[..|xs|] == xs;
  }

  lemma LateAddition(a: Amount, b: Amount, x: Amount)
    ensures a.Plus(x).Plus(b) == a.Plus(b).Plus(x) == a.Plus(b.Plus(x))
  {
  }

  lemma NotInFront<K>(ks: seq<K>)
    requires Distinct(ks) && ks != []
    ensures Distinct(ks[..|ks| - 1])
    ensures forall k :: k in ks <==> k in ks[..|ks| - 1] || k == ks[|ks| - 1]
    ensures ks[|ks| - 1] !in ks[..|ks| - 1]
  {
  }

  lemma WhereAppend<T, C>(xs: seq<T>, x: T, category: T -> C, c: C)
    ensures Where(xs + [x], category, c) == if category(x) == c then Where(xs, category, c) + [x] else Where(xs, category, c)
  {
    assert (xs + [x])[..|xs|] == xs;
  }

  lemma {:induction false} AddRowToCategories<T, C, K>(cs: seq<C>, xs: seq<T>, x: T, category: T -> C, key: T -> K, amount: T -> Amount, k: K)
    requires Distinct(cs)
    ensures var before := SumOfCategories(cs, xs, category, key, amount, k);
            SumOfCategories(cs, xs + [x], category, key, amount, k)
            == if category(x) in cs && key(x) == k then before.Plus(amount(x)) else before
    decreases |cs|
  {
    if cs != [] {
      var front, c := cs[..|cs| - 1], cs[|cs| - 1];
      AddRowToCategories(front, xs, x, category, key, amount, k);
      AddRowToCategory(xs, x, category, c, key, amount, k);
      NotInFront(cs);
      LateAddition(SumOfCategories(front, xs, category, key, amount, k),
                   GroupSum(Where(xs, category, c), key, amount, k), amount(x));
      assert SumOfCategories(cs, xs, category, key, amount, k)
             == SumOfCategories(front, xs, category, key, amount, k).Plus(GroupSum(Where(xs, category, c), key, amount, k));
      assert SumOfCategories(cs, xs + [x], category, key, amount, k)
             == SumOfCategories(front, xs + [x], category, key, amount, k).Plus(GroupSum(Where(xs + [x], category, c), key, amount, k));
      hide *;
    }
  }

  lemma AddRowToCategory<T, C, K>(xs: seq<T>, x: T, category: T -> C, c: C, key: T -> K, amount: T -> Amount, k: K)
    ensures var before := GroupSum(Where(xs, category, c), key, amount, k);
            GroupSum(Where(xs + [x], category, c), key, amount, k)
            == if category(x) == c && key(x) == k then before.Plus(amount(x)) else before
  {
    WhereAppend(xs, x, category, c);
    GroupSumAppend(Where(xs, category, c), x, key, amount, k);
  }

  lemma {:induction false} EmptyCategories<T, C, K>(cs: seq<C>, xs: seq<T>, category: T -> C, key: T -> K, amount: T -> Amount, k: K)
    requires xs == []
    ensures SumOfCategories(cs, xs, category, key, amount, k) == NOTHING
    decreases |cs|
  {
    if cs != [] {
      EmptyCategories(cs[..|cs| - 1], xs, category, key, amount, k);
    }
  }

  /** A group is the sum of its parts over distinct categories that cover the rows. */
  lemma {:induction false} PartitionByCategory<T, C, K>(cs: seq<C>, xs: seq<T>, category: T -> C, key: T -> K, amount: T -> Amount, k: K)
    requires Distinct(cs)
    requires forall i :: 0 <= i < |xs| ==> category(xs[i]) in cs
    ensures SumOfCategories(cs, xs, category, key, amount, k) == GroupSum(xs, key, amount, k)
    decreases |xs|
  {
    if xs == [] {
      EmptyCategories(cs, xs, category, key, amount, k);
    } else {
      var front, x := xs[..|xs| - 1], xs[|xs| - 1];
      assert xs == front + [x];
      assert forall i :: 0 <= i < |front| ==> front[i] == xs[i];
      PartitionByCategory(cs, front, category, key, amount, k);
      AddRowToCategories(cs, front, x, category, key, amount, k);
    }
  }

  lemma {:induction false} WhereOfAbsentKey<T, C>(xs: seq<T>, category: T -> C, c: C)
    requires c !in Keys(xs, category)
    ensures Where(xs, category, c) == []
    decreases |xs|
  {
    if xs != [] {
      WhereOfAbsentKey(xs[..|xs| - 1], category, c);
    }
  }
}
