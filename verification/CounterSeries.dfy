/**
 Energy from a cumulative counter (internal/domain/analytics.go): the glitch
 filter, its display-oriented sibling, and the daily total built on the filter.
 Readings are exact reals instead of float64.
 */
module CounterSeries {
  import opened Options

  /**
   The guard shared by both filters: `cur` plunges below half of both neighbours
   and the series recovers to at least 0.9 of where it was.  "Below half" is
   written as a sum, which is the same over the reals.
   */
  predicate IsDip(prev: real, cur: real, next: real) {
    cur + cur < prev && cur + cur < next && next >= prev * 0.9
  }

  predicate DipAt(s: seq<real>, i: int) {
    1 <= i < |s| - 1 && IsDip(s[i - 1], s[i], s[i + 1])
  }

  predicate NonNegative(s: seq<real>) {
    forall i :: 0 <= i < |s| ==> s[i] >= 0.0
  }

  predicate NonDecreasing(s: seq<real>) {
    forall i, j :: 0 <= i < j < |s| ==> s[i] <= s[j]
  }

  /** What survives of `s` when `prev` is the reading just before it. */
  function Keep(prev: Option<real>, s: seq<real>): seq<real>
    decreases |s|
  {
    if s == [] then []
    else
      (if prev.Some? && |s| >= 2 && IsDip(prev.value, s[0], s[1]) then [] else [s[0]])
      + Keep(Some(s[0]), s[1..])
  }

  function Filtered(s: seq<real>): seq<real> {
    Keep(None, s)
  }

  function Rise(a: real, b: real): (r: real)
    ensures r >= 0.0 && r >= b - a
  {
    if b > a then b - a else 0.0
  }

  /** The sum of the positive steps of a series. */
  function Rises(s: seq<real>): (r: real)
    ensures r >= 0.0
  {
    if |s| < 2 then 0.0 else Rise(s[0], s[1]) + Rises(s[1..])
  }

  function DailyEnergy(s: seq<real>): real {
    Rises(Filtered(s))
  }

  function SmoothedAt(s: seq<real>, i: nat): real
    requires i < |s|
  {
    if DipAt(s, i) then (s[i - 1] + s[i + 1]) / 2.0 else s[i]
  }

  function Smoothed(s: seq<real>): seq<real> {
    seq(|s|, i requires 0 <= i < |s| => SmoothedAt(s, i))
  }

  /** `ks` lists, in increasing order and without repetition, the dips of `s` before position `n`. */
  predicate ListsDips(ks: seq<nat>, s: seq<real>, n: nat) {
    && (forall a, b :: 0 <= a < b < |ks| ==> ks[a] < ks[b])
    && (forall a :: 0 <= a < |ks| ==> ks[a] < n && DipAt(s, ks[a]))
    && (forall i :: 0 <= i < n && DipAt(s, i) ==> i in ks)
  }

  function DipsBefore(s: seq<real>, n: nat): seq<nat> {
    if n == 0 then []
    else DipsBefore(s, n - 1) + (if DipAt(s, n - 1) then [n - 1] else [])
  }

  lemma {:induction false} DipsBeforeListsDips(s: seq<real>, n: nat)
    ensures ListsDips(DipsBefore(s, n), s, n)
  {
    if n > 0 {
      DipsBeforeListsDips(s, n - 1);
      var ks := DipsBefore(s, n - 1);
      forall i | 0 <= i < n && DipAt(s, i) ensures i in DipsBefore(s, n) {
        if i < n - 1 {
          assert i in ks;
        } else {
          assert DipsBefore(s, n)[|ks|] == i;
        }
      }
    }
  }

  // ---------- the source's loops ----------

  /** What survives, in order: all but the interior readings below half of both neighbours whose right one has recovered. */
  method FilterSpuriousDips(readings: seq<real>) returns (out: seq<real>, ghost kept: seq<nat>)
    ensures out == Filtered(readings)
    ensures |kept| == |out| && forall j :: 0 <= j < |kept| ==> kept[j] < |readings| && out[j] == readings[kept[j]]
    ensures forall j, k :: 0 <= j < k < |kept| ==> kept[j] < kept[k]
    ensures forall i {:trigger i in kept} :: 0 <= i < |readings| ==>
              (i !in kept <==> && 0 < i < |readings| - 1
                               && readings[i] + readings[i] < readings[i - 1] && readings[i] + readings[i] < readings[i + 1]
                               && readings[i + 1] >= readings[i - 1] * 0.9)
  {
    kept := PositionsKept(readings);
    if |readings| < 3 {
      ShortSeriesIsKept(readings);
      return readings, kept;
    }
    out := [readings[0]];
    hide Filtered, IsDip;
    assert out + Keep(Some(readings[0]), readings[1..]) == Filtered(readings) by {
      FilteredFrom(readings);
    }
    var i := 1;
    while i < |readings| - 1
      invariant 1 <= i <= |readings| - 1
      invariant out + Keep(Some(readings[i - 1]), readings[i..]) == Filtered(readings)
    {
      var prev, cur, next := readings[i - 1], readings[i], readings[i + 1];
      assert readings[i..][1..] == readings[i + 1..];
      if IsDip(prev, cur, next) {
        i := i + 1;
        continue;
      }
      out := out + [cur];
      i := i + 1;
    }
    assert readings[i..] == [readings[|readings| - 1]];
    out := out + [readings[|readings| - 1]];
  }

  lemma FilteredFrom(s: seq<real>)
    requires s != []
    ensures Filtered(s) == [s[0]] + Keep(Some(s[0]), s[1..])
  {
  }

  /** The positions from `from` on that survive. */
  lemma {:induction false} PositionsKeptFrom(s: seq<real>, from: nat) returns (kept: seq<nat>)
    requires from <= |s|
    ensures var rest := Keep(if from == 0 then None else Some(s[from - 1]), s[from..]);
            |kept| == |rest| && forall j :: 0 <= j < |kept| ==> from <= kept[j] < |s| && rest[j] == s[kept[j]]
    ensures forall j, k :: 0 <= j < k < |kept| ==> kept[j] < kept[k]
    ensures forall i {:trigger i in kept} :: from <= i < |s| ==> (i !in kept <==> DipAt(s, i))
    decreases |s| - from
  {
    if from == |s| {
      kept := [];
    } else {
      var more := PositionsKeptFrom(s, from + 1);
      assert s[from..][1..] == s[from + 1..];
      kept := (if DipAt(s, from) then [] else [from]) + more;
      hide Keep, DipAt;
      assert forall i :: i in kept <==> i in more || (i == from && !DipAt(s, from));
    }
  }

  lemma PositionsKept(s: seq<real>) returns (kept: seq<nat>)
    ensures |kept| == |Filtered(s)| && forall j :: 0 <= j < |kept| ==> kept[j] < |s| && Filtered(s)[j] == s[kept[j]]
    ensures forall j, k :: 0 <= j < k < |kept| ==> kept[j] < kept[k]
    ensures forall i {:trigger i in kept} :: 0 <= i < |s| ==>
              (i !in kept <==> && 0 < i < |s| - 1 && s[i] + s[i] < s[i - 1] && s[i] + s[i] < s[i + 1]
                               && s[i + 1] >= s[i - 1] * 0.9)
  {
    kept := PositionsKeptFrom(s, 0);
    assert s[0..] == s;
    hide Keep;
  }

  lemma ShortSeriesIsKept(s: seq<real>)
    requires |s| < 3
    ensures Filtered(s) == s
  {
    if s != [] {
      assert s == [s[0]] + s[1..];
      assert s[1..] == [] || s[1..] == [s[1]];
      assert Keep(Some(s[0]), s[1..]) == s[1..];
    }
  }

  /** The same readings are replaced by the mean of their neighbours, and reported in order. */
  method SmoothIsolatedDips(readings: seq<real>) returns (smoothed: seq<real>, changedIndices: seq<nat>)
    ensures smoothed == Smoothed(readings) && changedIndices == DipsBefore(readings, |readings|)
    ensures |smoothed| == |readings|
    ensures forall i {:trigger i in changedIndices} :: 0 <= i < |readings| ==>
              (i in changedIndices <==> && 0 < i < |readings| - 1
                                        && readings[i] + readings[i] < readings[i - 1] && readings[i] + readings[i] < readings[i + 1]
                                        && readings[i + 1] >= readings[i - 1] * 0.9)
    ensures forall i :: 0 <= i < |readings| && i !in changedIndices ==> smoothed[i] == readings[i]
    ensures forall i {:trigger smoothed[i]} :: 0 < i < |readings| - 1 && i in changedIndices ==> 2.0 * smoothed[i] == readings[i - 1] + readings[i + 1]
    ensures forall a, b :: 0 <= a < b < |changedIndices| ==> changedIndices[a] < changedIndices[b]
    ensures forall i :: i in changedIndices ==> i < |readings|
  {
    hide IsDip;
    if |readings| < 3 {
      assert DipsBefore(readings, 1) == [];
      SmoothedDips(readings);
      return readings, [];
    }
    var out := new real[|readings|];
    forall j | 0 <= j < |readings| {
      out[j] := readings[j];
    }
    changedIndices := [];
    var i := 1;
    while i < |readings| - 1
      invariant 1 <= i <= |readings| - 1
      invariant forall j :: 0 <= j < i ==> out[j] == Smoothed(readings)[j]
      invariant forall j :: i <= j < |readings| ==> out[j] == readings[j]
      invariant changedIndices == DipsBefore(readings, i)
    {
      var prev, cur, next := readings[i - 1], readings[i], readings[i + 1];
      if IsDip(prev, cur, next) {
        out[i] := SmoothedAt(readings, i);
        changedIndices := changedIndices + [i];
      }
      i := i + 1;
    }
    smoothed := out[..];
    assert smoothed == Smoothed(readings) && changedIndices == DipsBefore(readings, |readings|);
    SmoothedDips(readings);
  }

  lemma SmoothedDips(s: seq<real>)
    ensures var ks := DipsBefore(s, |s|);
            && (forall i {:trigger i in ks} :: 0 <= i < |s| ==>
                  (i in ks <==> && 0 < i < |s| - 1 && s[i] + s[i] < s[i - 1] && s[i] + s[i] < s[i + 1]
                                && s[i + 1] >= s[i - 1] * 0.9))
            && (forall i :: 0 <= i < |s| && i !in ks ==> Smoothed(s)[i] == s[i])
            && (forall i {:trigger Smoothed(s)[i]} :: 0 < i < |s| - 1 && i in ks ==> 2.0 * Smoothed(s)[i] == s[i - 1] + s[i + 1])
            && (forall a, b :: 0 <= a < b < |ks| ==> ks[a] < ks[b])
            && (forall i :: i in ks ==> i < |s|)
  {
    var ks := DipsBefore(s, |s|);
    DipsBeforeListsDips(s, |s|);
    hide DipsBefore;
    forall i | 0 <= i < |s| ensures i in ks <==> DipAt(s, i) {
    }
  }

  method DailyEnergyFromReadings(orderedEnergyReadings: seq<real>) returns (total: real)
    ensures total == DailyEnergy(orderedEnergyReadings)
  {
    if |orderedEnergyReadings| < 2 {
      ShortSeriesIsKept(orderedEnergyReadings);
      return 0.0;
    }
    ghost var kept;
    var readings;
    readings, kept := FilterSpuriousDips(orderedEnergyReadings);
    FilterKeepsEnds(orderedEnergyReadings);
    total := 0.0;
    var i := 1;
    while i < |readings|
      invariant 1 <= i <= |readings|
      invariant total + Rises(readings[i - 1..]) == Rises(readings)
    {
      var delta := readings[i] - readings[i - 1];
      assert readings[i - 1..][1..] == readings[i..];
      if delta > 0.0 {
        total := total + delta;
      }
      i := i + 1;
    }
  }

  // ---------- what the filter drops ----------

  /** The first and the last reading always survive, so a non-empty series stays non-empty. */
  lemma {:induction false} KeepKeepsLast(prev: Option<real>, s: seq<real>)
    requires |s| >= 1
    ensures |Keep(prev, s)| >= 1 && Keep(prev, s)[|Keep(prev, s)| - 1] == s[|s| - 1]
    decreases |s|
  {
    if |s| > 1 {
      KeepKeepsLast(Some(s[0]), s[1..]);
    }
  }

  lemma FilterKeepsEnds(s: seq<real>)
    requires |s| >= 1
    ensures |Filtered(s)| >= 1
    ensures Filtered(s)[0] == s[0]
    ensures Filtered(s)[|Filtered(s)| - 1] == s[|s| - 1]
  {
    KeepKeepsLast(None, s);
  }

  /** On a counter that is never negative the two neighbours of a dropped reading are both kept. */
  lemma NoAdjacentDips(s: seq<real>, i: nat)
    requires NonNegative(s) && DipAt(s, i)
    ensures !DipAt(s, i - 1) && !DipAt(s, i + 1)
  {
    assert s[i - 1] >= 0.0 && s[i] >= 0.0 && s[i + 1] >= 0.0;
  }

  /** The readings of `s` at positions `from..` that are not listed in `dropped`. */
  function Without(s: seq<real>, dropped: seq<nat>, from: nat): seq<real>
    requires from <= |s|
    decreases |s| - from
  {
    if from == |s| then []
    else (if from in dropped then [] else [s[from]]) + Without(s, dropped, from + 1)
  }

  lemma {:induction false} KeepIsWithout(s: seq<real>, dropped: seq<nat>, from: nat)
    requires from <= |s|
    requires forall i :: i in dropped <==> DipAt(s, i)
    ensures Without(s, dropped, from) == Keep(if from == 0 then None else Some(s[from - 1]), s[from..])
    decreases |s| - from
  {
    if from < |s| {
      KeepIsWithout(s, dropped, from + 1);
      assert s[from..][1..] == s[from + 1..];
      assert from in dropped <==> DipAt(s, from);
    }
  }

  /** The indices the smoother reports are exactly the positions the filter removes. */
  lemma SmoothedPositionsAreTheDroppedOnes(s: seq<real>)
    ensures ListsDips(DipsBefore(s, |s|), s, |s|)
    ensures Filtered(s) == Without(s, DipsBefore(s, |s|), 0)
  {
    DipsBeforeListsDips(s, |s|);
    KeepIsWithout(s, DipsBefore(s, |s|), 0);
    assert s[0..] == s;
  }

  /** Smoothing twice is not smoothing once: a repaired point can turn its neighbour into a new dip. */
  lemma SmoothingIsNotIdempotent()
    ensures var s := [10.0, 4.0, 1.0, 20.0];
            && Smoothed(s) == [10.0, 4.0, 12.0, 20.0]
            && Smoothed(Smoothed(s)) == [10.0, 11.0, 12.0, 20.0]
  {
  }

  /** A reading that was no dip becomes one when a neighbour is repaired. */
  predicate DipAppears(s: seq<real>, i: int) {
    && 1 <= i < |s| - 1 && !DipAt(s, i) && (DipAt(s, i - 1) || DipAt(s, i + 1))
    && IsDip(SmoothedAt(s, i - 1), s[i], SmoothedAt(s, i + 1))
  }

  /** A repaired reading is no dip any more, and a new dip is always beside one. */
  lemma DipsOfTheSmoothed(s: seq<real>, i: int)
    requires NonNegative(s)
    ensures DipAt(Smoothed(s), i) <==> DipAppears(s, i)
  {
    if DipAt(s, i) {
      NoAdjacentDips(s, i);
      assert s[i - 1] + s[i + 1] == 2.0 * Smoothed(s)[i];
    }
  }

  /** Averaging the neighbours of a dip on a non-negative series raises it. */
  lemma RepairRaises(s: seq<real>, i: nat)
    requires NonNegative(s) && DipAt(s, i)
    ensures SmoothedAt(s, i) > s[i]
  {
  }

  lemma SmoothedIsNonNegative(s: seq<real>)
    requires NonNegative(s)
    ensures NonNegative(Smoothed(s))
  {
  }

  /** Smoothing twice is smoothing once if and only if no repair turns a neighbour into a new dip. */
  lemma SmoothingIsIdempotentExactly(s: seq<real>)
    requires NonNegative(s)
    ensures Smoothed(Smoothed(s)) == Smoothed(s) <==> forall i :: 0 <= i < |s| ==> !DipAppears(s, i)
  {
    var once := Smoothed(s);
    SmoothedIsNonNegative(s);
    hide DipAppears, IsDip;
    forall i | 0 <= i < |s| ensures Smoothed(once)[i] == once[i] <==> !DipAppears(s, i) {
      DipsOfTheSmoothed(s, i);
      if DipAt(once, i) {
        RepairRaises(once, i);
      }
    }
    assert |Smoothed(once)| == |once|;
  }
}
