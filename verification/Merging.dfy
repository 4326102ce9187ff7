/**
 The merge loop that performance ratio and emissions share: contributions to
 periods are added up per period start and come out in start order.
 */
module Merging {
  import opened Calendar
  import opened Grouping

  /** A contribution to the period starting at `start`: its energy, and its expected energy or its kg of CO2. */
  datatype Part = Part(start: Day, energyKWh: real, second: real)

  function PartStart(p: Part): Day {
    p.start
  }

  function PartAmount(p: Part): Amount {
    Amount(p.energyKWh, p.second, 0, 0)
  }

  function PartOf(parts: seq<Part>, start: Day): Part {
    var a := GroupSum(parts, PartStart, PartAmount, start);
    Part(start, a.energy, a.second)
  }

  /** `order` and `merged` hold the contributions `seen` so far. */
  ghost predicate Merged(merged: map<Day, Part>, order: seq<Day>, seen: seq<Part>) {
    && order == Keys(seen, PartStart)
    && merged == map d | d in order :: PartOf(seen, d)
  }

  /** One pass of the loop body. */
  method AddPart(merged: map<Day, Part>, order: seq<Day>, p: Part, ghost seen: seq<Part>)
      returns (merged': map<Day, Part>, order': seq<Day>)
    requires Merged(merged, order, seen)
    ensures Merged(merged', order', seen + [p])
  {
    merged', order' := merged, order;
    if p.start !in merged {
      merged' := merged'[p.start := Part(p.start, 0.0, 0.0)];
      order' := order' + [p.start];
      GroupSumOfAbsentKey(seen, PartStart, PartAmount, p.start);
    }
    var pt := merged'[p.start];
    merged' := merged'[p.start := pt.(energyKWh := pt.energyKWh + p.energyKWh, second := pt.second + p.second)];
    assert (seen + [p])[..|seen|] == seen;
  }

  lemma NothingMerged()
    ensures Merged(map[], [], [])
  {
  }

  /** Adding several contributions in a row. */
  method AddParts(merged: map<Day, Part>, order: seq<Day>, parts: seq<Part>, ghost seen: seq<Part>)
      returns (merged': map<Day, Part>, order': seq<Day>)
    requires Merged(merged, order, seen)
    ensures Merged(merged', order', seen + parts)
  {
    hide Merged;
    merged', order' := merged, order;
    assert seen + parts[..0] == seen;
    for i := 0 to |parts|
      invariant Merged(merged', order', seen + parts[..i])
    {
      merged', order' := AddPart(merged', order', parts[i], seen + parts[..i]);
      assert seen + parts[..i] + [parts[i]] == seen + parts[..i + 1];
    }
    assert parts[..|parts|] == parts;
  }

  /** `result` is `parts` grouped by start: strictly increasing starts, exactly those that occur, each with its sums. */
  ghost predicate IsMergeOf(result: seq<Part>, parts: seq<Part>) {
    && (forall i, j :: 0 <= i < j < |result| ==> result[i].start < result[j].start)
    && (forall i :: 0 <= i < |result| ==> result[i].start in Keys(parts, PartStart) && result[i] == PartOf(parts, result[i].start))
    && (forall d :: d in Keys(parts, PartStart) ==> exists i :: 0 <= i < |result| && result[i].start == d)
  }

  function InsertStart(d: Day, ds: seq<Day>): seq<Day> {
    if ds == [] || d <= ds[0] then [d] + ds else [ds[0]] + InsertStart(d, ds[1..])
  }

  /** sort.Slice on distinct instants. */
  function SortStarts(ds: seq<Day>): seq<Day> {
    if ds == [] then [] else InsertStart(ds[0], SortStarts(ds[1..]))
  }

  lemma {:induction false} InsertStartSorts(d: Day, ds: seq<Day>)
    requires Increasing(ds) && d !in ds
    ensures Increasing(InsertStart(d, ds))
    ensures forall x :: x in InsertStart(d, ds) <==> x == d || x in ds
    decreases |ds|
  {
    if ds != [] {
      assert ds == [ds[0]] + ds[1..];
      if d > ds[0] {
        InsertStartSorts(d, ds[1..]);
        var rest := InsertStart(d, ds[1..]);
        forall i | 0 <= i < |rest| ensures ds[0] < rest[i] {
          assert rest[i] in rest;
        }
      }
    }
  }

  lemma {:induction false} SortStartsSorts(ds: seq<Day>)
    requires Distinct(ds)
    ensures Increasing(SortStarts(ds))
    ensures forall x :: x in SortStarts(ds) <==> x in ds
    decreases |ds|
  {
    if ds != [] {
      assert ds == [ds[0]] + ds[1..];
      SortStartsSorts(ds[1..]);
      InsertStartSorts(ds[0], SortStarts(ds[1..]));
    }
  }

  /** The loop after the merge: the merged contributions in start order. */
  method InStartOrder(merged: map<Day, Part>, order: seq<Day>, ghost parts: seq<Part>) returns (result: seq<Part>)
    requires Merged(merged, order, parts)
    ensures IsMergeOf(result, parts)
  {
    KeysAreTheKeys(parts, PartStart);
    SortStartsSorts(order);
    var sorted := SortStarts(order);
    result := [];
    for i := 0 to |sorted|
      invariant |result| == i
      invariant forall j :: 0 <= j < i ==> result[j] == PartOf(parts, sorted[j])
    {
      assert sorted[i] in sorted;
      result := result + [merged[sorted[i]]];
    }
    forall i | 0 <= i < |result| ensures result[i].start in order {
      assert sorted[i] in sorted;
    }
  }

  /** Merging loses nothing. */
  lemma MergeConserves(result: seq<Part>, parts: seq<Part>)
    requires IsMergeOf(result, parts)
    ensures Sum(result, PartAmount) == Sum(parts, PartAmount)
  {
    var starts := seq(|result|, i requires 0 <= i < |result| => result[i].start);
    forall i | 0 <= i < |parts| ensures PartStart(parts[i]) in starts {
      KeysAreTheKeys(parts, PartStart);
      assert parts[i].start in Keys(parts, PartStart);
      var j :| 0 <= j < |result| && result[j].start == parts[i].start;
      assert starts[j] == parts[i].start;
    }
    Conservation(starts, parts, PartStart, PartAmount);
    forall d {
      NoCounters(parts, d);
    }
    SumOfGroupedRows(result, PartAmount, starts, parts, PartStart, PartAmount);
  }

  lemma {:induction false} NoCounters(parts: seq<Part>, d: Day)
    ensures GroupSum(parts, PartStart, PartAmount, d) == PartAmount(PartOf(parts, d))
    decreases |parts|
  {
    if parts != [] {
      NoCounters(parts[..|parts| - 1], d);
    }
  }

  // ---------- merging merges ----------

  /** The same periods with the same sums. */
  ghost predicate SameGroups(a: seq<Part>, b: seq<Part>) {
    forall d :: (d in Keys(a, PartStart) <==> d in Keys(b, PartStart)) && PartOf(a, d) == PartOf(b, d)
  }

  lemma MergeKeepsGroups(result: seq<Part>, parts: seq<Part>)
    requires IsMergeOf(result, parts)
    ensures SameGroups(result, parts)
  {
    KeysAreTheKeys(result, PartStart);
    forall d
      ensures (d in Keys(result, PartStart) <==> d in Keys(parts, PartStart)) && PartOf(result, d) == PartOf(parts, d)
    {
      NoCounters(parts, d);
      NoCounters(result, d);
      if d in Keys(parts, PartStart) {
        var i :| 0 <= i < |result| && result[i].start == d;
        SingleOccurrence(result, i);
      } else {
        GroupSumOfAbsentKey(parts, PartStart, PartAmount, d);
        GroupSumOfAbsentKey(result, PartStart, PartAmount, d);
      }
    }
  }

  lemma {:induction false} SingleOccurrence(result: seq<Part>, i: nat)
    requires i < |result| && forall a, b :: 0 <= a < b < |result| ==> result[a].start != result[b].start
    ensures PartOf(result, result[i].start) == result[i]
    decreases |result|
  {
    var front, last := result[..|result| - 1], result[|result| - 1];
    if i < |front| {
      SingleOccurrence(front, i);
    } else {
      KeysAreTheKeys(front, PartStart);
      GroupSumOfAbsentKey(front, PartStart, PartAmount, last.start);
    }
  }

  lemma PartOfConcat(a: seq<Part>, b: seq<Part>, d: Day)
    ensures PartOf(a + b, d) == Part(d, PartOf(a, d).energyKWh + PartOf(b, d).energyKWh, PartOf(a, d).second + PartOf(b, d).second)
  {
    GroupSumOfConcat(a, b, PartStart, PartAmount, d);
  }

  lemma SameGroupsConcat(a: seq<Part>, b: seq<Part>, a': seq<Part>, b': seq<Part>)
    requires SameGroups(a, a') && SameGroups(b, b')
    ensures SameGroups(a + b, a' + b')
  {
    hide Keys, PartOf;
    KeysOfConcat(a, b, PartStart);
    KeysOfConcat(a', b', PartStart);
    forall d ensures PartOf(a + b, d) == PartOf(a' + b', d) {
      PartOfConcat(a, b, d);
      PartOfConcat(a', b', d);
      assert PartOf(a, d) == PartOf(a', d) && PartOf(b, d) == PartOf(b', d);
    }
  }

  lemma MergeOfSameGroups(result: seq<Part>, a: seq<Part>, b: seq<Part>)
    requires IsMergeOf(result, a) && SameGroups(a, b)
    ensures IsMergeOf(result, b)
  {
  }
}
