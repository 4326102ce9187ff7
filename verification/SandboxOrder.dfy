/**
 What the upload's sort does when timestamps are unreadable: a row without one compares
 with nothing, so it is a barrier that no row moves past.
 */
module SandboxOrder {
  import opened Options
  import opened TelemetryRules
  import opened Sandbox

  // ---------- stability ----------

  /** Rows with equal timestamps keep their upload order: each timestamp's rows come out as they went in. */
  function At(rows: seq<ParsedRow>, ts: Option<Instant>): seq<ParsedRow> {
    if rows == [] then []
    else At(rows[..|rows| - 1], ts) + if rows[|rows| - 1].ts == ts then [rows[|rows| - 1]] else []
  }

  lemma {:induction false} MoveLeftIsStable(s: seq<ParsedRow>, x: ParsedRow, ts: Option<Instant>)
    ensures At(MoveLeft(s, x), ts) == At(s, ts) + if x.ts == ts then [x] else []
    decreases |s|
  {
    var r := MoveLeft(s, x);
    if s != [] && Before(x, s[|s| - 1]) {
      var n := |s| - 1;
      MoveLeftIsStable(s[..n], x, ts);
      assert r[..n + 1] == MoveLeft(s[..n], x) && r[n + 1] == s[n];
      assert s[n].ts != x.ts;
    } else {
      assert r[..|s|] == s && r[|s|] == x;
    }
  }

  lemma {:induction false} SortIsStable(rows: seq<ParsedRow>, ts: Option<Instant>)
    ensures At(StableSorted(rows), ts) == At(rows, ts)
    decreases |rows|
  {
    if rows != [] {
      SortIsStable(rows[..|rows| - 1], ts);
      MoveLeftIsStable(StableSorted(rows[..|rows| - 1]), rows[|rows| - 1], ts);
    }
  }

  // ---------- barriers ----------

  /** The rows that have a timestamp are in time order; the others may stand anywhere between them. */
  predicate TimedChronological(rows: seq<ParsedRow>) {
    forall i, j :: 0 <= i < j < |rows| && rows[i].ts.Some? && rows[j].ts.Some? ==> rows[i].ts.value <= rows[j].ts.value
  }

  /** Nothing before the barrier at `k` is later than a row after it. */
  predicate BarrierIsHarmless(rows: seq<ParsedRow>, k: int)
    requires 0 <= k < |rows|
  {
    forall i, j :: 0 <= i < k < j < |rows| && rows[i].ts.Some? && rows[j].ts.Some? ==> rows[i].ts.value <= rows[j].ts.value
  }

  /** In upload order: no row is earlier than one uploaded before it with an unreadable row in between. */
  predicate BarriersAreHarmless(rows: seq<ParsedRow>) {
    forall k :: 0 <= k < |rows| && rows[k].ts.None? ==> BarrierIsHarmless(rows, k)
  }

  lemma {:induction false} MoveLeftStopsAtABarrier(s: seq<ParsedRow>, x: ParsedRow, k: nat)
    requires k < |s| && s[k].ts.None?
    ensures MoveLeft(s, x)[..k + 1] == s[..k + 1]
    decreases |s|
  {
    var n := |s| - 1;
    if Before(x, s[n]) {
      MoveLeftStopsAtABarrier(s[..n], x, k);
      assert MoveLeft(s, x)[..k + 1] == MoveLeft(s[..n], x)[..k + 1];
    } else {
      assert (s + [x])[..k + 1] == s[..k + 1];
    }
  }

  /** A barrier keeps its place, with the rows before it sorted on their own. */
  lemma {:induction false} BarrierStays(rows: seq<ParsedRow>, k: nat)
    requires k < |rows| && rows[k].ts.None?
    ensures StableSorted(rows)[..k + 1] == StableSorted(rows[..k]) + [rows[k]]
    decreases |rows|
  {
    var n := |rows| - 1;
    if k == n {
      assert MoveLeft(StableSorted(rows[..n]), rows[n]) == StableSorted(rows[..n]) + [rows[n]];
    } else {
      BarrierStays(rows[..n], k);
      assert rows[..n][..k] == rows[..k];
      var s := StableSorted(rows[..n]);
      assert s[k] == s[..k + 1][k] == rows[k];
      MoveLeftStopsAtABarrier(s, rows[n], k);
    }
  }

  lemma SplitAt(s: seq<ParsedRow>, k: nat)
    requires k < |s|
    ensures multiset(s[k + 1..]) == multiset(s) - multiset(s[..k]) - multiset{s[k]}
  {
    assert s == s[..k] + [s[k]] + s[k + 1..];
    assert multiset(s) == multiset(s[..k]) + multiset{s[k]} + multiset(s[k + 1..]);
  }

  lemma SplitsAlike(s: seq<ParsedRow>, front: seq<ParsedRow>, rows: seq<ParsedRow>)
    requires |front| < |s| == |rows| && s[..|front| + 1] == front + [rows[|front|]]
    requires multiset(s) == multiset(rows) && multiset(front) == multiset(rows[..|front|])
    ensures var k := |front|;
            s[k] == rows[k] && multiset(s[..k]) == multiset(rows[..k]) && multiset(s[k + 1..]) == multiset(rows[k + 1..])
  {
    var k := |front|;
    assert s[k] == s[..k + 1][k] && s[..k] == s[..k + 1][..k] == front;
    SplitAt(s, k);
    SplitAt(rows, k);
  }

  /** So the sort permutes the rows before a barrier among themselves, and those after it. */
  lemma BarrierSeparates(rows: seq<ParsedRow>, k: nat)
    requires k < |rows| && rows[k].ts.None?
    ensures var s := StableSorted(rows);
            s[k] == rows[k] && multiset(s[..k]) == multiset(rows[..k]) && multiset(s[k + 1..]) == multiset(rows[k + 1..])
  {
    hide StableSorted;
    BarrierStays(rows, k);
    SortPermutes(rows);
    SortPermutes(rows[..k]);
    SplitsAlike(StableSorted(rows), StableSorted(rows[..k]), rows);
  }

  lemma LastRowMoves(rows: seq<ParsedRow>)
    requires rows != []
    ensures StableSorted(rows) == MoveLeft(StableSorted(rows[..|rows| - 1]), rows[|rows| - 1])
  {
  }

  /** A barrier of the sorted rows is one of the uploaded rows. */
  lemma {:induction false} BarriersComeFromTheRows(rows: seq<ParsedRow>, k: nat)
    requires k < |rows|
    ensures StableSorted(rows)[k].ts.None? <==> rows[k].ts.None?
    decreases |rows|
  {
    hide StableSorted, MoveLeft;
    var n := |rows| - 1;
    LastRowMoves(rows);
    MoveLeftKeepsBarriers(StableSorted(rows[..n]), rows[n], k);
    if k < n {
      BarriersComeFromTheRows(rows[..n], k);
    }
  }

  lemma {:induction false} MoveLeftKeepsBarriers(s: seq<ParsedRow>, x: ParsedRow, k: nat)
    requires k <= |s|
    ensures MoveLeft(s, x)[k].ts.None? <==> (if k < |s| then s[k].ts.None? else x.ts.None?)
    decreases |s|
  {
    if s != [] && Before(x, s[|s| - 1]) {
      if k < |s| {
        MoveLeftKeepsBarriers(s[..|s| - 1], x, k);
      }
    }
  }

  /** Where every barrier has only rows before it that are not later than `x`, `x` moves to its place. */
  lemma {:induction false} MoveLeftSorts(s: seq<ParsedRow>, x: ParsedRow)
    requires TimedChronological(s)
    requires x.ts.Some? ==> forall i, k :: 0 <= i < k < |s| && s[k].ts.None? && s[i].ts.Some? ==> s[i].ts.value <= x.ts.value
    ensures TimedChronological(MoveLeft(s, x))
    decreases |s|
  {
    if s != [] && Before(x, s[|s| - 1]) {
      var front, last := s[..|s| - 1], s[|s| - 1];
      MoveLeftSorts(front, x);
      var r := MoveLeft(front, x);
      MoveLeftPermutes(front, x);
      hide MoveLeft;
      forall i | 0 <= i < |r| && r[i].ts.Some? ensures r[i].ts.value <= last.ts.value {
        assert r[i] in multiset(r);
        if r[i] != x {
          var k :| 0 <= k < |front| && front[k] == r[i];
          assert s[k].ts.value <= s[|s| - 1].ts.value;
        }
      }
      assert MoveLeft(s, x) == r + [last];
    } else if x.ts.Some? {
      forall i | 0 <= i < |s| && s[i].ts.Some? ensures s[i].ts.value <= x.ts.value {
        if i < |s| - 1 && s[|s| - 1].ts.Some? {
          assert s[i].ts.value <= s[|s| - 1].ts.value;
        }
      }
    }
  }

  lemma HarmlessPrefix(rows: seq<ParsedRow>)
    requires rows != [] && BarriersAreHarmless(rows)
    ensures BarriersAreHarmless(rows[..|rows| - 1])
  {
    var front := rows[..|rows| - 1];
    forall k | 0 <= k < |front| && front[k].ts.None? ensures BarrierIsHarmless(front, k) {
      assert BarrierIsHarmless(rows, k);
    }
  }

  /** Behind every barrier of the sorted front, nothing is later than the next row. */
  lemma NextRowMayMove(rows: seq<ParsedRow>, i: nat, k: nat)
    requires rows != [] && BarriersAreHarmless(rows) && rows[|rows| - 1].ts.Some?
    requires var s := StableSorted(rows[..|rows| - 1]); i < k < |s| && s[k].ts.None? && s[i].ts.Some?
    ensures StableSorted(rows[..|rows| - 1])[i].ts.value <= rows[|rows| - 1].ts.value
  {
    var front := rows[..|rows| - 1];
    var s := StableSorted(front);
    BarriersComeFromTheRows(front, k);
    BarrierSeparates(front, k);
    hide StableSorted;
    assert s[..k][i] == s[i] && s[i] in multiset(front[..k]);
    var m :| 0 <= m < k && front[..k][m] == s[i];
    assert BarrierIsHarmless(rows, k) && rows[m] == s[i];
  }

  lemma {:induction false} HarmlessBarriersSort(rows: seq<ParsedRow>)
    requires BarriersAreHarmless(rows)
    ensures TimedChronological(StableSorted(rows))
    decreases |rows|
  {
    if rows != [] {
      var n := |rows| - 1;
      HarmlessPrefix(rows);
      HarmlessBarriersSort(rows[..n]);
      var s := StableSorted(rows[..n]);
      if rows[n].ts.Some? {
        forall i, k | 0 <= i < k < |s| && s[k].ts.None? && s[i].ts.Some? ensures s[i].ts.value <= rows[n].ts.value {
          NextRowMayMove(rows, i, k);
        }
      }
      MoveLeftSorts(s, rows[n]);
    }
  }

  lemma SortedOnlyIfHarmless(rows: seq<ParsedRow>, i: nat, k: nat, j: nat)
    requires i < k < j < |rows| && rows[i].ts.Some? && rows[k].ts.None? && rows[j].ts.Some?
    requires TimedChronological(StableSorted(rows))
    ensures rows[i].ts.value <= rows[j].ts.value
  {
    var s := StableSorted(rows);
    BarrierSeparates(rows, k);
    hide StableSorted;
    assert rows[i] == rows[..k][i] && rows[i] in multiset(s[..k]);
    assert rows[j] == rows[k + 1..][j - k - 1] && rows[j] in multiset(s[k + 1..]);
    var a :| 0 <= a < k && s[..k][a] == rows[i];
    var b :| 0 <= b < |s| - k - 1 && s[k + 1..][b] == rows[j];
    assert s[a] == rows[i] && s[k + 1 + b] == rows[j];
  }

  /**
   The readable rows come out in time order if and only if no row was uploaded after a
   later one with an unreadable row in between.
   */
  lemma SortOrdersExactly(rows: seq<ParsedRow>)
    ensures TimedChronological(StableSorted(rows)) <==> BarriersAreHarmless(rows)
  {
    if BarriersAreHarmless(rows) {
      HarmlessBarriersSort(rows);
    }
    if TimedChronological(StableSorted(rows)) {
      forall k | 0 <= k < |rows| && rows[k].ts.None? ensures BarrierIsHarmless(rows, k) {
        forall i, j | 0 <= i < k < j < |rows| && rows[i].ts.Some? && rows[j].ts.Some?
          ensures rows[i].ts.value <= rows[j].ts.value
        {
          SortedOnlyIfHarmless(rows, i, k, j);
        }
      }
    }
  }
}
