/**
 The sandbox tells the truth: where the readable timestamps are distinct and no
 unreadable row keeps them out of order, an upload gets the verdicts, reset flags and
 provenance that the real ingestor gives the same rows replayed on a fresh device.
 */
module SandboxTheorems {
  import opened Options
  import opened TelemetryRules
  import opened Ingest
  import opened IngestTheorems
  import opened Sandbox
  import opened SandboxOrder

  // ---------- the results ----------

  function Rows(results: seq<RowResult>): seq<ParsedRow> {
    seq(|results|, i requires 0 <= i < |results| => results[i].row)
  }

  lemma {:induction false} ResultsAreTheRows(rows: seq<ParsedRow>, maxPlausibleKW: real, now: Instant)
    ensures Rows(Judged(rows, maxPlausibleKW, now)) == rows
    decreases |rows|
  {
    if rows != [] {
      ResultsAreTheRows(rows[..|rows| - 1], maxPlausibleKW, now);
      var before := Judged(rows[..|rows| - 1], maxPlausibleKW, now);
      assert Rows(Judged(rows, maxPlausibleKW, now)) == Rows(before) + [rows[|rows| - 1]];
    }
  }

  /** The results are the uploaded rows, each exactly once, whatever their timestamps. */
  lemma ResultsArePermutation(rows: seq<ParsedRow>, sorted: seq<ParsedRow>, maxPlausibleKW: real, now: Instant)
    requires IsSortOf(rows, sorted)
    ensures multiset(Rows(Judged(sorted, maxPlausibleKW, now))) == multiset(rows)
  {
    ResultsAreTheRows(sorted, maxPlausibleKW, now);
  }

  // ---------- replay through the ingestor ----------

  /** The message a datalogger would have sent for the row; a row that cannot be read is an undecodable message. */
  function MessageOf(device: string, r: ParsedRow): RawPayload {
    if r.ParseFailed() then Malformed else Mqtt(SandboxPayload(r).(deviceId := device))
  }

  ghost function Replayed(st: State, device: string, rows: seq<ParsedRow>, now: Instant): State {
    if rows == [] then st
    else Handled(Replayed(st, device, rows[..|rows| - 1], now), device, MessageOf(device, rows[|rows| - 1]), now, NO_FAULTS).0
  }

  ghost predicate Fresh(st: State, device: string, systemSizeKW: Option<real>) {
    && device != "" && device in st.devices && !st.devices[device].revoked
    && st.devices[device].systemSizeKW == systemSizeKW
    && (forall k :: k in st.telemetry ==> k.device != device)
  }

  /** The sandbox's memory of the last accepted row is the device's latest stored reading. */
  ghost predicate Tracks(t: Table, device: string, results: seq<RowResult>) {
    var last := LastAccepted(results);
    && (forall k :: k in t && k.device == device ==>
          last.Some? && last.value.ts.Some? && k.ts <= last.value.ts.value
          && exists i :: 0 <= i < |results| && results[i].row.ts == Some(k.ts))
    && (last.Some? ==>
          && last.value.ts.Some? && last.value.energy.Some?
          && Key(device, last.value.ts.value) in t
          && t[Key(device, last.value.ts.value)].reading.energyKWhTotal == last.value.energy.value)
  }

  /** Verdict, reset flag and provenance agree. */
  ghost predicate SameVerdict(res: RowResult, v: Verdict, t: Table, device: string) {
    && (res.Accepted() <==> v.Stored?)
    && (res.rejection == Some(Unparseable) <==> v == Rejected(Unmarshal))
    && (forall e :: res.rejection == Some(Implausible(e)) <==> v == Rejected(Invalid(e)))
    && (v.Stored? ==>
          && !v.duplicate && Some(v.ts) == res.row.ts && Key(device, v.ts) in t
          && Some(t[Key(device, v.ts)].reading.provenance) == res.provenance
          && t[Key(device, v.ts)].energyReset == res.isReset)
  }

  /** No two readable rows have the same timestamp. */
  predicate DistinctTimes(rows: seq<ParsedRow>) {
    forall i, j :: 0 <= i < j < |rows| && rows[i].ts.Some? ==> rows[i].ts != rows[j].ts
  }

  lemma DeviceNameDoesNotMatter(r: ParsedRow, device: string, maxPlausibleKW: real)
    requires !r.ParseFailed() && device != ""
    ensures Validate(SandboxPayload(r), maxPlausibleKW) == Validate(SandboxPayload(r).(deviceId := device), maxPlausibleKW)
  {
  }

  lemma PreviousIsTheLastAccepted(t: Table, device: string, results: seq<RowResult>, ts: Instant)
    requires Tracks(t, device, results)
    requires forall k :: k in t && k.device == device ==> k.ts < ts
    ensures PreviousEnergy(t, device, ts) == PreviousEnergyIn(results)
  {
    var last := LastAccepted(results);
    if last.Some? {
      assert Key(device, last.value.ts.value).ts < ts;
      PredecessorIsUnique(t, device, ts, Some(last.value.ts.value));
    } else {
      PredecessorIsUnique(t, device, ts, None);
    }
  }

  /** Everything stored for the device is earlier than a row later than all before it. */
  lemma StoredIsEarlier(t: Table, device: string, r: ParsedRow, results: seq<RowResult>)
    requires Tracks(t, device, results) && r.ts.Some?
    requires forall i :: 0 <= i < |results| && results[i].row.ts.Some? ==> results[i].row.ts.value < r.ts.value
    ensures forall k :: k in t && k.device == device ==> k.ts < r.ts.value
  {
    forall k | k in t && k.device == device ensures k.ts < r.ts.value {
      var i :| 0 <= i < |results| && results[i].row.ts == Some(k.ts);
    }
  }

  /** One more row: unreadable, or later than all readable ones before it. */
  lemma ReplayStep(st: State, device: string, r: ParsedRow, results: seq<RowResult>, now: Instant)
    requires device != "" && device in st.devices && !st.devices[device].revoked
    requires Tracks(st.telemetry, device, results)
    requires r.ts.Some? ==> forall i :: 0 <= i < |results| && results[i].row.ts.Some? ==> results[i].row.ts.value < r.ts.value
    ensures var ceiling := PowerCeilingKW(st.devices[device].systemSizeKW);
            var (st', v) := Handled(st, device, MessageOf(device, r), now, NO_FAULTS);
            var res := JudgeRow(r, PreviousEnergyIn(results), ceiling, now);
            && st'.devices == st.devices
            && SameVerdict(res, v, st'.telemetry, device)
            && Tracks(st'.telemetry, device, results + [res])
  {
    var ceiling := PowerCeilingKW(st.devices[device].systemSizeKW);
    var t := st.telemetry;
    var res := JudgeRow(r, PreviousEnergyIn(results), ceiling, now);
    KeepsTrack(t, device, results, res);
    if !r.ParseFailed() {
      StoredIsEarlier(t, device, r, results);
      DeviceNameDoesNotMatter(r, device, ceiling);
      PreviousIsTheLastAccepted(t, device, results, r.ts.value);
      hide Validate, Tracks, LastAccepted;
      if res.Accepted() {
        StoredKeepsTrack(st, device, r, results, res, now);
      }
    }
  }

  lemma KeepsTrack(t: Table, device: string, results: seq<RowResult>, res: RowResult)
    requires Tracks(t, device, results)
    ensures !res.Accepted() ==> Tracks(t, device, results + [res])
  {
    assert (results + [res])[..|results|] == results;
    if !res.Accepted() {
      forall k | k in t && k.device == device
        ensures exists i :: 0 <= i < |results + [res]| && (results + [res])[i].row.ts == Some(k.ts)
      {
        var i :| 0 <= i < |results| && results[i].row.ts == Some(k.ts);
        assert (results + [res])[i] == results[i];
      }
    }
  }

  lemma StoredKeepsTrack(st: State, device: string, r: ParsedRow, results: seq<RowResult>, res: RowResult, now: Instant)
    requires Tracks(st.telemetry, device, results) && !r.ParseFailed() && res.row == r && res.Accepted()
    requires forall k :: k in st.telemetry && k.device == device ==> k.ts < r.ts.value
    ensures forall row: Row :: row.reading.energyKWhTotal == r.energy.value ==>
              Tracks(st.telemetry[Key(device, r.ts.value) := row], device, results + [res])
  {
    var more := results + [res];
    assert more[|results|] == res;
    assert LastAccepted(more) == Some(r);
    forall row: Row | row.reading.energyKWhTotal == r.energy.value
      ensures Tracks(st.telemetry[Key(device, r.ts.value) := row], device, more)
    {
      var t' := st.telemetry[Key(device, r.ts.value) := row];
      forall k | k in t' && k.device == device
        ensures k.ts <= r.ts.value && exists i :: 0 <= i < |more| && more[i].row.ts == Some(k.ts)
      {
        if k == Key(device, r.ts.value) {
          assert more[|results|].row.ts == Some(k.ts);
        } else {
          var i :| 0 <= i < |results| && results[i].row.ts == Some(k.ts);
          assert more[i] == results[i];
        }
      }
    }
  }

  ghost function VerdictOn(st: State, device: string, rows: seq<ParsedRow>, i: nat, now: Instant): Verdict
    requires i < |rows|
  {
    Handled(Replayed(st, device, rows[..i], now), device, MessageOf(device, rows[i]), now, NO_FAULTS).1
  }

  lemma ReplayedOne(st: State, device: string, r: ParsedRow, now: Instant)
    ensures Extends(st.telemetry, Handled(st, device, MessageOf(device, r), now, NO_FAULTS).0.telemetry)
  {
    if device in st.devices && !r.ParseFailed() {
      JudgeExtends(st.telemetry, device, st.devices[device], MessageOf(device, r).payload, now, NO_FAULTS);
    }
    hide Judge;
  }

  lemma VerdictPersists(res: RowResult, v: Verdict, t: Table, t': Table, device: string)
    requires SameVerdict(res, v, t, device) && Extends(t, t')
    ensures SameVerdict(res, v, t', device)
  {
  }

  /** What holds after replaying `rows`: the device is tracked and every verdict so far agrees. */
  ghost predicate Agrees(st: State, device: string, rows: seq<ParsedRow>, ceiling: real, now: Instant) {
    var t := Replayed(st, device, rows, now).telemetry;
    && Replayed(st, device, rows, now).devices == st.devices
    && Tracks(t, device, Judged(rows, ceiling, now))
    && forall i :: 0 <= i < |rows| ==> SameVerdict(Judged(rows, ceiling, now)[i], VerdictOn(st, device, rows, i, now), t, device)
  }

  lemma {:induction false} ReplayAgrees(st: State, device: string, rows: seq<ParsedRow>, systemSizeKW: Option<real>, now: Instant)
    requires Fresh(st, device, systemSizeKW) && TimedChronological(rows) && DistinctTimes(rows)
    ensures Agrees(st, device, rows, PowerCeilingKW(systemSizeKW), now)
    decreases |rows|
  {
    if rows == [] {
      NothingToTrack(st, device, systemSizeKW);
    } else {
      var n := |rows| - 1;
      assert forall i :: 0 <= i < n ==> rows[..n][i] == rows[i];
      ReplayAgrees(st, device, rows[..n], systemSizeKW, now);
      hide Agrees;
      AgreesOnOneMore(st, device, rows, systemSizeKW, now);
    }
  }

  lemma AgreesOnOneMore(st: State, device: string, rows: seq<ParsedRow>, systemSizeKW: Option<real>, now: Instant)
    requires rows != [] && Fresh(st, device, systemSizeKW) && TimedChronological(rows) && DistinctTimes(rows)
    requires Agrees(st, device, rows[..|rows| - 1], PowerCeilingKW(systemSizeKW), now)
    ensures Agrees(st, device, rows, PowerCeilingKW(systemSizeKW), now)
  {
    hide Tracks, SameVerdict, Handled, Extends, JudgeRow, PowerCeilingKW;
    var n, ceiling := |rows| - 1, PowerCeilingKW(systemSizeKW);
    var front := rows[..n];
    var before, after := Replayed(st, device, front, now), Replayed(st, device, rows, now);
    var earlier := Judged(front, ceiling, now);
    forall i | 0 <= i < |earlier| && rows[n].ts.Some? && earlier[i].row.ts.Some? ensures earlier[i].row.ts.value < rows[n].ts.value {
      EarlierResultsAreEarlier(rows, ceiling, now, i);
    }
    ReplayStep(before, device, rows[n], earlier, now);
    ReplayedOne(before, device, rows[n], now);
    forall i | 0 <= i < n
      ensures SameVerdict(Judged(rows, ceiling, now)[i], VerdictOn(st, device, rows, i, now), after.telemetry, device)
    {
      assert front[..i] == rows[..i] && front[i] == rows[i];
      VerdictPersists(earlier[i], VerdictOn(st, device, front, i, now), before.telemetry, after.telemetry, device);
    }
  }

  lemma EarlierResultsAreEarlier(rows: seq<ParsedRow>, ceiling: real, now: Instant, i: nat)
    requires i + 1 < |rows| && TimedChronological(rows) && DistinctTimes(rows)
    ensures var earlier, r := Judged(rows[..|rows| - 1], ceiling, now)[i], rows[|rows| - 1];
            r.ts.Some? && earlier.row.ts.Some? ==> earlier.row.ts.value < r.ts.value
  {
    var n := |rows| - 1;
    ResultsAreTheRows(rows[..n], ceiling, now);
    assert Rows(Judged(rows[..n], ceiling, now))[i] == rows[..n][i] == rows[i];
    assert rows[i].ts.Some? ==> rows[i].ts != rows[n].ts;
  }

  lemma NothingToTrack(st: State, device: string, systemSizeKW: Option<real>)
    requires Fresh(st, device, systemSizeKW)
    ensures Tracks(st.telemetry, device, [])
  {
  }

  lemma {:induction false} RowsAt(rows: seq<ParsedRow>, ts: Option<Instant>)
    ensures forall r :: r in At(rows, ts) <==> r in rows && r.ts == ts
    decreases |rows|
  {
    if rows != [] {
      RowsAt(rows[..|rows| - 1], ts);
      assert rows == rows[..|rows| - 1] + [rows[|rows| - 1]];
    }
  }

  lemma {:induction false} TwiceAt(rows: seq<ParsedRow>, i: nat, j: nat)
    requires i < j < |rows| && rows[i].ts == rows[j].ts
    ensures |At(rows, rows[j].ts)| >= 2
    decreases |rows|
  {
    var n := |rows| - 1;
    if j < n {
      TwiceAt(rows[..n], i, j);
    } else {
      RowsAt(rows[..n], rows[j].ts);
      assert rows[..n][i] in At(rows[..n], rows[j].ts);
    }
  }

  lemma {:induction false} NoneAt(rows: seq<ParsedRow>, ts: Option<Instant>)
    requires forall i :: 0 <= i < |rows| ==> rows[i].ts != ts
    ensures At(rows, ts) == []
    decreases |rows|
  {
    if rows != [] {
      NoneAt(rows[..|rows| - 1], ts);
    }
  }

  lemma {:induction false} AtMostOnceAt(rows: seq<ParsedRow>, ts: Option<Instant>)
    requires DistinctTimes(rows) && ts.Some?
    ensures |At(rows, ts)| <= 1
    decreases |rows|
  {
    if rows != [] {
      var n := |rows| - 1;
      if rows[n].ts == ts {
        NoneAt(rows[..n], ts);
      } else {
        AtMostOnceAt(rows[..n], ts);
      }
    }
  }

  lemma SortKeepsDistinct(rows: seq<ParsedRow>)
    requires DistinctTimes(rows)
    ensures DistinctTimes(StableSorted(rows))
  {
    var sorted := StableSorted(rows);
    forall i, j | 0 <= i < j < |sorted| && sorted[i].ts.Some? ensures sorted[i].ts != sorted[j].ts {
      if sorted[i].ts == sorted[j].ts {
        SortIsStable(rows, sorted[j].ts);
        AtMostOnceAt(rows, sorted[j].ts);
        TwiceAt(sorted, i, j);
      }
    }
  }

  /**
   With distinct readable timestamps that no unreadable row keeps out of order, the
   upload's results are, row by row, what the ingestor says and stores when the same
   rows are replayed in time order on a fresh device of the same size with the same
   receive time, an unreadable row as a message that does not decode.
   */
  lemma SandboxMatchesTheIngestor(st: State, device: string, rows: seq<ParsedRow>, sorted: seq<ParsedRow>,
                                  systemSizeKW: Option<real>, now: Instant)
    requires Fresh(st, device, systemSizeKW) && DistinctTimes(rows)
    requires IsSortOf(rows, sorted) && SortIsDetermined(rows) && BarriersAreHarmless(rows)
    ensures var results, final := Judged(sorted, PowerCeilingKW(systemSizeKW), now), Replayed(st, device, sorted, now);
            && TimedChronological(sorted) && multiset(sorted) == multiset(rows)
            && forall i :: 0 <= i < |rows| ==>
                 results[i].row == sorted[i] && SameVerdict(results[i], VerdictOn(st, device, sorted, i, now), final.telemetry, device)
  {
    hide SameVerdict, Replayed, VerdictOn, Fresh;
    SortOrdersExactly(rows);
    SortKeepsDistinct(rows);
    ReplayAgrees(st, device, sorted, systemSizeKW, now);
    ResultsAreTheRows(sorted, PowerCeilingKW(systemSizeKW), now);
    forall i | 0 <= i < |rows| ensures Judged(sorted, PowerCeilingKW(systemSizeKW), now)[i].row == sorted[i] {
      assert Rows(Judged(sorted, PowerCeilingKW(systemSizeKW), now))[i] == sorted[i];
    }
    hide StableSorted, Judged, BarriersAreHarmless, TimedChronological, DistinctTimes, Tracks;
  }

  /** Three rows of which the second has no readable timestamp and the third is the earliest. */
  function BlockedRows(): seq<ParsedRow> {
    [ParsedRow(1, Some(3), Some(1.0), Some(30.0), None, None, "ok"),
     ParsedRow(2, None, None, None, None, None, "ok"),
     ParsedRow(3, Some(1), Some(1.0), Some(10.0), None, None, "ok")]
  }

  /** An unreadable timestamp stops the sort: the later row stays first and the earlier one is called a reset. */
  lemma UnreadableTimestampBlocksTheSort(now: Instant)
    ensures StableSorted(BlockedRows()) == BlockedRows()
    ensures var results := Judged(BlockedRows(), 100.0, now); results[2].Accepted() && results[2].isReset
  {
    SortOfBlocked();
    JudgeOfBlocked(now);
  }

  lemma SortOfBlocked()
    ensures StableSorted(BlockedRows()) == BlockedRows()
  {
    var rows := BlockedRows();
    assert rows[..2][..1] == rows[..1] && rows[..1][..0] == [];
    assert StableSorted(rows[..1]) == rows[..1];
    assert StableSorted(rows[..2]) == rows[..2];
  }

  lemma JudgeOfBlocked(now: Instant)
    ensures var results := Judged(BlockedRows(), 100.0, now); results[2].Accepted() && results[2].isReset
  {
    var rows := BlockedRows();
    var one, two := Judged(rows[..1], 100.0, now), Judged(rows[..2], 100.0, now);
    assert rows[..2][..1] == rows[..1] && rows[..1][..0] == [];
    assert one == [JudgeRow(rows[0], None, 100.0, now)];
    assert LastAccepted(one) == Some(rows[0]);
    assert two[..1] == one;
    assert LastAccepted(two) == Some(rows[0]) by {
      assert !two[1].Accepted();
    }
  }
}
