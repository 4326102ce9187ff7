/**
 The public sandbox upload (internal/registry/sandbox.go), from the sort onward.
 Rows arrive as the CSV reader left them.  Go's stable sort is an in-place insertion
 sort up to 20 rows and merges such blocks beyond; the two agree whenever the comparator
 is an order, which it is when every timestamp is readable.
 */
module Sandbox {
  import opened Options
  import opened TelemetryRules

  datatype ParsedRow = ParsedRow(
    rowNumber: nat,
    ts: Option<Instant>,
    power: Option<real>,
    energy: Option<real>,
    voltage: Option<real>,
    rssi: Option<int>,
    status: string)
  {
    /** The reader stops at the first of the three required columns it cannot read. */
    predicate ParseFailed() {
      ts.None? || power.None? || energy.None?
    }
  }

  datatype Rejection = Unparseable | Implausible(reason: ValidationError)

  datatype RowResult = RowResult(row: ParsedRow, rejection: Option<Rejection>, provenance: Option<Provenance>, isReset: bool) {
    predicate Accepted() {
      rejection.None?
    }
  }

  datatype UploadResult = UploadResult(rowCount: nat, acceptedCount: nat, rejectedCount: nat, readings: seq<RowResult>)

  const MAX_ROWS: nat := 2000

  // ---------- the sort ----------

  /** The comparator: rows without a timestamp compare as neither before nor after anything. */
  predicate Before(a: ParsedRow, b: ParsedRow) {
    a.ts.Some? && b.ts.Some? && a.ts.value < b.ts.value
  }

  /** `x` moved left past everything it is before. */
  function MoveLeft(s: seq<ParsedRow>, x: ParsedRow): (r: seq<ParsedRow>)
    ensures |r| == |s| + 1
  {
    if s == [] || !Before(x, s[|s| - 1]) then s + [x] else MoveLeft(s[..|s| - 1], x) + [s[|s| - 1]]
  }

  function StableSorted(rows: seq<ParsedRow>): (r: seq<ParsedRow>)
    ensures |r| == |rows|
  {
    if rows == [] then [] else MoveLeft(StableSorted(rows[..|rows| - 1]), rows[|rows| - 1])
  }

  lemma SortedOfOneMore(rows: seq<ParsedRow>, i: nat)
    requires i < |rows|
    ensures StableSorted(rows[..i + 1]) == MoveLeft(StableSorted(rows[..i]), rows[i])
    ensures rows[i..] == [rows[i]] + rows[i + 1..]
  {
    assert rows[..i + 1][..i] == rows[..i];
  }

  /** Splitting `s` followed by `t` at the length of `s`. */
  lemma SplitAfter(whole: seq<ParsedRow>, s: seq<ParsedRow>, x: ParsedRow, t: seq<ParsedRow>)
    requires whole == s + ([x] + t)
    ensures whole[..|s|] == s && whole[|s|] == x && whole[|s| + 1..] == t
  {
  }

  predicate AllTimed(rows: seq<ParsedRow>) {
    forall i :: 0 <= i < |rows| ==> rows[i].ts.Some?
  }

  const INSERTION_SORT_BLOCK: nat := 20

  /** Where the outcome of Go's sort is that of the insertion sort. */
  predicate SortIsDetermined(rows: seq<ParsedRow>) {
    |rows| <= INSERTION_SORT_BLOCK || AllTimed(rows)
  }

  /** What the sort promises: the same rows, and the insertion sort's order where it is determined. */
  ghost predicate IsSortOf(rows: seq<ParsedRow>, sorted: seq<ParsedRow>) {
    multiset(sorted) == multiset(rows) && (SortIsDetermined(rows) ==> sorted == StableSorted(rows))
  }

  lemma {:induction false} MoveLeftPermutes(s: seq<ParsedRow>, x: ParsedRow)
    ensures multiset(MoveLeft(s, x)) == multiset(s) + multiset{x}
    decreases |s|
  {
    if s != [] && Before(x, s[|s| - 1]) {
      MoveLeftPermutes(s[..|s| - 1], x);
      assert s == s[..|s| - 1] + [s[|s| - 1]];
    }
  }

  /** Whatever the timestamps, no row is lost, invented or duplicated. */
  lemma {:induction false} SortPermutes(rows: seq<ParsedRow>)
    ensures multiset(StableSorted(rows)) == multiset(rows)
    decreases |rows|
  {
    if rows != [] {
      var n := |rows| - 1;
      SortPermutes(rows[..n]);
      MoveLeftPermutes(StableSorted(rows[..n]), rows[n]);
      assert rows == rows[..n] + [rows[n]];
    }
  }

  method SortStable(a: array<ParsedRow>)
    modifies a
    ensures IsSortOf(old(a[..]), a[..])
  {
    ghost var was := a[..];
    SortPermutes(was);
    assert StableSorted(was[..0]) + was[0..] == was;
    hide StableSorted, MoveLeft;
    var i := 0;
    while i < a.Length
      invariant 0 <= i <= a.Length
      invariant a[..] == StableSorted(was[..i]) + was[i..]
    {
      SortedOfOneMore(was, i);
      SplitAfter(a[..], StableSorted(was[..i]), was[i], was[i + 1..]);
      SinkInto(a, i);
      i := i + 1;
    }
    assert was[..i] == was && was[i..] == [];
  }

  /** The inner loop: swap row `i` left while it is before its neighbour. */
  method SinkInto(a: array<ParsedRow>, i: nat)
    requires i < a.Length
    modifies a
    ensures a[..] == MoveLeft(old(a[..i]), old(a[i])) + old(a[i + 1..])
  {
    ghost var s, x, rest := a[..i], a[i], a[i + 1..];
    var j := i;
    assert a[..] == Placed(s, x, rest, i) && s[..i] == s;
    while j > 0 && Before(a[j], a[j - 1])
      invariant 0 <= j <= i
      invariant a[..] == Placed(s, x, rest, j)
      invariant MoveLeft(s[..j], x) + s[j..] == MoveLeft(s, x)
    {
      assert a[j] == a[..][j] && a[j - 1] == a[..][j - 1];
      PlacedStep(s, x, rest, j);
      a[j], a[j - 1] := a[j - 1], a[j];
      j := j - 1;
    }
    if j > 0 {
      assert a[j] == a[..][j] && a[j - 1] == a[..][j - 1];
    }
    assert MoveLeft(s[..j], x) == s[..j] + [x];
  }

  /** `s` followed by `rest`, with `x` at position `j` of `s`. */
  ghost function Placed(s: seq<ParsedRow>, x: ParsedRow, rest: seq<ParsedRow>, j: nat): (r: seq<ParsedRow>)
    requires j <= |s|
    ensures |r| == |s| + 1 + |rest|
    ensures r[j] == x && (j > 0 ==> r[j - 1] == s[j - 1])
  {
    s[..j] + [x] + s[j..] + rest
  }

  lemma PlacedStep(s: seq<ParsedRow>, x: ParsedRow, rest: seq<ParsedRow>, j: nat)
    requires 0 < j <= |s| && Before(x, s[j - 1])
    ensures Placed(s, x, rest, j)[j := s[j - 1]][j - 1 := x] == Placed(s, x, rest, j - 1)
    ensures MoveLeft(s[..j], x) + s[j..] == MoveLeft(s[..j - 1], x) + s[j - 1..]
  {
    assert s[..j][..j - 1] == s[..j - 1];
    assert [s[j - 1]] + s[j..] == s[j - 1..];
  }

  // ---------- the verdicts ----------

  function SandboxPayload(r: ParsedRow): Payload
    requires !r.ParseFailed()
  {
    Payload("sandbox", r.ts, r.power.value, r.energy.value, r.status, None, None, None,
            Extras(r.voltage, r.rssi, None, None, None, None))
  }

  /** The verdict on one row when `previous` is the counter of the last accepted row. */
  function JudgeRow(r: ParsedRow, previous: Option<real>, maxPlausibleKW: real, now: Instant): RowResult {
    if r.ParseFailed() then RowResult(r, Some(Unparseable), None, false)
    else
      match Validate(SandboxPayload(r), maxPlausibleKW)
      case Err(e) => RowResult(r, Some(Implausible(e)), None, false)
      case Ok(_) => RowResult(r, None, Some(ClassifyProvenance(r.ts.value, now)), DetectEnergyReset(previous, r.energy.value))
  }

  function LastAccepted(results: seq<RowResult>): Option<ParsedRow> {
    if results == [] then None
    else if results[|results| - 1].Accepted() then Some(results[|results| - 1].row)
    else LastAccepted(results[..|results| - 1])
  }

  function PreviousEnergyIn(results: seq<RowResult>): Option<real> {
    if LastAccepted(results).Some? then LastAccepted(results).value.energy else None
  }

  /** The verdicts on rows taken in the given order. */
  function Judged(rows: seq<ParsedRow>, maxPlausibleKW: real, now: Instant): (r: seq<RowResult>)
    ensures |r| == |rows|
  {
    if rows == [] then []
    else
      var before := Judged(rows[..|rows| - 1], maxPlausibleKW, now);
      before + [JudgeRow(rows[|rows| - 1], PreviousEnergyIn(before), maxPlausibleKW, now)]
  }

  function CountAccepted(results: seq<RowResult>): (n: nat)
    ensures n <= |results|
  {
    if results == [] then 0
    else CountAccepted(results[..|results| - 1]) + if results[|results| - 1].Accepted() then 1 else 0
  }

  lemma OneMoreResult(results: seq<RowResult>, res: RowResult)
    ensures CountAccepted(results + [res]) == CountAccepted(results) + if res.Accepted() then 1 else 0
    ensures PreviousEnergyIn(results + [res]) == if res.Accepted() then res.row.energy else PreviousEnergyIn(results)
  {
    assert (results + [res])[..|results|] == results;
  }

  lemma NoResultsYet(maxPlausibleKW: real, now: Instant)
    ensures Judged([], maxPlausibleKW, now) == [] && PreviousEnergyIn([]) == None && CountAccepted([]) == 0
  {
  }

  lemma OneMoreRow(rows: seq<ParsedRow>, i: nat, maxPlausibleKW: real, now: Instant)
    requires i < |rows|
    ensures var before := Judged(rows[..i], maxPlausibleKW, now);
            Judged(rows[..i + 1], maxPlausibleKW, now) == before + [JudgeRow(rows[i], PreviousEnergyIn(before), maxPlausibleKW, now)]
  {
    assert rows[..i + 1][..i] == rows[..i];
  }

  method Upload(rows: seq<ParsedRow>, systemSizeKW: Option<real>, now: Instant) returns (r: Option<UploadResult>)
    ensures r.None? <==> |rows| > MAX_ROWS
    ensures r.Some? ==>
              && (exists sorted :: IsSortOf(rows, sorted) && r.value.readings == Judged(sorted, PowerCeilingKW(systemSizeKW), now))
              && r.value.rowCount == |rows|
              && r.value.acceptedCount == CountAccepted(r.value.readings)
              && r.value.acceptedCount + r.value.rejectedCount == |rows|
  {
    hide IsSortOf, Judged, CountAccepted, LastAccepted, PreviousEnergyIn, Validate, DetectEnergyReset, ClassifyProvenance, PowerCeilingKW;
    if |rows| > MAX_ROWS {
      return None;
    }
    var a := new ParsedRow[|rows|](i requires 0 <= i < |rows| => rows[i]);
    assert a[..] == rows;
    SortStable(a);
    ghost var sorted := a[..];
    var maxPlausibleKW := PowerCeilingKW(systemSizeKW);
    var previousEnergy: Option<real> := None;
    var results: seq<RowResult> := [];
    var accepted, rejected: nat := 0, 0;
    NoResultsYet(maxPlausibleKW, now);
    for i := 0 to a.Length
      invariant a[..] == sorted && results == Judged(sorted[..i], maxPlausibleKW, now)
      invariant previousEnergy == PreviousEnergyIn(results)
      invariant accepted == CountAccepted(results) && accepted + rejected == i
    {
      var pr := a[i];
      OneMoreRow(sorted, i, maxPlausibleKW, now);
      var res := RowResult(pr, None, None, false);
      if pr.ParseFailed() {
        res := res.(rejection := Some(Unparseable));
        rejected := rejected + 1;
      } else {
        var v := Validate(SandboxPayload(pr), maxPlausibleKW);
        if v.Err? {
          res := res.(rejection := Some(Implausible(v.error)));
          rejected := rejected + 1;
        } else {
          var isReset := DetectEnergyReset(previousEnergy, pr.energy.value);
          res := res.(provenance := Some(ClassifyProvenance(pr.ts.value, now)), isReset := isReset);
          previousEnergy := pr.energy;
          accepted := accepted + 1;
        }
      }
      OneMoreResult(results, res);
      results := results + [res];
    }
    assert sorted[..a.Length] == sorted;
    assert IsSortOf(rows, sorted) && results == Judged(sorted, maxPlausibleKW, now);
    return Some(UploadResult(|results|, accepted, rejected, results));
  }
}
