/**
 The hash-chained audit logs: the insert triggers of
 migrations/0013_audit_log_tamper_evidence.sql and the verification queries of
 internal/db/audit_verify.sql.go.  The digest is a parameter.
 */
module AuditChain {
  import opened Options
  import opened AuditText

  /** One row: its id, the hashed columns in hashing order, and the two chain columns. */
  datatype Entry = Entry(id: int, columns: seq<Column>, prevHash: Column, entryHash: Column)

  type Digest = string -> string

  /** coalesce(lag(entry_hash) OVER (ORDER BY id), ''). */
  function ExpectedPrev(log: seq<Entry>, i: nat): string
    requires i < |log|
  {
    if i == 0 then "" else Coalesce(log[i - 1].entryHash)
  }

  /** IS DISTINCT FROM on both chain columns: a NULL is a mismatch. */
  predicate Bad(h: Digest, log: seq<Entry>, i: nat)
    requires i < |log|
  {
    || log[i].entryHash != Some(h(RowText(ExpectedPrev(log, i), log[i].columns)))
    || log[i].prevHash != Some(ExpectedPrev(log, i))
  }

  /** The log in id order. */
  predicate Ordered(log: seq<Entry>) {
    forall i, j :: 0 <= i < j < |log| ==> log[i].id < log[j].id
  }

  datatype Report = Report(mismatchCount: nat, firstBadId: Option<int>)

  /** count(*) FILTER (WHERE bad), min(id) FILTER (WHERE bad). */
  function Verify(h: Digest, log: seq<Entry>): Report {
    VerifyFirst(h, log, |log|)
  }

  function VerifyFirst(h: Digest, log: seq<Entry>, n: nat): Report
    requires n <= |log|
  {
    if n == 0 then Report(0, None)
    else
      var before := VerifyFirst(h, log, n - 1);
      if Bad(h, log, n - 1) then
        Report(before.mismatchCount + 1,
               if before.firstBadId.None? || log[n - 1].id < before.firstBadId.value then Some(log[n - 1].id) else before.firstBadId)
      else before
  }

  // ---------- what the report says ----------

  lemma {:induction false} ReportOf(h: Digest, log: seq<Entry>, n: nat)
    requires Ordered(log) && n <= |log|
    ensures var r := VerifyFirst(h, log, n);
            && (r.mismatchCount == 0 <==> r.firstBadId.None?)
            && (r.mismatchCount == 0 <==> forall i :: 0 <= i < n ==> !Bad(h, log, i))
            && (r.firstBadId.Some? ==> exists i :: IsFirstBad(h, log, n, i) && log[i].id == r.firstBadId.value)
  {
    if n > 0 {
      ReportOf(h, log, n - 1);
      var before := VerifyFirst(h, log, n - 1);
      hide Bad, Ordered;
      if before.firstBadId.Some? {
        var i :| IsFirstBad(h, log, n - 1, i) && log[i].id == before.firstBadId.value;
        assert log[i].id < log[n - 1].id by {
          EarlierIdsAreSmaller(log, i, n - 1);
        }
        assert IsFirstBad(h, log, n, i);
      } else if Bad(h, log, n - 1) {
        assert IsFirstBad(h, log, n, n - 1);
      }
    }
  }

  lemma EarlierIdsAreSmaller(log: seq<Entry>, i: nat, j: nat)
    requires Ordered(log) && i < j < |log|
    ensures log[i].id < log[j].id
  {
  }

  predicate IsFirstBad(h: Digest, log: seq<Entry>, n: nat, i: int)
    requires n <= |log|
  {
    0 <= i < n && Bad(h, log, i) && forall j :: 0 <= j < i ==> !Bad(h, log, j)
  }

  /** Zero mismatches means every row is intact; otherwise the id reported is that of the earliest bad row. */
  lemma VerifyFindsTheFirstBadRow(h: Digest, log: seq<Entry>)
    requires Ordered(log)
    ensures Verify(h, log).mismatchCount == 0 <==> Intact(h, log)
    ensures Verify(h, log).firstBadId.None? <==> Intact(h, log)
    ensures Verify(h, log).firstBadId.Some? ==>
              exists i :: IsFirstBad(h, log, |log|, i) && log[i].id == Verify(h, log).firstBadId.value
  {
    ReportOf(h, log, |log|);
  }

  /** Exactly one bad row, the one at `i`. */
  lemma {:induction false} SingleMismatch(h: Digest, log: seq<Entry>, i: nat, n: nat)
    requires i < |log| && n <= |log|
    requires forall j :: 0 <= j < |log| ==> (Bad(h, log, j) <==> j == i)
    ensures VerifyFirst(h, log, n) == if n <= i then Report(0, None) else Report(1, Some(log[i].id))
  {
    if n > 0 {
      SingleMismatch(h, log, i, n - 1);
    }
  }

  // ---------- appending ----------

  /** The insert trigger's row, chained to the row with the greatest id. */
  function Appended(h: Digest, log: seq<Entry>, id: int, columns: seq<Column>): seq<Entry> {
    var prev := if log == [] then "" else Coalesce(log[|log| - 1].entryHash);
    log + [Entry(id, columns, Some(prev), Some(h(RowText(prev, columns))))]
  }

  predicate Intact(h: Digest, log: seq<Entry>) {
    forall i :: 0 <= i < |log| ==> !Bad(h, log, i)
  }

  class AuditLog {
    var rows: seq<Entry>
    ghost const h: Digest

    constructor (ghost digest: Digest)
      ensures rows == [] && h == digest
    {
      rows := [];
      h := digest;
    }

    /** Ids are handed out in increasing order; the rows before stay, and an intact log stays intact. */
    method Append(id: int, columns: seq<Column>, digest: Digest)
      requires digest == h
      requires Ordered(rows) && (rows != [] ==> rows[|rows| - 1].id < id)
      modifies this
      ensures |rows| == |old(rows)| + 1 && rows[..|old(rows)|] == old(rows)
      ensures rows[|old(rows)|].id == id && rows[|old(rows)|].columns == columns
      ensures Ordered(rows)
      ensures !Bad(h, rows, |old(rows)|)
      ensures Intact(h, rows) <==> Intact(h, old(rows))
      ensures rows == Appended(h, old(rows), id, columns)
    {
      ghost var before := rows;
      var prev: Column := None;
      if |rows| > 0 {
        prev := rows[|rows| - 1].entryHash;
      }
      var prevHash := Coalesce(prev);
      rows := rows + [Entry(id, columns, Some(prevHash), Some(digest(RowText(prevHash, columns))))];
      AppendingKeepsIntact(h, before, id, columns);
      hide Bad, Intact, RowText;
    }
  }

  /** Appending adds a good row and changes no other verdict, so every log built by the trigger verifies. */
  lemma AppendingKeepsIntact(h: Digest, log: seq<Entry>, id: int, columns: seq<Column>)
    ensures var after := Appended(h, log, id, columns);
            !Bad(h, after, |log|) && forall i :: 0 <= i < |log| ==> (Bad(h, after, i) <==> Bad(h, log, i))
    ensures Intact(h, Appended(h, log, id, columns)) <==> Intact(h, log)
  {
    var after := Appended(h, log, id, columns);
    forall i | 0 <= i < |log| ensures Bad(h, after, i) <==> Bad(h, log, i) {
      assert after[i] == log[i] && (i > 0 ==> after[i - 1] == log[i - 1]);
    }
    hide RowText;
    if Intact(h, log) {
      assert forall i :: 0 <= i < |after| ==> !Bad(h, after, i);
    } else {
      var i :| 0 <= i < |log| && Bad(h, log, i);
      assert Bad(h, after, i);
    }
  }

  function Built(h: Digest, inserts: seq<(int, seq<Column>)>): seq<Entry> {
    if inserts == [] then []
    else Appended(h, Built(h, inserts[..|inserts| - 1]), inserts[|inserts| - 1].0, inserts[|inserts| - 1].1)
  }

  lemma {:induction false} BuiltLogsVerify(h: Digest, inserts: seq<(int, seq<Column>)>)
    requires forall i, j :: 0 <= i < j < |inserts| ==> inserts[i].0 < inserts[j].0
    ensures |Built(h, inserts)| == |inserts|
    ensures forall i :: 0 <= i < |inserts| ==> Built(h, inserts)[i].id == inserts[i].0 && Built(h, inserts)[i].columns == inserts[i].1
    ensures Intact(h, Built(h, inserts))
    decreases |inserts|
  {
    if inserts != [] {
      var n := |inserts| - 1;
      BuiltLogsVerify(h, inserts[..n]);
      AppendingKeepsIntact(h, Built(h, inserts[..n]), inserts[n].0, inserts[n].1);
      hide Intact;
    }
  }
}
