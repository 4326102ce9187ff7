/**
 What the audit chain makes evident: which logs its last hash determines, and which
 edits and deletions verification pinpoints.
 */
module AuditTheorems {
  import opened Options
  import opened AuditText
  import opened AuditChain

  /** What is asked of the digest: no collisions, never empty, and hexadecimal, so free of bars. */
  ghost predicate GoodDigest(h: Digest) {
    && (forall a, b :: h(a) == h(b) ==> a == b)
    && (forall a :: h(a) != "" && BarFree(h(a)))
  }

  predicate RowsAdmissible(table: Table, log: seq<Entry>) {
    forall i :: 0 <= i < |log| ==> Admissible(table, log[i].columns)
  }

  predicate NoStrayBars(table: Table, log: seq<Entry>)
    requires RowsAdmissible(table, log)
  {
    forall i :: 0 <= i < |log| ==> NoStrayBar(table, log[i].columns)
  }

  /** The same hashed columns in every row, up to NULL against the empty string. */
  predicate SameRows(a: seq<Entry>, b: seq<Entry>) {
    |a| == |b| && forall i :: 0 <= i < |a| ==> SameText(a[i].columns, b[i].columns)
  }

  function LastHash(log: seq<Entry>): Column {
    if log == [] then None else log[|log| - 1].entryHash
  }

  lemma IntactPrevIsBarFree(h: Digest, log: seq<Entry>, i: nat)
    requires GoodDigest(h) && Intact(h, log) && i < |log|
    ensures BarFree(ExpectedPrev(log, i)) && (ExpectedPrev(log, i) == "" <==> i == 0)
  {
    if i > 0 {
      assert !Bad(h, log, i - 1);
    }
  }

  lemma IntactPrefix(h: Digest, log: seq<Entry>)
    requires Intact(h, log) && log != []
    ensures Intact(h, log[..|log| - 1])
  {
    var front := log[..|log| - 1];
    forall i | 0 <= i < |front| ensures !Bad(h, front, i) {
      assert !Bad(h, log, i);
    }
  }

  lemma IntactHasHashes(h: Digest, log: seq<Entry>)
    requires GoodDigest(h) && Intact(h, log)
    ensures LastHash(log).None? <==> log == []
    ensures log != [] ==> LastHash(log).value != ""
  {
    if log != [] {
      assert !Bad(h, log, |log| - 1);
    }
  }

  /** The last row of an intact log: its hash is the digest of its text after the hash of the rows before. */
  lemma LastRowIsHashed(table: Table, h: Digest, a: seq<Entry>)
    requires GoodDigest(h) && Intact(h, a) && a != [] && RowsAdmissible(table, a)
    ensures var m := |a| - 1;
            var p := ExpectedPrev(a, m);
            && LastHash(a) == Some(h(RowText(p, a[m].columns))) && p == Coalesce(LastHash(a[..m]))
            && BarFree(p) && Admissible(table, a[m].columns)
  {
    hide RowText, Admissible, BarFree;
    assert !Bad(h, a, |a| - 1);
    IntactPrevIsBarFree(h, a, |a| - 1);
  }

  lemma LastRowsAgree(table: Table, h: Digest, a: seq<Entry>, b: seq<Entry>)
    requires GoodDigest(h) && Intact(h, a) && Intact(h, b) && a != [] && b != []
    requires RowsAdmissible(table, a) && RowsAdmissible(table, b) && NoStrayBars(table, a)
    requires LastHash(a) == LastHash(b)
    ensures SameText(a[|a| - 1].columns, b[|b| - 1].columns)
    ensures Coalesce(LastHash(a[..|a| - 1])) == Coalesce(LastHash(b[..|b| - 1]))
  {
    hide RowText, Admissible, SameText, Intact, RowsAdmissible, ExpectedPrev, LastHash, BarFree, NoStrayBar;
    var m, n := |a| - 1, |b| - 1;
    var p, q := ExpectedPrev(a, m), ExpectedPrev(b, n);
    LastRowIsHashed(table, h, a);
    LastRowIsHashed(table, h, b);
    RowTextIsInjective(table, p, a[m].columns, q, b[n].columns);
  }

  lemma SameRowsOfMore(a: seq<Entry>, b: seq<Entry>)
    requires a != [] && b != [] && SameRows(a[..|a| - 1], b[..|b| - 1])
    requires SameText(a[|a| - 1].columns, b[|b| - 1].columns)
    ensures SameRows(a, b)
  {
    hide SameText;
    forall i | 0 <= i < |a| ensures SameText(a[i].columns, b[i].columns) {
      if i < |a| - 1 {
        assert SameText(a[..|a| - 1][i].columns, b[..|b| - 1][i].columns);
      }
    }
  }

  /**
   Two logs that both verify and end in the same entry_hash have the same length and
   the same hashed columns in every row, if one of them has no stray bar.
   */
  lemma {:induction false} LastHashDeterminesTheLog(table: Table, h: Digest, a: seq<Entry>, b: seq<Entry>)
    requires GoodDigest(h) && Intact(h, a) && Intact(h, b)
    requires RowsAdmissible(table, a) && RowsAdmissible(table, b) && NoStrayBars(table, a)
    requires LastHash(a) == LastHash(b)
    ensures SameRows(a, b)
    decreases |a|
  {
    IntactHasHashes(h, a);
    IntactHasHashes(h, b);
    if a != [] {
      var m, n := |a| - 1, |b| - 1;
      LastRowsAgree(table, h, a, b);
      IntactPrefix(h, a);
      IntactPrefix(h, b);
      IntactHasHashes(h, a[..m]);
      IntactHasHashes(h, b[..n]);
      hide Intact, Admissible, NoStrayBar, GoodDigest;
      LastHashDeterminesTheLog(table, h, a[..m], b[..n]);
      hide SameRows;
      SameRowsOfMore(a, b);
    }
  }

  // ---------- single edits ----------

  function Edited(log: seq<Entry>, i: nat, columns: seq<Column>): seq<Entry>
    requires i < |log|
  {
    log[i := log[i].(columns := columns)]
  }

  /**
   Editing the hashed columns of one row alone is detected exactly when it changes
   the row's text, and then as exactly one mismatch, at that row.
   */
  lemma EditIsPinpointed(h: Digest, log: seq<Entry>, i: nat, columns: seq<Column>)
    requires GoodDigest(h) && Intact(h, log) && i < |log|
    ensures var unnoticed := RowText(ExpectedPrev(log, i), columns) == RowText(ExpectedPrev(log, i), log[i].columns);
            && (Intact(h, Edited(log, i, columns)) <==> unnoticed)
            && Verify(h, Edited(log, i, columns)) == if unnoticed then Report(0, None) else Report(1, Some(log[i].id))
  {
    var after := Edited(log, i, columns);
    assert !Bad(h, log, i);
    forall j | 0 <= j < |log| && j != i ensures !Bad(h, after, j) {
      assert !Bad(h, log, j);
    }
    assert Bad(h, after, i) <==> RowText(ExpectedPrev(log, i), columns) != RowText(ExpectedPrev(log, i), log[i].columns);
    if Bad(h, after, i) {
      SingleMismatch(h, after, i, |after|);
    } else {
      NoMismatch(h, after, |after|);
    }
  }

  lemma {:induction false} NoMismatch(h: Digest, log: seq<Entry>, n: nat)
    requires n <= |log| && Intact(h, log)
    ensures VerifyFirst(h, log, n) == Report(0, None)
  {
    if n > 0 {
      NoMismatch(h, log, n - 1);
    }
  }

  /** Overwriting a row's prev_hash alone, with another value or NULL, is one mismatch at that row. */
  lemma PrevHashEditIsPinpointed(h: Digest, log: seq<Entry>, i: nat, prevHash: Column)
    requires Intact(h, log) && i < |log| && prevHash != log[i].prevHash
    ensures Verify(h, log[i := log[i].(prevHash := prevHash)]) == Report(1, Some(log[i].id))
  {
    var after := log[i := log[i].(prevHash := prevHash)];
    assert !Bad(h, log, i);
    forall j | 0 <= j < |log| && j != i ensures !Bad(h, after, j) {
      assert !Bad(h, log, j);
    }
    SingleMismatch(h, after, i, |after|);
  }

  /** Overwriting a row's entry_hash alone is a mismatch at that row and, as its link is broken, at the next. */
  lemma EntryHashEditIsPinpointed(h: Digest, log: seq<Entry>, i: nat, entryHash: Column)
    requires Intact(h, log) && Ordered(log) && i < |log| && Coalesce(entryHash) != Coalesce(log[i].entryHash)
    ensures Verify(h, log[i := log[i].(entryHash := entryHash)]) == Report(if i + 1 < |log| then 2 else 1, Some(log[i].id))
  {
    var after := log[i := log[i].(entryHash := entryHash)];
    assert !Bad(h, log, i);
    forall j | 0 <= j < |log| ensures Bad(h, after, j) <==> j == i || j == i + 1 {
      assert !Bad(h, log, j);
    }
    hide Bad, Intact;
    TwoMismatches(h, after, i, |after|);
  }

  lemma {:induction false} TwoMismatches(h: Digest, log: seq<Entry>, i: nat, n: nat)
    requires i < |log| && n <= |log| && Ordered(log)
    requires forall j :: 0 <= j < |log| ==> (Bad(h, log, j) <==> j == i || j == i + 1)
    ensures VerifyFirst(h, log, n) == if n <= i then Report(0, None) else Report(if n == i + 1 then 1 else 2, Some(log[i].id))
  {
    if n > 0 {
      TwoMismatches(h, log, i, n - 1);
    }
  }

  ghost predicate Pinpointed(table: Table, h: Digest, log: seq<Entry>, i: nat, columns: seq<Column>)
    requires i < |log|
  {
    Admissible(table, columns) && columns != log[i].columns ==> Verify(h, Edited(log, i, columns)) == Report(1, Some(log[i].id))
  }

  /** A NULL or empty target type or id can be changed into the other without changing the text. */
  lemma BlankTargetSwaps(p: string, cs: seq<Column>) returns (ds: seq<Column>)
    requires Admissible(UserActionLog, cs) && !NoBlankTarget(UserActionLog, cs)
    ensures Admissible(UserActionLog, ds) && ds != cs && RowText(p, ds) == RowText(p, cs)
  {
    var k := if Coalesce(cs[2]) == "" then 2 else 3;
    ds := cs[k := if cs[k].None? then Some("") else None];
    assert cs[k] != ds[k];
    hide RowText, JsonText;
    MovedBoundary(p, cs, ds);
  }

  lemma UnnoticedEdit(table: Table, p: string, cs: seq<Column>) returns (ds: seq<Column>)
    requires Admissible(table, cs) && !(NoStrayBar(table, cs) && NoBlankTarget(table, cs))
    ensures Admissible(table, ds) && ds != cs && RowText(p, ds) == RowText(p, cs)
  {
    if !NoStrayBar(table, cs) {
      ds := StrayBarMovesTheBoundary(p, cs);
    } else {
      ds := BlankTargetSwaps(p, cs);
    }
  }

  /**
   Every edit of a row's hashed columns is pinpointed if and only if the row has no
   stray bar and no NULL or empty target; in the ingestion log, always.
   */
  lemma EveryEditIsPinpointed(table: Table, h: Digest, log: seq<Entry>, i: nat)
    requires GoodDigest(h) && Intact(h, log) && i < |log| && Admissible(table, log[i].columns)
    ensures (forall columns :: Pinpointed(table, h, log, i, columns))
            <==> (NoStrayBar(table, log[i].columns) && NoBlankTarget(table, log[i].columns))
  {
    var cs, p := log[i].columns, ExpectedPrev(log, i);
    IntactPrevIsBarFree(h, log, i);
    hide RowText, Intact, GoodDigest, JsonText, ExpectedPrev;
    if NoStrayBar(table, cs) && NoBlankTarget(table, cs) {
      hide Admissible;
      forall ds ensures Pinpointed(table, h, log, i, ds) {
        if Admissible(table, ds) && ds != cs {
          EditIsPinpointed(h, log, i, ds);
          if RowText(p, ds) == RowText(p, cs) {
            RowTextIsInjective(table, p, cs, p, ds);
            SameTextIsEquality(table, cs, ds);
          }
        }
      }
    } else {
      hide Admissible;
      var ds := UnnoticedEdit(table, p, cs);
      EditIsPinpointed(h, log, i, ds);
      assert !Pinpointed(table, h, log, i, ds);
    }
  }

  // ---------- tamper evidence ----------

  /** Two logs of a table in id order, both verifying with zero mismatches and ending in the same hash. */
  ghost predicate Indistinguishable(table: Table, h: Digest, a: seq<Entry>, b: seq<Entry>) {
    && Ordered(a) && Ordered(b) && RowsAdmissible(table, a) && RowsAdmissible(table, b)
    && Verify(h, a).mismatchCount == 0 && Verify(h, b).mismatchCount == 0 && LastHash(a) == LastHash(b)
  }

  /** An edit that keeps the row text gives an indistinguishable log. */
  lemma EditedDouble(table: Table, h: Digest, a: seq<Entry>, i: nat, ds: seq<Column>)
    requires GoodDigest(h) && Ordered(a) && Intact(h, a) && RowsAdmissible(table, a) && i < |a|
    requires Admissible(table, ds) && RowText(ExpectedPrev(a, i), ds) == RowText(ExpectedPrev(a, i), a[i].columns)
    ensures Indistinguishable(table, h, a, Edited(a, i, ds))
  {
    hide RowText, Admissible, GoodDigest, Bad, Verify;
    EditIsPinpointed(h, a, i, ds);
    assert Ordered(Edited(a, i, ds)) && RowsAdmissible(table, Edited(a, i, ds));
    hide Intact;
    VerifyFindsTheFirstBadRow(h, a);
  }

  /** A log with a stray bar has a double. */
  lemma StrayBarHasADouble(table: Table, h: Digest, a: seq<Entry>) returns (b: seq<Entry>)
    requires GoodDigest(h) && Ordered(a) && Intact(h, a) && RowsAdmissible(table, a) && !NoStrayBars(table, a)
    ensures Indistinguishable(table, h, a, b) && !SameRows(a, b)
  {
    hide RowText, Admissible, GoodDigest, Intact, Indistinguishable, ExpectedPrev, Ordered;
    var i :| 0 <= i < |a| && !NoStrayBar(table, a[i].columns);
    var ds := StrayBarMovesTheBoundary(ExpectedPrev(a, i), a[i].columns);
    hide NoStrayBar, SameText;
    b := Edited(a, i, ds);
    EditedDouble(table, h, a, i, ds);
    assert !SameText(a[i].columns, b[i].columns);
  }

  /**
   Tamper evidence, exactly: no log verifies with the same last hash but other hashed
   columns (up to NULL against the empty string) if and only if the log has no stray bar.
   */
  lemma TamperEvidence(table: Table, h: Digest, a: seq<Entry>)
    requires GoodDigest(h) && Ordered(a) && RowsAdmissible(table, a) && Verify(h, a).mismatchCount == 0
    ensures (forall b :: Indistinguishable(table, h, a, b) ==> SameRows(a, b)) <==> NoStrayBars(table, a)
  {
    VerifyFindsTheFirstBadRow(h, a);
    hide Verify, Intact, Admissible, SameRows, GoodDigest, Ordered, NoStrayBar;
    if NoStrayBars(table, a) {
      forall b | Indistinguishable(table, h, a, b) ensures SameRows(a, b) {
        VerifyFindsTheFirstBadRow(h, b);
        LastHashDeterminesTheLog(table, h, a, b);
      }
    } else {
      var b := StrayBarHasADouble(table, h, a);
    }
  }

  function Columns(log: seq<Entry>): seq<seq<Column>> {
    seq(|log|, i requires 0 <= i < |log| => log[i].columns)
  }

  /** The ingestion log is tamper-evident whatever device ids the topics carry: its payloads are JSON. */
  lemma IngestionLogIsTamperEvident(h: Digest, a: seq<Entry>, b: seq<Entry>)
    requires GoodDigest(h) && Indistinguishable(IngestionLog, h, a, b)
    ensures Columns(a) == Columns(b)
  {
    TamperEvidence(IngestionLog, h, a);
    forall i | 0 <= i < |a| ensures a[i].columns == b[i].columns {
      SameTextIsEquality(IngestionLog, a[i].columns, b[i].columns);
    }
  }

  /** The user action log is tamper-evident exactly while no action, target type or target id holds a bar. */
  lemma UserActionLogIsTamperEvident(h: Digest, a: seq<Entry>)
    requires GoodDigest(h) && Ordered(a) && RowsAdmissible(UserActionLog, a) && Verify(h, a).mismatchCount == 0
    ensures (forall b :: Indistinguishable(UserActionLog, h, a, b) ==> SameRows(a, b))
            <==> forall i :: 0 <= i < |a| ==>
                   var c := a[i].columns; BarFree(Coalesce(c[1])) && BarFree(Coalesce(c[2])) && BarFree(Coalesce(c[3]))
  {
    TamperEvidence(UserActionLog, h, a);
    hide SameRows, Indistinguishable, Verify, GoodDigest;
    assert NoStrayBars(UserActionLog, a) <==> forall i :: 0 <= i < |a| ==> NoStrayBar(UserActionLog, a[i].columns);
  }

  /** The two ways to read one text: an e-mail with a bar, or a target type with one. */
  lemma EmailTexts(actor: string, front: string, back: string, time: string)
    requires actor != "" && BarFree(actor) && BarFree(time)
    ensures var x := UserActionColumns(Some(actor), "user.self_signup", Some("user"), Some(front + "|" + back), None, time);
            var y := UserActionColumns(Some(actor), "user.self_signup", Some("user|" + front), Some(back), None, time);
            Admissible(UserActionLog, x) && Admissible(UserActionLog, y) && RowText("", x) == RowText("", y) && !SameText(x, y)
  {
    hide RowText, BarFree, Joined;
    var x := UserActionColumns(Some(actor), "user.self_signup", Some("user"), Some(front + "|" + back), None, time);
    var y := UserActionColumns(Some(actor), "user.self_signup", Some("user|" + front), Some(back), None, time);
    MoveLeftOrRight("user.self_signup", "user", front, back);
    assert "user" + "|" + front == "user|" + front;
    assert Middle(x) == Middle(y);
    MovedBoundary("", x, y);
    assert |Coalesce(x[3])| > |Coalesce(y[3])|;
  }

  /**
   It happens: target ids are e-mail addresses at sign-up, which may hold a bar; two
   different one-row logs then verify with the same hash.
   */
  lemma BarInAnEmailHidesTampering(h: Digest, actor: string, front: string, back: string, time: string)
    requires actor != "" && BarFree(actor) && BarFree(time)
    ensures var x := UserActionColumns(Some(actor), "user.self_signup", Some("user"), Some(front + "|" + back), None, time);
            var y := UserActionColumns(Some(actor), "user.self_signup", Some("user|" + front), Some(back), None, time);
            var a, b := Built(h, [(1, x)]), Built(h, [(1, y)]);
            Indistinguishable(UserActionLog, h, a, b) && !SameRows(a, b)
  {
    hide *;
    var x := UserActionColumns(Some(actor), "user.self_signup", Some("user"), Some(front + "|" + back), None, time);
    var y := UserActionColumns(Some(actor), "user.self_signup", Some("user|" + front), Some(back), None, time);
    EmailTexts(actor, front, back, time);
    OneRowDoubles(h, x, y);
  }

  lemma OneRowDoubles(h: Digest, x: seq<Column>, y: seq<Column>)
    requires Admissible(UserActionLog, x) && Admissible(UserActionLog, y) && RowText("", x) == RowText("", y) && !SameText(x, y)
    ensures var a, b := Built(h, [(1, x)]), Built(h, [(1, y)]);
            Indistinguishable(UserActionLog, h, a, b) && !SameRows(a, b)
  {
    var a, b := Built(h, [(1, x)]), Built(h, [(1, y)]);
    BuiltLogsVerify(h, [(1, x)]);
    BuiltLogsVerify(h, [(1, y)]);
    assert !Bad(h, a, 0) && !Bad(h, b, 0);
    hide RowText, Admissible, SameText, Built, Bad, Verify;
    VerifyFindsTheFirstBadRow(h, a);
    VerifyFindsTheFirstBadRow(h, b);
    assert a[0].columns == x && b[0].columns == y;
  }

  // ---------- deletion ----------

  /** In an intact log no row hashes to its own predecessor's hash: going back, the first row would hash to nothing. */
  lemma {:induction false} HashesMoveOn(h: Digest, log: seq<Entry>, i: nat)
    requires GoodDigest(h) && Intact(h, log) && i < |log| && forall j :: 0 <= j < |log| ==> log[j].columns != []
    ensures Coalesce(log[i].entryHash) != ExpectedPrev(log, i)
  {
    assert !Bad(h, log, i);
    if i > 0 {
      assert !Bad(h, log, i - 1);
      HashesMoveOn(h, log, i - 1);
      IntactPrevIsBarFree(h, log, i);
      IntactPrevIsBarFree(h, log, i - 1);
      var p, q := ExpectedPrev(log, i), ExpectedPrev(log, i - 1);
      var s := StartsWithPrev(p, log[i].columns);
      var t := StartsWithPrev(q, log[i - 1].columns);
      if RowText(p, log[i].columns) == RowText(q, log[i - 1].columns) {
        SplitAtFirstBar(p, s, q, t);
      }
    }
  }

  /** Deleting a row is pinpointed at the row after it; only deleting from the end goes unnoticed by verification. */
  lemma DeletionIsPinpointed(h: Digest, log: seq<Entry>, i: nat)
    requires GoodDigest(h) && Intact(h, log) && i < |log| && forall j :: 0 <= j < |log| ==> log[j].columns != []
    ensures Verify(h, log[..i] + log[i + 1..])
            == if i == |log| - 1 then Report(0, None) else Report(1, Some(log[i + 1].id))
  {
    var after := log[..i] + log[i + 1..];
    forall j | 0 <= j < |after| ensures Bad(h, after, j) <==> j == i {
      if j < i {
        assert !Bad(h, log, j);
      } else {
        assert !Bad(h, log, j + 1) && !Bad(h, log, j);
        if j == i {
          HashesMoveOn(h, log, i);
        }
      }
    }
    if i == |log| - 1 {
      NoMismatch(h, after, |after|);
    } else {
      SingleMismatch(h, after, i, |after|);
    }
  }
}
