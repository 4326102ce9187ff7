/**
 The text a row of an audit log is hashed over: the previous hash and the row's
 columns, joined by bars without escaping (internal/db/audit_verify.sql.go,
 migrations/0013_audit_log_tamper_evidence.sql), and when it determines the columns.
 */
module AuditText {
  import opened Options

  /** A column as stored; NULL hashes like the empty string. */
  type Column = Option<string>

  /** coalesce(column, ''). */
  function Coalesce(column: Column): string {
    if column.Some? then column.value else ""
  }

  /** prev || '|' || column || '|' || column ... */
  function RowText(prev: string, columns: seq<Column>): string {
    if columns == [] then prev else RowText(prev, columns[..|columns| - 1]) + "|" + Coalesce(columns[|columns| - 1])
  }

  /** Rows that differ at most in NULL against the empty string, which no hash can tell apart. */
  predicate SameText(cs: seq<Column>, ds: seq<Column>) {
    |cs| == |ds| && forall i :: 0 <= i < |cs| ==> Coalesce(cs[i]) == Coalesce(ds[i])
  }

  // ---------- the two tables ----------

  datatype Table = IngestionLog | UserActionLog

  /** Columns in the order the user action log hashes them; the ingestion log has device id, payload and received_at. */
  function UserActionColumns(actorUserId: Column, action: string, targetType: Column, targetId: Column, metadata: Column, createdAt: string): seq<Column> {
    [actorUserId, Some(action), targetType, targetId, metadata, Some(createdAt)]
  }

  /**
   What the schema lets a row hold: ids and instants print without a bar, payload and
   metadata are jsonb, and device id, action, target type and target id are any text.
   */
  predicate Admissible(table: Table, columns: seq<Column>) {
    match table
    case IngestionLog =>
      && |columns| == 3 && columns[0].Some? && columns[1].Some? && columns[2].Some?
      && JsonText(columns[1].value) && BarFree(columns[2].value)
    case UserActionLog =>
      && |columns| == 6 && columns[1].Some? && columns[5].Some?
      && (columns[0].Some? ==> columns[0].value != "" && BarFree(columns[0].value))
      && (columns[4].Some? ==> JsonText(columns[4].value)) && BarFree(columns[5].value)
  }

  /** Neither the action nor the target's type or id holds a bar; the ingestion log needs nothing of the kind. */
  predicate NoStrayBar(table: Table, columns: seq<Column>)
    requires Admissible(table, columns)
  {
    table.UserActionLog? ==> BarFree(Coalesce(columns[1])) && BarFree(Coalesce(columns[2])) && BarFree(Coalesce(columns[3]))
  }

  /** Neither the target's type nor its id is NULL or empty; the other columns cannot be both. */
  predicate NoBlankTarget(table: Table, columns: seq<Column>)
    requires Admissible(table, columns)
  {
    table.UserActionLog? ==> Coalesce(columns[2]) != "" && Coalesce(columns[3]) != ""
  }

  lemma SameTextIsEquality(table: Table, cs: seq<Column>, ds: seq<Column>)
    requires Admissible(table, cs) && Admissible(table, ds) && NoBlankTarget(table, cs) && SameText(cs, ds)
    ensures cs == ds
  {
    forall i | 0 <= i < |cs| ensures cs[i] == ds[i] {
      assert Coalesce(cs[i]) == Coalesce(ds[i]);
    }
  }

  // ---------- bars ----------

  predicate BarFree(s: string) {
    '|' !in s
  }

  /** The last part can be split off: it starts after the last bar. */
  lemma SplitAtLastBar(a: string, x: string, b: string, y: string)
    requires BarFree(x) && BarFree(y) && a + "|" + x == b + "|" + y
    ensures a == b && x == y
  {
    var s := a + "|" + x;
    assert s[|a|] == '|' && s[|b|] == '|';
    assert forall k :: |a| < k < |s| ==> s[k] == x[k - |a| - 1];
    assert forall k :: |b| < k < |s| ==> s[k] == y[k - |b| - 1];
    assert s[..|a|] == a && s[..|b|] == b && s[|a| + 1..] == x && s[|b| + 1..] == y;
  }

  /** So can the first: it ends before the first bar. */
  lemma SplitAtFirstBar(x: string, a: string, y: string, b: string)
    requires BarFree(x) && BarFree(y) && x + "|" + a == y + "|" + b
    ensures a == b && x == y
  {
    var s := x + "|" + a;
    assert s[|x|] == '|' && s[|y|] == '|';
    assert forall k :: 0 <= k < |x| ==> s[k] == x[k];
    assert forall k :: 0 <= k < |y| ==> s[k] == y[k];
    assert s[..|x|] == x && s[..|y|] == y && s[|x| + 1..] == a && s[|y| + 1..] == b;
  }

  function Joined(a: string, b: string, c: string): string {
    a + "|" + b + "|" + c
  }

  /** Three parts without bars are determined by their joined text alone: any other split has bars to spare. */
  lemma ThreePartsAreDetermined(a: string, b: string, c: string, x: string, y: string, z: string)
    requires BarFree(a) && BarFree(b) && BarFree(c) && Joined(a, b, c) == Joined(x, y, z)
    ensures a == x && b == y && c == z
  {
    BarsOfJoined(a, b, c);
    BarsOfJoined(x, y, z);
    assert BarFree(x) && BarFree(y) && BarFree(z);
    SplitAtLastBar(a + "|" + b, c, x + "|" + y, z);
    SplitAtLastBar(a, b, x, y);
  }

  lemma BarsOfJoined(a: string, b: string, c: string)
    ensures multiset(Joined(a, b, c))['|'] == multiset(a)['|'] + multiset(b)['|'] + multiset(c)['|'] + 2
  {
    assert multiset("|")['|'] == 1;
  }

  // ---------- JSON ----------

  /** Where a lexical scan of a JSON text stands; bars and backslashes occur inside strings only. */
  datatype Lex = Outside | Inside | Escaped | Broken

  function Next(l: Lex, c: char): Lex {
    match l
    case Outside => if c == '"' then Inside else if c == '|' || c == '\\' then Broken else Outside
    case Inside => if c == '"' then Outside else if c == '\\' then Escaped else Inside
    case Escaped => Inside
    case Broken => Broken
  }

  function Scan(l: Lex, s: string): Lex
    decreases |s|
  {
    if s == [] then l else Scan(Next(l, s[0]), s[1..])
  }

  /** Every JSON text satisfies this, so what holds of these texts holds of the text of every jsonb value. */
  predicate JsonText(s: string) {
    s != "" && Scan(Outside, s).Outside?
  }

  lemma {:induction false} ScanConcat(l: Lex, a: string, b: string)
    ensures Scan(l, a + b) == Scan(Scan(l, a), b)
    decreases |a|
  {
    if a == "" {
      assert a + b == b;
    } else {
      assert (a + b)[1..] == a[1..] + b;
      ScanConcat(Next(l, a[0]), a[1..], b);
    }
  }

  lemma {:induction false} ScanFromBroken(s: string)
    ensures Scan(Broken, s).Broken?
    decreases |s|
  {
    if s != "" {
      ScanFromBroken(s[1..]);
    }
  }

  /** Two scans on opposite sides of a quote never both end outside. */
  lemma {:induction false} OppositeScans(s: string)
    ensures !(Scan(Outside, s).Outside? && Scan(Inside, s).Outside?)
    decreases |s|
  {
    if s != "" {
      OppositeScans(s[1..]);
      ScanFromBroken(s[1..]);
    }
  }

  /** After a bar inside a JSON text no JSON text is left, nor is nothing. */
  lemma NoJsonAfterABar(a: string, b: string)
    requires JsonText(a + "|" + b)
    ensures !JsonText(b) && b != ""
  {
    ScanConcat(Outside, a + "|", b);
    ScanConcat(Outside, a, "|");
    ScanFromBroken(b);
    assert Scan(Scan(Outside, a), "|") == Next(Scan(Outside, a), '|') by {
      assert "|"[1..] == "";
    }
    OppositeScans(b);
  }

  predicate JsonOrNothing(s: string) {
    s == "" || JsonText(s)
  }

  /** A trailing JSON text, or nothing, can be split off whatever precedes it. */
  lemma SplitBeforeJson(d: string, j: string, e: string, k: string)
    requires JsonOrNothing(j) && JsonOrNothing(k) && d + "|" + j == e + "|" + k
    ensures d == e && j == k
  {
    if |d| < |e| {
      LongerFront(d, j, e, k);
    } else if |e| < |d| {
      LongerFront(e, k, d, j);
    } else {
      var s, t := d + "|" + j, e + "|" + k;
      assert s[..|d|] == d && t[..|e|] == e && s[|d| + 1..] == j && t[|e| + 1..] == k;
    }
  }

  lemma LongerFront(d: string, j: string, e: string, k: string)
    requires d + "|" + j == e + "|" + k && |d| < |e| && JsonOrNothing(k)
    ensures !JsonOrNothing(j)
  {
    var s, t := d + "|" + j, e + "|" + k;
    var x := e[|d| + 1..];
    assert j == s[|d| + 1..] == t[|d| + 1..];
    assert t[|d| + 1..] == x + "|" + k;
    if JsonText(j) {
      NoJsonAfterABar(x, k);
    }
  }

  // ---------- the text of a row ----------

  lemma OneMoreColumn(prev: string, cs: seq<Column>, n: nat)
    requires n < |cs|
    ensures RowText(prev, cs[..n + 1]) == RowText(prev, cs[..n]) + "|" + Coalesce(cs[n])
  {
    assert cs[..n + 1][..n] == cs[..n];
  }

  /** Every row text starts with the previous hash and a bar. */
  lemma {:induction false} StartsWithPrev(prev: string, cs: seq<Column>) returns (rest: string)
    requires cs != []
    ensures RowText(prev, cs) == prev + "|" + rest
    decreases |cs|
  {
    var n := |cs| - 1;
    if n == 0 {
      assert cs[..0] == [];
      rest := Coalesce(cs[0]);
    } else {
      var front := StartsWithPrev(prev, cs[..n]);
      rest := front + "|" + Coalesce(cs[n]);
      assert RowText(prev, cs) == prev + "|" + front + "|" + Coalesce(cs[n]);
    }
  }

  lemma IngestionText(p: string, cs: seq<Column>)
    requires |cs| == 3
    ensures RowText(p, cs) == (p + "|" + Coalesce(cs[0])) + "|" + Coalesce(cs[1]) + "|" + Coalesce(cs[2])
  {
    assert cs[..0] == [] && cs[..3] == cs;
    OneMoreColumn(p, cs, 0);
    OneMoreColumn(p, cs, 1);
    OneMoreColumn(p, cs, 2);
  }

  function Middle(cs: seq<Column>): string
    requires |cs| == 6
  {
    Joined(Coalesce(cs[1]), Coalesce(cs[2]), Coalesce(cs[3]))
  }

  lemma UserActionText(p: string, cs: seq<Column>)
    requires |cs| == 6
    ensures RowText(p, cs) == (p + "|" + (Coalesce(cs[0]) + "|" + Middle(cs))) + "|" + Coalesce(cs[4]) + "|" + Coalesce(cs[5])
  {
    hide RowText, Coalesce;
    assert RowText(p, cs[..0]) == p by {
      assert cs[..0] == [];
      UserActionTextBase(p);
    }
    assert cs[..6] == cs;
    OneMoreColumn(p, cs, 0);
    OneMoreColumn(p, cs, 1);
    OneMoreColumn(p, cs, 2);
    OneMoreColumn(p, cs, 3);
    OneMoreColumn(p, cs, 4);
    OneMoreColumn(p, cs, 5);
    JoinedAfter(p, Coalesce(cs[0]), Coalesce(cs[1]), Coalesce(cs[2]), Coalesce(cs[3]));
  }

  lemma UserActionTextBase(p: string)
    ensures RowText(p, []) == p
  {
  }

  lemma JoinedAfter(p: string, a: string, b: string, c: string, d: string)
    ensures p + "|" + a + "|" + b + "|" + c + "|" + d == p + "|" + (a + "|" + Joined(b, c, d))
  {
  }

  lemma IngestionTextIsInjective(p: string, cs: seq<Column>, q: string, ds: seq<Column>)
    requires Admissible(IngestionLog, cs) && Admissible(IngestionLog, ds) && BarFree(p) && BarFree(q)
    requires RowText(p, cs) == RowText(q, ds)
    ensures p == q && cs == ds
  {
    IngestionText(p, cs);
    IngestionText(q, ds);
    var d, e := p + "|" + cs[0].value, q + "|" + ds[0].value;
    hide RowText, JsonText;
    SplitAtLastBar(d + "|" + cs[1].value, cs[2].value, e + "|" + ds[1].value, ds[2].value);
    SplitBeforeJson(d, cs[1].value, e, ds[1].value);
    SplitAtFirstBar(p, cs[0].value, q, ds[0].value);
  }

  /** Equal texts agree on everything but where action, target type and target id meet. */
  lemma UserActionParts(p: string, cs: seq<Column>, q: string, ds: seq<Column>)
    requires Admissible(UserActionLog, cs) && Admissible(UserActionLog, ds) && BarFree(p) && BarFree(q)
    requires RowText(p, cs) == RowText(q, ds)
    ensures p == q && Coalesce(cs[0]) == Coalesce(ds[0]) && Middle(cs) == Middle(ds)
    ensures Coalesce(cs[4]) == Coalesce(ds[4]) && Coalesce(cs[5]) == Coalesce(ds[5])
  {
    UserActionText(p, cs);
    UserActionText(q, ds);
    var a, b := Coalesce(cs[0]) + "|" + Middle(cs), Coalesce(ds[0]) + "|" + Middle(ds);
    var d, e := p + "|" + a, q + "|" + b;
    hide RowText, JsonText, Middle;
    SplitAtLastBar(d + "|" + Coalesce(cs[4]), Coalesce(cs[5]), e + "|" + Coalesce(ds[4]), Coalesce(ds[5]));
    SplitBeforeJson(d, Coalesce(cs[4]), e, Coalesce(ds[4]));
    SplitAtFirstBar(p, a, q, b);
    SplitAtFirstBar(Coalesce(cs[0]), Middle(cs), Coalesce(ds[0]), Middle(ds));
  }

  /**
   The row text determines the row, up to NULL against the empty string, if that row
   has no stray bar; the other row may hold anything the schema admits.
   */
  lemma RowTextIsInjective(table: Table, p: string, cs: seq<Column>, q: string, ds: seq<Column>)
    requires Admissible(table, cs) && Admissible(table, ds) && NoStrayBar(table, cs) && BarFree(p) && BarFree(q)
    requires RowText(p, cs) == RowText(q, ds)
    ensures p == q && SameText(cs, ds)
  {
    hide RowText, JsonText;
    if table.IngestionLog? {
      IngestionTextIsInjective(p, cs, q, ds);
    } else {
      UserActionParts(p, cs, q, ds);
      ThreePartsAreDetermined(Coalesce(cs[1]), Coalesce(cs[2]), Coalesce(cs[3]), Coalesce(ds[1]), Coalesce(ds[2]), Coalesce(ds[3]));
    }
  }

  // ---------- stray bars ----------

  /** Splitting at a bar. */
  lemma Halves(s: string) returns (a: string, b: string)
    requires !BarFree(s)
    ensures s == a + "|" + b
  {
    var i :| 0 <= i < |s| && s[i] == '|';
    a, b := s[..i], s[i + 1..];
  }

  /** The target of a row with the column boundary moved. */
  lemma MovedBoundary(p: string, cs: seq<Column>, ds: seq<Column>)
    requires Admissible(UserActionLog, cs) && |ds| == 6 && ds[1].Some?
    requires ds[0] == cs[0] && ds[4] == cs[4] && ds[5] == cs[5] && Middle(ds) == Middle(cs)
    ensures Admissible(UserActionLog, ds) && RowText(p, ds) == RowText(p, cs)
  {
    hide RowText, JsonText, Middle;
    UserActionText(p, cs);
    UserActionText(p, ds);
  }

  lemma MoveLeftOrRight(a: string, b: string, c: string, d: string)
    ensures Joined(a + "|" + b, c, d) == Joined(a, b + "|" + c, d)
    ensures Joined(a, b + "|" + c, d) == Joined(a, b, c + "|" + d)
  {
  }

  /** Moving the column boundary to a stray bar gives another admissible row with the same text. */
  lemma StrayBarMovesTheBoundary(p: string, cs: seq<Column>) returns (ds: seq<Column>)
    requires Admissible(UserActionLog, cs) && !NoStrayBar(UserActionLog, cs)
    ensures Admissible(UserActionLog, ds) && RowText(p, ds) == RowText(p, cs) && !SameText(cs, ds)
  {
    hide RowText, JsonText, Joined;
    var action, targetType, targetId := Coalesce(cs[1]), Coalesce(cs[2]), Coalesce(cs[3]);
    if !BarFree(action) {
      var a, b := Halves(action);
      ds := [cs[0], Some(a), Some(b + "|" + targetType), cs[3], cs[4], cs[5]];
      MoveLeftOrRight(a, b, targetType, targetId);
      assert |Coalesce(ds[1])| < |action|;
    } else if !BarFree(targetType) {
      var a, b := Halves(targetType);
      ds := [cs[0], cs[1], Some(a), Some(b + "|" + targetId), cs[4], cs[5]];
      MoveLeftOrRight(action, a, b, targetId);
      assert |Coalesce(ds[2])| < |targetType|;
    } else {
      var a, b := Halves(targetId);
      ds := [cs[0], cs[1], Some(targetType + "|" + a), Some(b), cs[4], cs[5]];
      MoveLeftOrRight(action, targetType, a, b);
      assert |Coalesce(ds[3])| < |targetId|;
    }
    assert Middle(ds) == Middle(cs);
    hide Middle;
    MovedBoundary(p, cs, ds);
  }

  /**
   Exactly: within its table a row's text determines the row, up to NULL against the
   empty string, if and only if neither action nor target type nor target id holds a bar.
   */
  lemma TextDeterminesTheRow(table: Table, p: string, cs: seq<Column>)
    requires Admissible(table, cs) && BarFree(p)
    ensures (forall ds :: Admissible(table, ds) && RowText(p, ds) == RowText(p, cs) ==> SameText(cs, ds)) <==> NoStrayBar(table, cs)
  {
    hide RowText, JsonText;
    if NoStrayBar(table, cs) {
      forall ds | Admissible(table, ds) && RowText(p, ds) == RowText(p, cs) ensures SameText(cs, ds) {
        RowTextIsInjective(table, p, cs, p, ds);
      }
    } else {
      var ds := StrayBarMovesTheBoundary(p, cs);
    }
  }
}
