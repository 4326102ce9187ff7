/**
 Keyset pagination over a site's telemetry (internal/registry/telemetry.go,
 internal/db/telemetry.sql.go) and the export loop that walks it
 (internal/registry/exports.go).  The cursor token's encoding is left out: a
 token is the key it carries.
 */
module Paging {
  import opened Options
  import opened Ordering
  import opened TelemetryRules
  import opened Ingest
  import opened IngestTheorems

  const DEFAULT_PAGE_LIMIT: nat := 50
  const MAX_PAGE_LIMIT: nat := 500
  const MAX_EXPORT_ROWS: nat := 50000

  /** Row comparison (ts, device_id) < (ts, device_id). */
  predicate KeyLess(a: Key, b: Key) {
    a.ts < b.ts || (a.ts == b.ts && Less(a.device, b.device))
  }

  lemma KeyLessIsAnOrder(a: Key, b: Key, c: Key)
    ensures !KeyLess(a, a)
    ensures KeyLess(a, b) && KeyLess(b, c) ==> KeyLess(a, c)
    ensures KeyLess(a, b) || a == b || KeyLess(b, a)
  {
    LessIrreflexive(a.device);
    LessTotal(a.device, b.device);
    if Less(a.device, b.device) && Less(b.device, c.device) {
      LessTransitive(a.device, b.device, c.device);
    }
  }

  datatype Query = Query(siteId: string, from: Option<Instant>, to: Option<Instant>)

  predicate Matches(q: Query, k: Key, row: Row) {
    && row.reading.siteId == q.siteId
    && (q.from.Some? ==> k.ts >= q.from.value)
    && (q.to.Some? ==> k.ts <= q.to.value)
  }

  function Matching(t: Table, q: Query): set<Key> {
    set k | k in t && Matches(q, k, t[k])
  }

  function Below(keys: set<Key>, cursor: Option<Key>): set<Key> {
    set k | k in keys && (cursor.Some? ==> KeyLess(k, cursor.value))
  }

  predicate Descending(ks: seq<Key>) {
    forall i, j :: 0 <= i < j < |ks| ==> KeyLess(ks[j], ks[i])
  }

  /** ORDER BY ts DESC, device_id DESC LIMIT limit: the greatest `limit` keys, greatest first. */
  ghost predicate IsPage(page: seq<Key>, keys: set<Key>, limit: nat) {
    && Descending(page) && |page| <= limit
    && (forall k :: k in page ==> k in keys)
    && (forall k :: k in keys && k !in page ==> |page| == limit && forall j :: j in page ==> KeyLess(k, j))
  }

  method Greatest(keys: set<Key>) returns (top: Key)
    requires keys != {}
    ensures top in keys && forall k :: k in keys && k != top ==> KeyLess(k, top)
  {
    top :| top in keys;
    var rest := keys - {top};
    while rest != {}
      invariant rest <= keys && top in keys && top !in rest
      invariant forall k :: k in keys && k !in rest && k != top ==> KeyLess(k, top)
      decreases rest
    {
      var k :| k in rest;
      rest := rest - {k};
      KeyLessIsAnOrder(k, top, top);
      if KeyLess(top, k) {
        forall j | j in keys && j !in rest && j != k ensures KeyLess(j, k) {
          KeyLessIsAnOrder(j, top, k);
        }
        top := k;
      }
    }
  }

  /** The query: a page of the matching keys below the cursor. */
  method ListTelemetryForSite(t: Table, q: Query, cursor: Option<Key>, limit: nat) returns (page: seq<Key>)
    ensures IsPage(page, Below(Matching(t, q), cursor), limit) && |page| <= limit
  {
    ghost var keys := Below(Matching(t, q), cursor);
    var rest := set k | k in t && Matches(q, k, t[k]) && (cursor.Some? ==> KeyLess(k, cursor.value));
    assert rest == keys;
    page := [];
    while |page| < limit && rest != {}
      invariant |page| <= limit && rest <= keys
      invariant Descending(page)
      invariant forall k :: k in page <==> k in keys && k !in rest
      invariant forall k, j :: k in rest && j in page ==> KeyLess(k, j)
      decreases rest
    {
      var top := Greatest(rest);
      KeyLessIsAnOrder(top, top, top);
      page := page + [top];
      rest := rest - {top};
    }
  }

  /** Row comparison, written out. */
  lemma PageIsARun(t: Table, q: Query, cursor: Option<Key>, page: seq<Key>, limit: nat)
    requires IsPage(page, Below(Matching(t, q), cursor), limit)
    ensures forall i :: 0 <= i < |page| ==>
              && page[i] in t && t[page[i]].reading.siteId == q.siteId
              && (q.from.Some? ==> q.from.value <= page[i].ts) && (q.to.Some? ==> page[i].ts <= q.to.value)
              && (cursor.Some? ==> page[i].ts < cursor.value.ts
                                   || (page[i].ts == cursor.value.ts && Less(page[i].device, cursor.value.device)))
    ensures forall i, j :: 0 <= i < j < |page| ==>
              page[j].ts < page[i].ts || (page[j].ts == page[i].ts && Less(page[j].device, page[i].device))
    ensures forall k :: k in t && k !in page && t[k].reading.siteId == q.siteId
                        && (q.from.Some? ==> q.from.value <= k.ts) && (q.to.Some? ==> k.ts <= q.to.value)
                        && (cursor.Some? ==> k.ts < cursor.value.ts || (k.ts == cursor.value.ts && Less(k.device, cursor.value.device)))
                        ==> |page| == limit && forall j :: 0 <= j < |page| ==>
                              k.ts < page[j].ts || (k.ts == page[j].ts && Less(k.device, page[j].device))
  {
    forall i | 0 <= i < |page| ensures page[i] in Below(Matching(t, q), cursor) {
      assert page[i] in page;
    }
    forall k | k in t && k !in page && k in Below(Matching(t, q), cursor)
      ensures |page| == limit && forall j :: 0 <= j < |page| ==> KeyLess(k, page[j])
    {
    }
  }

  /**
   Telemetry.List: the limit's default, and a next cursor only after a full page.  The rows
   are the site's, within the range and past the cursor, latest first and greatest device
   first among equals; what is left out comes after a full page.
   */
  method List(t: Table, q: Query, cursor: Option<Key>, requestedLimit: int) returns (page: seq<Key>, next: Option<Key>)
    ensures var limit := if 0 < requestedLimit <= 500 then requestedLimit else 50;
            && IsPage(page, Below(Matching(t, q), cursor), limit)
            && next == (if |page| == limit then Some(page[|page| - 1]) else None)
            && |page| <= limit
            && (forall k :: k in t && k !in page && t[k].reading.siteId == q.siteId
                            && (q.from.Some? ==> q.from.value <= k.ts) && (q.to.Some? ==> k.ts <= q.to.value)
                            && (cursor.Some? ==> k.ts < cursor.value.ts || (k.ts == cursor.value.ts && Less(k.device, cursor.value.device)))
                            ==> |page| == limit && forall j :: 0 <= j < |page| ==>
                                  k.ts < page[j].ts || (k.ts == page[j].ts && Less(k.device, page[j].device)))
    ensures forall i :: 0 <= i < |page| ==>
              && page[i] in t && t[page[i]].reading.siteId == q.siteId
              && (q.from.Some? ==> q.from.value <= page[i].ts) && (q.to.Some? ==> page[i].ts <= q.to.value)
              && (cursor.Some? ==> page[i].ts < cursor.value.ts
                                   || (page[i].ts == cursor.value.ts && Less(page[i].device, cursor.value.device)))
    ensures forall i, j :: 0 <= i < j < |page| ==>
              page[j].ts < page[i].ts || (page[j].ts == page[i].ts && Less(page[j].device, page[i].device))
  {
    hide IsPage, Below, Matching;
    var limit := requestedLimit;
    if limit <= 0 || limit > MAX_PAGE_LIMIT {
      limit := DEFAULT_PAGE_LIMIT;
    }
    page := ListTelemetryForSite(t, q, cursor, limit);
    next := None;
    if |page| == limit {
      next := Some(page[|page| - 1]);
    }
    PageIsARun(t, q, cursor, page, limit);
  }

  /** The table as successive page queries see it: readings may be inserted in between, never changed or removed. */
  ghost predicate Growing(tables: nat -> Table) {
    forall i: nat :: Extends(tables(i), tables(i + 1))
  }

  lemma {:induction false} LaterExtends(tables: nat -> Table, i: nat, j: nat)
    requires Growing(tables) && i <= j
    ensures Extends(tables(i), tables(j))
    decreases j - i
  {
    if i < j {
      LaterExtends(tables, i, j - 1);
      assert Extends(tables(j - 1), tables(j - 1 + 1));
    }
  }

  function Last(ks: seq<Key>): Option<Key> {
    if ks == [] then None else Some(ks[|ks| - 1])
  }

  /** What has been exported after some pages, the latest of them read from `t`. */
  ghost predicate Exported(keys: seq<Key>, first: Table, t: Table, q: Query) {
    && Descending(keys)
    && (forall k :: k in keys ==> k in Matching(t, q))
    && (forall k :: k in Matching(first, q) && k !in keys ==> Last(keys).Some? ==> KeyLess(k, Last(keys).value))
  }

  /**
   The loop of Exports.build.  However readings arrive between pages: keys come
   out strictly decreasing, so none twice; every row exported matched when it was
   read; at most 50000 come out; and every row that matched at the first page
   comes out, unless the cap cut in before its turn.
   */
  method ExportSiteTelemetry(tables: nat -> Table, q: Query) returns (keys: seq<Key>, lastPage: nat)
    requires Growing(tables)
    ensures |keys| <= 50000
    ensures Exported(keys, tables(0), tables(lastPage), q)
    ensures |keys| < 50000 ==> forall k :: k in Matching(tables(0), q) ==> k in keys
  {
    hide Descending, KeyLess, Extends, Matches;
    keys, lastPage := [], 0;
    var cursor: Option<Key> := None;
    assert Exported(keys, tables(0), tables(0), q) by {
      NothingExported(tables(0), q);
    }
    while true
      invariant |keys| == MAX_PAGE_LIMIT * lastPage < MAX_EXPORT_ROWS
      invariant cursor == Last(keys)
      invariant Exported(keys, tables(0), tables(lastPage), q)
      decreases MAX_EXPORT_ROWS - |keys|
    {
      var page, next := List(tables(lastPage), q, cursor, MAX_PAGE_LIMIT);
      LaterExtends(tables, 0, lastPage);
      PageExtendsExport(keys, page, tables(0), tables(lastPage), q, cursor);
      keys := keys + page;
      if next.None? || |keys| >= MAX_EXPORT_ROWS {
        break;
      }
      cursor := next;
      assert Growing(tables) && Extends(tables(lastPage), tables(lastPage + 1));
      ExportOutlivesInserts(keys, tables(0), tables(lastPage), tables(lastPage + 1), q);
      lastPage := lastPage + 1;
    }
  }

  lemma NothingExported(t: Table, q: Query)
    ensures Exported([], t, t, q)
  {
  }

  /** One more page below the cursor. */
  lemma PageExtendsExport(keys: seq<Key>, page: seq<Key>, first: Table, t: Table, q: Query, cursor: Option<Key>)
    requires Exported(keys, first, t, q) && cursor == Last(keys) && Extends(first, t)
    requires IsPage(page, Below(Matching(t, q), cursor), MAX_PAGE_LIMIT)
    ensures Exported(keys + page, first, t, q)
    ensures |page| < MAX_PAGE_LIMIT ==> forall k :: k in Matching(first, q) ==> k in keys + page
  {
    var all := keys + page;
    PageIsBelow(keys, page, cursor);
    forall k | k in Matching(first, q) && k !in all
      ensures |page| == MAX_PAGE_LIMIT && KeyLess(k, Last(all).value)
    {
      assert k in Matching(t, q);
      assert k in Below(Matching(t, q), cursor);
      assert page[|page| - 1] in page;
    }
  }

  lemma PageIsBelow(keys: seq<Key>, page: seq<Key>, cursor: Option<Key>)
    requires Descending(keys) && Descending(page) && cursor == Last(keys)
    requires forall k :: k in page ==> cursor.Some? ==> KeyLess(k, cursor.value)
    ensures Descending(keys + page)
  {
    var all := keys + page;
    forall i, j | 0 <= i < j < |all| ensures KeyLess(all[j], all[i]) {
      if i < |keys| <= j {
        assert page[j - |keys|] in page;
        KeyLessIsAnOrder(all[j], cursor.value, keys[i]);
      }
    }
  }

  lemma ExportOutlivesInserts(keys: seq<Key>, first: Table, t: Table, t': Table, q: Query)
    requires Exported(keys, first, t, q) && Extends(t, t')
    ensures Exported(keys, first, t', q)
  {
  }

  /** A strictly decreasing export never repeats a row. */
  lemma DescendingHasNoDuplicates(keys: seq<Key>)
    requires Descending(keys)
    ensures forall i, j :: 0 <= i < j < |keys| ==> keys[i] != keys[j]
  {
    forall i, j | 0 <= i < j < |keys| ensures keys[i] != keys[j] {
      KeyLessIsAnOrder(keys[i], keys[i], keys[i]);
    }
  }

  /** Without inserts the pages concatenate to the sorted, filtered table, up to the cap. */
  lemma QuietExportIsTheSortedTable(keys: seq<Key>, t: Table, q: Query)
    requires Exported(keys, t, t, q) && |keys| <= MAX_EXPORT_ROWS
    requires |keys| < MAX_EXPORT_ROWS ==> forall k :: k in Matching(t, q) ==> k in keys
    ensures IsPage(keys, Matching(t, q), MAX_EXPORT_ROWS)
  {
    forall k, j | k in Matching(t, q) && k !in keys && j in keys ensures KeyLess(k, j) {
      var i :| 0 <= i < |keys| && keys[i] == j;
      if i < |keys| - 1 {
        KeyLessIsAnOrder(k, Last(keys).value, j);
      }
    }
  }

  /** A page is determined by the keys and the limit. */
  lemma {:induction false} PageIsUnique(a: seq<Key>, b: seq<Key>, keys: set<Key>, limit: nat, n: nat)
    requires IsPage(a, keys, limit) && IsPage(b, keys, limit) && n <= |a| && n <= |b|
    ensures a[..n] == b[..n]
    decreases n
  {
    if n > 0 {
      PageIsUnique(a, b, keys, limit, n - 1);
      var x, y := a[n - 1], b[n - 1];
      KeyLessIsAnOrder(x, y, x);
      if KeyLess(x, y) {
        NextOfPage(a, b, keys, limit, n - 1);
      } else if KeyLess(y, x) {
        NextOfPage(b, a, keys, limit, n - 1);
      }
      assert a[..n] == a[..n - 1] + [x] && b[..n] == b[..n - 1] + [y];
    }
  }

  lemma NextOfPage(a: seq<Key>, b: seq<Key>, keys: set<Key>, limit: nat, n: nat)
    requires IsPage(a, keys, limit) && IsPage(b, keys, limit) && n < |a| && n < |b| && a[..n] == b[..n]
    ensures !KeyLess(a[n], b[n])
  {
    if KeyLess(a[n], b[n]) {
      assert b[n] in b && a[n] in a;
      if b[n] in a {
        var i :| 0 <= i < |a| && a[i] == b[n];
        if i < n {
          assert b[..n][i] == b[i] == b[n];
          KeyLessIsAnOrder(b[n], b[n], b[n]);
        } else {
          KeyLessIsAnOrder(a[n], b[n], a[n]);
        }
      } else {
        assert KeyLess(b[n], a[n]);
        KeyLessIsAnOrder(a[n], b[n], a[n]);
      }
    }
  }

  /** So the query, and hence a quiet export, has exactly one answer. */
  lemma PageIsDetermined(a: seq<Key>, b: seq<Key>, keys: set<Key>, limit: nat)
    requires IsPage(a, keys, limit) && IsPage(b, keys, limit)
    ensures a == b
  {
    var n := if |a| <= |b| then |a| else |b|;
    PageIsUnique(a, b, keys, limit, n);
    if |a| < |b| {
      ShorterPageIsComplete(a, b, keys, limit);
    } else if |b| < |a| {
      ShorterPageIsComplete(b, a, keys, limit);
    }
  }

  lemma ShorterPageIsComplete(a: seq<Key>, b: seq<Key>, keys: set<Key>, limit: nat)
    requires IsPage(a, keys, limit) && IsPage(b, keys, limit) && |a| <= |b| && a == b[..|a|]
    ensures |a| == |b|
  {
    if |a| < |b| {
      assert b[|a|] in b;
      assert b[|a|] in a;
      var i :| 0 <= i < |a| && a[i] == b[|a|];
      assert b[i] == b[|a|];
      DescendingHasNoDuplicates(b);
    }
  }
}
