/** Lexicographic order on strings, by code unit: sort.Strings in Go, and the "C" collation in SQL. */
module Ordering {

  predicate Less(a: string, b: string) {
    b != [] && (a == [] || a[0] < b[0] || (a[0] == b[0] && Less(a[1..], b[1..])))
  }

  /** A proper prefix comes before, and otherwise the first difference decides. */
  ghost predicate DiffersAt(a: string, b: string, n: nat) {
    n <= |a| && n < |b| && a[..n] == b[..n] && (n == |a| || a[n] < b[n])
  }

  lemma EqualPrefixesHaveEqualHeads(a: string, b: string, n: nat)
    requires 0 < n <= |a| && n <= |b| && a[..n] == b[..n]
    ensures a[0] == b[0]
  {
    assert a[..n][0] == b[..n][0];
  }

  lemma {:induction false} LessIsLexicographic(a: string, b: string)
    ensures Less(a, b) <==> exists n: nat :: DiffersAt(a, b, n)
    decreases |a|
  {
    if a == [] || b == [] || a[0] != b[0] {
      if Less(a, b) {
        assert DiffersAt(a, b, 0);
      }
      forall n: nat | DiffersAt(a, b, n) ensures Less(a, b) {
        if n > 0 {
          EqualPrefixesHaveEqualHeads(a, b, n);
        }
      }
    } else {
      LessIsLexicographic(a[1..], b[1..]);
      forall n: nat | DiffersAt(a[1..], b[1..], n) ensures DiffersAt(a, b, n + 1) {
        assert a[..n + 1] == [a[0]] + a[1..][..n] && b[..n + 1] == [b[0]] + b[1..][..n];
      }
      forall n: nat | DiffersAt(a, b, n) ensures n > 0 && DiffersAt(a[1..], b[1..], n - 1) {
        assert a[1..][..n - 1] == a[..n][1..] && b[1..][..n - 1] == b[..n][1..];
      }
    }
  }

  lemma {:induction false} LessIrreflexive(a: string)
    ensures !Less(a, a)
    decreases |a|
  {
    if a != [] {
      LessIrreflexive(a[1..]);
    }
  }

  lemma {:induction false} LessTransitive(a: string, b: string, c: string)
    requires Less(a, b) && Less(b, c)
    ensures Less(a, c)
    decreases |a|
  {
    if a != [] && a[0] == b[0] && b[0] == c[0] {
      LessTransitive(a[1..], b[1..], c[1..]);
    }
  }

  lemma {:induction false} LessTotal(a: string, b: string)
    ensures Less(a, b) || a == b || Less(b, a)
    decreases |a|
  {
    if a != [] && b != [] {
      LessTotal(a[1..], b[1..]);
      assert a == [a[0]] + a[1..] && b == [b[0]] + b[1..];
    }
  }

  predicate SortedStrings(ss: seq<string>) {
    forall i, j :: 0 <= i < j < |ss| ==> Less(ss[i], ss[j])
  }

  function InsertString(x: string, ss: seq<string>): seq<string> {
    if ss == [] || Less(x, ss[0]) then [x] + ss else [ss[0]] + InsertString(x, ss[1..])
  }

  lemma {:induction false} InsertStringSorts(x: string, ss: seq<string>)
    requires SortedStrings(ss) && x !in ss
    ensures SortedStrings(InsertString(x, ss))
    ensures forall y :: y in InsertString(x, ss) <==> y == x || y in ss
    decreases |ss|
  {
    if ss != [] {
      assert ss == [ss[0]] + ss[1..];
      if Less(x, ss[0]) {
        forall i | 1 <= i < |ss| ensures Less(x, ss[i]) {
          LessTransitive(x, ss[0], ss[i]);
        }
      } else {
        LessTotal(x, ss[0]);
        InsertStringSorts(x, ss[1..]);
        var rest := InsertString(x, ss[1..]);
        forall i | 0 <= i < |rest| ensures Less(ss[0], rest[i]) {
          assert rest[i] in rest;
        }
      }
    }
  }

  /** The distinct strings of a set, sorted. */
  method SortSet(names: set<string>) returns (sorted: seq<string>)
    ensures SortedStrings(sorted)
    ensures forall s :: s in sorted <==> s in names
  {
    sorted := [];
    var rest := names;
    while rest != {}
      invariant rest <= names
      invariant SortedStrings(sorted)
      invariant forall s :: s in sorted <==> s in names && s !in rest
      decreases rest
    {
      var x :| x in rest;
      rest := rest - {x};
      InsertStringSorts(x, sorted);
      sorted := InsertString(x, sorted);
    }
  }

  lemma SortedIsDistinct(ss: seq<string>)
    requires SortedStrings(ss)
    ensures forall i, j :: 0 <= i < j < |ss| ==> ss[i] != ss[j]
  {
    forall i, j | 0 <= i < j < |ss| ensures ss[i] != ss[j] {
      LessIrreflexive(ss[i]);
      assert Less(ss[i], ss[j]);
    }
  }
}
