/** The sorts the program takes from its standard library: ascending numbers and lexicographic strings. */
module Sorting {

  predicate Ascending(s: seq<nat>) {
    forall i, j :: 0 <= i < j < |s| ==> s[i] <= s[j]
  }

  function InsertNumber(x: nat, s: seq<nat>): seq<nat> {
    if |s| == 0 || x <= s[0] then [x] + s else [s[0]] + InsertNumber(x, s[1..])
  }

  lemma AscendingCons(y: nat, rest: seq<nat>)
    requires Ascending(rest) && forall z :: z in rest ==> y <= z
    ensures Ascending([y] + rest)
  {
    var s := [y] + rest;
    forall i, j | 0 <= i < j < |s| ensures s[i] <= s[j] {
      assert s[j] == rest[j - 1] && rest[j - 1] in rest && (i > 0 ==> s[i] == rest[i - 1]);
    }
  }

  lemma {:induction false} InsertNumberSorts(x: nat, s: seq<nat>)
    requires Ascending(s)
    ensures Ascending(InsertNumber(x, s)) && multiset(InsertNumber(x, s)) == multiset(s) + multiset{x}
  {
    if |s| == 0 || x <= s[0] {
      AscendingCons(x, s);
    } else {
      var rest := InsertNumber(x, s[1..]);
      assert s == [s[0]] + s[1..];
      InsertNumberSorts(x, s[1..]);
      forall z | z in rest ensures s[0] <= z {
        assert z in multiset(rest);
        assert z == x || z in s[1..];
      }
      AscendingCons(s[0], rest);
    }
  }

  function SortNumbers(s: seq<nat>): (r: seq<nat>)
    ensures Ascending(r) && multiset(r) == multiset(s)
  {
    if |s| == 0 then []
    else
      assert s == [s[0]] + s[1..];
      InsertNumberSorts(s[0], SortNumbers(s[1..]));
      InsertNumber(s[0], SortNumbers(s[1..]))
  }

  /** Strict lexicographic order. */
  predicate Less(a: string, b: string) {
    |b| > 0 && (|a| == 0 || a[0] < b[0] || (a[0] == b[0] && Less(a[1..], b[1..])))
  }

  lemma {:induction false} LessTrichotomy(a: string, b: string)
    ensures Less(a, b) || a == b || Less(b, a)
    ensures !(Less(a, b) && Less(b, a))
    ensures !Less(a, a)
  {
    if |a| > 0 && |b| > 0 {
      LessTrichotomy(a[1..], b[1..]);
      LessTrichotomy(a[1..], a[1..]);
      assert a == [a[0]] + a[1..] && b == [b[0]] + b[1..];
    } else if |a| > 0 {
      LessTrichotomy(a[1..], a[1..]);
    }
  }

  /** Dictionary order: after a common beginning the first text ends, or has the smaller character. */
  lemma {:induction false} LessIff(a: string, b: string)
    ensures Less(a, b) <==> exists n: nat :: FirstDifference(a, b, n)
  {
    if |a| > 0 && |b| > 0 && a[0] == b[0] {
      LessIff(a[1..], b[1..]);
      if n: nat :| FirstDifference(a[1..], b[1..], n) {
        assert a[..n + 1] == [a[0]] + a[1..][..n] && b[..n + 1] == [b[0]] + b[1..][..n];
        assert FirstDifference(a, b, n + 1);
      }
      if n: nat :| FirstDifference(a, b, n) {
        assert n > 0;
        assert a[1..][..n - 1] == a[..n][1..] && b[1..][..n - 1] == b[..n][1..];
        assert FirstDifference(a[1..], b[1..], n - 1);
      }
    } else if |b| > 0 && (|a| == 0 || a[0] < b[0]) {
      assert FirstDifference(a, b, 0);
    } else if n: nat :| FirstDifference(a, b, n) {
      DifferenceHead(a, b, n);
    }
  }

  lemma DifferenceHead(a: string, b: string, n: nat)
    requires FirstDifference(a, b, n)
    ensures |b| > 0 && (n == 0 ==> |a| == 0 || a[0] < b[0]) && (n > 0 ==> |a| > 0 && a[0] == b[0])
  {
    if n > 0 {
      assert a[..n][0] == a[0] && b[..n][0] == b[0];
    }
  }

  predicate FirstDifference(a: string, b: string, n: nat) {
    n <= |a| && n < |b| && a[..n] == b[..n] && (n == |a| || a[n] < b[n])
  }

  lemma {:induction false} LessTransitive(a: string, b: string, c: string)
    requires Less(a, b) && Less(b, c)
    ensures Less(a, c)
  {
    if |a| > 0 && a[0] == b[0] == c[0] {
      LessTransitive(a[1..], b[1..], c[1..]);
    }
  }

  predicate StrictlySorted(s: seq<string>) {
    forall i, j :: 0 <= i < j < |s| ==> Less(s[i], s[j])
  }

  ghost function Elements(s: seq<string>): (r: set<string>)
    ensures forall y :: y in r <==> y in s
  {
    set y | y in s
  }

  /** Inserts a string that is not yet there. */
  function InsertName(x: string, s: seq<string>): (r: seq<string>)
    requires StrictlySorted(s) && x !in s
    ensures StrictlySorted(r) && Elements(r) == Elements(s) + {x}
  {
    if |s| == 0 then [x]
    else if Less(x, s[0]) then
      assert forall i :: 0 < i < |s| ==> Less(x, s[i]) by {
        forall i | 0 < i < |s| ensures Less(x, s[i]) { LessTransitive(x, s[0], s[i]); }
      }
      [x] + s
    else
      var rest := InsertName(x, s[1..]);
      assert s == [s[0]] + s[1..];
      assert forall y :: y in rest ==> Less(s[0], y) by {
        LessTrichotomy(x, s[0]);
        forall y | y in rest ensures Less(s[0], y) {
          assert y in Elements(rest);
          assert y == x || y in s[1..];
        }
      }
      assert Elements([s[0]] + rest) == {s[0]} + Elements(rest);
      assert Elements(s) == {s[0]} + Elements(s[1..]);
      [s[0]] + rest
  }

  /** Sorts names that are pairwise different. */
  function SortNames(s: seq<string>): (r: seq<string>)
    requires forall i, j :: 0 <= i < j < |s| ==> s[i] != s[j]
    ensures StrictlySorted(r) && Elements(r) == Elements(s)
  {
    if |s| == 0 then []
    else
      var rest := SortNames(s[1..]);
      assert s == [s[0]] + s[1..];
      assert s[0] !in Elements(s[1..]);
      assert s[0] !in Elements(rest);
      assert Elements(s) == {s[0]} + Elements(s[1..]);
      InsertName(s[0], rest)
  }

  /** A strictly sorted sequence is determined by its elements. */
  lemma {:induction false} StrictlySortedUnique(a: seq<string>, b: seq<string>)
    requires StrictlySorted(a) && StrictlySorted(b)
    requires Elements(a) == Elements(b)
    ensures a == b
  {
    assert |a| > 0 ==> a[0] in Elements(b);
    assert |b| > 0 ==> b[0] in Elements(a);
    if |a| > 0 && |b| > 0 {
      FirstIsLeast(a, b);
      FirstIsLeast(b, a);
      LessTrichotomy(a[0], b[0]);
      TailElements(a);
      TailElements(b);
      StrictlySortedUnique(a[1..], b[1..]);
      assert a == [a[0]] + a[1..] && b == [b[0]] + b[1..];
    }
  }

  lemma FirstIsLeast(a: seq<string>, b: seq<string>)
    requires StrictlySorted(a) && StrictlySorted(b) && |a| > 0 && |b| > 0
    requires Elements(a) == Elements(b)
    ensures a[0] == b[0] || Less(b[0], a[0])
  {
    assert a[0] in Elements(b);
  }

  lemma TailElements(a: seq<string>)
    requires StrictlySorted(a) && |a| > 0
    ensures Elements(a[1..]) == Elements(a) - {a[0]}
  {
    assert a == [a[0]] + a[1..];
    forall y | y in a[1..] ensures y != a[0] {
      LessTrichotomy(a[0], a[0]);
      var i :| 0 <= i < |a[1..]| && a[1..][i] == y;
      assert Less(a[0], a[i + 1]);
    }
  }
}
