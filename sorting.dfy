/**
 * Python's `sorted()` on a list of strings: ascending code-point order,
 * where a proper prefix sorts before the longer string.
 */
module Sorting {

  /** Python's `a <= b` on `str`. */
  predicate Below(a: string, b: string) {
    |a| == 0 || (|b| > 0 && (a[0] < b[0] || (a[0] == b[0] && Below(a[1..], b[1..]))))
  }

  lemma {:induction false} BelowTotal(a: string, b: string)
    ensures Below(a, b) || Below(b, a)
  {
    if |a| > 0 && |b| > 0 && a[0] == b[0] {
      BelowTotal(a[1..], b[1..]);
    }
  }

  lemma {:induction false} BelowTransitive(a: string, b: string, c: string)
    requires Below(a, b) && Below(b, c)
    ensures Below(a, c)
  {
    if |a| > 0 && a[0] == b[0] && b[0] == c[0] {
      BelowTransitive(a[1..], b[1..], c[1..]);
    }
  }

  /** Ascending order, as `sorted()` leaves a list. */
  predicate Sorted(s: seq<string>) {
    forall i, j :: 0 <= i < j < |s| ==> Below(s[i], s[j])
  }

  /** An ascending list stays ascending behind a string below all of its elements. */
  lemma SortedCons(y: string, t: seq<string>)
    requires Sorted(t) && forall k :: 0 <= k < |t| ==> Below(y, t[k])
    ensures Sorted([y] + t)
  {
    forall i, j | 0 <= i < j < |[y] + t| ensures Below(([y] + t)[i], ([y] + t)[j]) {
      if i > 0 {
        assert ([y] + t)[i] == t[i - 1];
      }
      assert ([y] + t)[j] == t[j - 1];
    }
  }

  /** An ascending list stays ascending with an upper bound of all its elements appended. */
  lemma SortedSnoc(t: seq<string>, y: string)
    requires Sorted(t) && forall k :: 0 <= k < |t| ==> Below(t[k], y)
    ensures Sorted(t + [y])
  {
    forall i, j | 0 <= i < j < |t + [y]| ensures Below((t + [y])[i], (t + [y])[j]) {
      assert (t + [y])[i] == t[i];
      if j < |t| {
        assert (t + [y])[j] == t[j];
      }
    }
  }

  /** A lower bound of `x` and of the elements of `s` bounds every element of `s` with `x` added. */
  lemma LowerBoundKept(b: string, x: string, s: seq<string>, t: seq<string>)
    requires Below(b, x) && forall k :: 0 <= k < |s| ==> Below(b, s[k])
    requires multiset(t) == multiset(s) + multiset{x}
    ensures forall k :: 0 <= k < |t| ==> Below(b, t[k])
  {
    forall k | 0 <= k < |t| ensures Below(b, t[k]) {
      assert t[k] in multiset(t);
      if t[k] != x {
        assert t[k] in multiset(s);
        var j :| 0 <= j < |s| && s[j] == t[k];
      }
    }
  }

  /** Inserts `x` into an ascending list in front of the first element it is below. */
  function Insert(x: string, s: seq<string>): (r: seq<string>)
    requires Sorted(s)
    ensures Sorted(r)
    ensures multiset(r) == multiset(s) + multiset{x}
  {
    if |s| == 0 then [x]
    else if Below(x, s[0]) then
      assert forall j :: 0 <= j < |s| ==> Below(x, s[j]) by {
        forall j | 0 <= j < |s| ensures Below(x, s[j]) {
          if j > 0 { BelowTransitive(x, s[0], s[j]); }
        }
      }
      SortedCons(x, s);
      [x] + s
    else
      BelowTotal(x, s[0]);
      var rest := s[1..];
      assert Sorted(rest) by {
        forall i, j | 0 <= i < j < |rest| ensures Below(rest[i], rest[j]) {
          assert rest[i] == s[i + 1] && rest[j] == s[j + 1];
        }
      }
      var t := Insert(x, rest);
      assert forall k :: 0 <= k < |rest| ==> Below(s[0], rest[k]) by {
        forall k | 0 <= k < |rest| ensures Below(s[0], rest[k]) {
          assert rest[k] == s[k + 1];
        }
      }
      LowerBoundKept(s[0], x, rest, t);
      SortedCons(s[0], t);
      assert s == [s[0]] + rest;
      [s[0]] + t
  }

  /** `sorted(s)`: the same strings, in ascending order. */
  function Sort(s: seq<string>): (r: seq<string>)
    ensures Sorted(r)
    ensures multiset(r) == multiset(s)
  {
    if |s| == 0 then []
    else
      assert s == [s[0]] + s[1..];
      Insert(s[0], Sort(s[1..]))
  }

  /** `sorted(s)` holds the same strings as `s`. */
  lemma SortSameElements(s: seq<string>)
    ensures forall x :: x in Sort(s) <==> x in s
  {
    forall x ensures x in Sort(s) <==> x in s {
      assert x in Sort(s) <==> x in multiset(Sort(s));
      assert x in s <==> x in multiset(s);
    }
  }
}
