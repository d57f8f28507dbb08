/**
 * The order `Array.prototype.sort` uses when it is given no comparator and
 * every element is a string: lexicographic comparison character by
 * character, a proper prefix coming first.
 */
module StringOrder {

  /** `a` sorts no later than `b`. */
  predicate Below(a: string, b: string) {
    a == [] || (b != [] && (a[0] < b[0] || (a[0] == b[0] && Below(a[1..], b[1..]))))
  }

  /** `a` sorts strictly before `b`. */
  predicate Less(a: string, b: string) {
    Below(a, b) && a != b
  }

  lemma {:induction false} BelowReflexive(a: string)
    ensures Below(a, a)
  {
    if a != [] {
      BelowReflexive(a[1..]);
    }
  }

  lemma {:induction false} BelowAntisymmetric(a: string, b: string)
    requires Below(a, b) && Below(b, a)
    ensures a == b
  {
    if a != [] && b != [] {
      BelowAntisymmetric(a[1..], b[1..]);
      assert a == [a[0]] + a[1..] && b == [b[0]] + b[1..];
    }
  }

  lemma {:induction false} BelowTransitive(a: string, b: string, c: string)
    requires Below(a, b) && Below(b, c)
    ensures Below(a, c)
  {
    if a != [] && a[0] == b[0] && b[0] == c[0] {
      BelowTransitive(a[1..], b[1..], c[1..]);
    }
  }

  lemma {:induction false} BelowTotal(a: string, b: string)
    ensures Below(a, b) || Below(b, a)
  {
    if a != [] && b != [] && a[0] == b[0] {
      BelowTotal(a[1..], b[1..]);
    }
  }

  /** `Less` is a strict total order on strings. */
  lemma LessIsStrictTotalOrder(a: string, b: string, c: string)
    ensures !Less(a, a)
    ensures Less(a, b) && Less(b, c) ==> Less(a, c)
    ensures a != b ==> Less(a, b) || Less(b, a)
    ensures !(Less(a, b) && Less(b, a))
  {
    BelowTotal(a, b);
    if Less(a, b) && Less(b, c) {
      BelowTransitive(a, b, c);
      if a == c {
        BelowAntisymmetric(a, b);
      }
    }
    if Less(a, b) && Less(b, a) {
      BelowAntisymmetric(a, b);
    }
  }

  predicate Sorted(s: seq<string>) {
    forall i, j :: 0 <= i < j < |s| ==> Below(s[i], s[j])
  }

  /** Ascending with no repeats: every value at most once. */
  predicate StrictlySorted(s: seq<string>) {
    forall i, j :: 0 <= i < j < |s| ==> Less(s[i], s[j])
  }

  /**
   * Puts `x` in front of the first element it sorts no later than: one
   * element longer, holding `x` and the values of `s` and nothing else.
   */
  function Insert(x: string, s: seq<string>): (r: seq<string>)
    ensures |r| == |s| + 1
    ensures forall y :: y in r <==> y == x || y in s
  {
    if s == [] then [x]
    else if Below(x, s[0]) then [x] + s
    else
      assert s == [s[0]] + s[1..];
      [s[0]] + Insert(x, s[1..])
  }

  /**
   * `Array.prototype.sort()` on strings, as an insertion sort: an ascending
   * rearrangement of its input.
   */
  function Sort(xs: seq<string>): (r: seq<string>)
    ensures multiset(r) == multiset(xs)
    ensures Sorted(r)
  {
    if xs == [] then []
    else
      var t := Sort(xs[1..]);
      InsertPermutes(xs[0], t);
      InsertSorted(xs[0], t);
      assert xs == [xs[0]] + xs[1..];
      Insert(xs[0], t)
  }

  /** Inserting adds exactly one occurrence of `x` and nothing else. */
  lemma {:induction false} InsertPermutes(x: string, s: seq<string>)
    ensures multiset(Insert(x, s)) == multiset(s) + multiset{x}
  {
    if s != [] && !Below(x, s[0]) {
      InsertPermutes(x, s[1..]);
      assert s == [s[0]] + s[1..];
    }
  }

  /** Inserting into an ascending list keeps it ascending. */
  lemma {:induction false} InsertSorted(x: string, s: seq<string>)
    requires Sorted(s)
    ensures Sorted(Insert(x, s))
  {
    if s == [] {
    } else if Below(x, s[0]) {
      forall j | 0 < j < |s| ensures Below(x, s[j]) {
        BelowTransitive(x, s[0], s[j]);
      }
    } else {
      var t := s[1..];
      assert Sorted(t) by {
        forall i, j | 0 <= i < j < |t| ensures Below(t[i], t[j]) {
          assert t[i] == s[i + 1] && t[j] == s[j + 1];
        }
      }
      InsertSorted(x, t);
      var r := Insert(x, t);
      BelowTotal(x, s[0]);
      forall y | y in r ensures Below(s[0], y) {
        if y != x {
          var k :| 0 <= k < |t| && t[k] == y;
          assert s[k + 1] == y;
        }
      }
      PrependSorted(s[0], r);
    }
  }

  /** A head no later than every element of a sorted tail keeps it sorted. */
  lemma PrependSorted(h: string, r: seq<string>)
    requires Sorted(r)
    requires forall y :: y in r ==> Below(h, y)
    ensures Sorted([h] + r)
  {
    forall i, j | 0 <= i < j < |[h] + r| ensures Below(([h] + r)[i], ([h] + r)[j]) {
      if i == 0 {
        assert ([h] + r)[j] == r[j - 1] && r[j - 1] in r;
      } else {
        assert ([h] + r)[i] == r[i - 1] && ([h] + r)[j] == r[j - 1];
      }
    }
  }

  predicate NoDuplicates(s: seq<string>) {
    forall i, j :: 0 <= i < j < |s| ==> s[i] != s[j]
  }

  /** Sorting values that are pairwise distinct leaves them strictly ascending. */
  lemma SortDistinct(xs: seq<string>)
    requires NoDuplicates(xs)
    ensures StrictlySorted(Sort(xs))
    ensures forall x :: x in Sort(xs) <==> x in xs
  {
    var r := Sort(xs);
    forall x ensures x in r <==> x in xs {
      assert x in r <==> x in multiset(r);
    }
    MultisetNoDuplicates(xs, r);
  }

  /** A sorted sequence with the same multiset as a duplicate-free one is strictly sorted. */
  lemma MultisetNoDuplicates(xs: seq<string>, r: seq<string>)
    requires NoDuplicates(xs) && multiset(r) == multiset(xs) && Sorted(r)
    ensures StrictlySorted(r)
  {
    forall x ensures multiset(r)[x] <= 1 {
      CountAtMostOne(xs, x);
    }
    NoDuplicatesFromCounts(r);
  }

  lemma {:induction false} NoDuplicatesFromCounts(r: seq<string>)
    requires forall x :: multiset(r)[x] <= 1
    ensures NoDuplicates(r)
  {
    if r != [] {
      var t := r[1..];
      assert r == [r[0]] + t;
      assert multiset(r) == multiset{r[0]} + multiset(t);
      forall x ensures multiset(t)[x] <= 1 {
        assert multiset(r)[x] == multiset{r[0]}[x] + multiset(t)[x];
      }
      NoDuplicatesFromCounts(t);
      assert multiset(r)[r[0]] == 1 + multiset(t)[r[0]];
      forall j | 0 < j < |r| ensures r[0] != r[j] {
        assert r[j] == t[j - 1] && t[j - 1] in multiset(t);
      }
    }
  }

  lemma {:induction false} CountAtMostOne(xs: seq<string>, x: string)
    requires NoDuplicates(xs)
    ensures multiset(xs)[x] <= 1
  {
    if xs != [] {
      var t := xs[1..];
      assert xs == [xs[0]] + t;
      CountAtMostOne(t, x);
      if xs[0] == x {
        assert multiset(t)[x] == 0;
      }
    }
  }

  /**
   * At most one strictly ascending sequence holds a given set of values:
   * the outcome does not depend on which sorting algorithm produced it.
   */
  lemma {:induction false} StrictlySortedUnique(a: seq<string>, b: seq<string>)
    requires StrictlySorted(a) && StrictlySorted(b)
    requires forall x :: x in a <==> x in b
    ensures a == b
  {
    if a != [] {
      assert a[0] in b && b != [] && b[0] in a;
      var m :| 0 <= m < |a| && a[m] == b[0];
      var k :| 0 <= k < |b| && b[k] == a[0];
      if m == 0 { BelowReflexive(a[0]); } else { assert Less(a[0], a[m]); }
      if k == 0 { BelowReflexive(b[0]); } else { assert Less(b[0], b[k]); }
      BelowAntisymmetric(a[0], b[0]);
      var a', b' := a[1..], b[1..];
      assert a == [a[0]] + a' && b == [b[0]] + b';
      forall x ensures x in a' <==> x in b' {
        if x in a' {
          var i :| 0 <= i < |a'| && a'[i] == x;
          assert Less(a[0], a[i + 1]);
          assert x in b;
        }
        if x in b' {
          var i :| 0 <= i < |b'| && b'[i] == x;
          assert Less(b[0], b[i + 1]);
          assert x in a;
        }
      }
      assert StrictlySorted(a') by {
        forall i, j | 0 <= i < j < |a'| ensures Less(a'[i], a'[j]) {
          assert a'[i] == a[i + 1] && a'[j] == a[j + 1];
        }
      }
      assert StrictlySorted(b') by {
        forall i, j | 0 <= i < j < |b'| ensures Less(b'[i], b'[j]) {
          assert b'[i] == b[i + 1] && b'[j] == b[j + 1];
        }
      }
      StrictlySortedUnique(a', b');
    } else {
      HeadIsMember(b);
    }
  }

  /** The first element of a non-empty list is one of its values. */
  lemma HeadIsMember(s: seq<string>)
    ensures s == [] || s[0] in s
  {
  }
}
