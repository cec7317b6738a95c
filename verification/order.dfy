/** Go's string order (byte-wise lexicographic, as `<` on strings) and
    `sort.Strings`, modelled as an insertion sort over that order. */
module Order {
  import opened Bytes

  /** `a < b` on Go strings: the first differing byte decides, and a proper
      prefix comes first. */
  predicate Less(a: Bytes, b: Bytes)
    decreases |a|
  {
    |b| > 0 && (|a| == 0 || a[0] < b[0] || (a[0] == b[0] && Less(a[1..], b[1..])))
  }

  predicate LessEq(a: Bytes, b: Bytes) {
    a == b || Less(a, b)
  }

  lemma {:induction false} LessIrreflexive(a: Bytes)
    ensures !Less(a, a)
    decreases |a|
  {
    if |a| > 0 {
      LessIrreflexive(a[1..]);
    }
  }

  lemma {:induction false} LessAsymmetric(a: Bytes, b: Bytes)
    requires Less(a, b)
    ensures !Less(b, a)
    decreases |a|
  {
    if |a| > 0 && a[0] == b[0] {
      LessAsymmetric(a[1..], b[1..]);
    }
  }

  lemma {:induction false} LessTransitive(a: Bytes, b: Bytes, c: Bytes)
    requires Less(a, b) && Less(b, c)
    ensures Less(a, c)
    decreases |a|
  {
    if |a| > 0 && a[0] == b[0] && b[0] == c[0] {
      LessTransitive(a[1..], b[1..], c[1..]);
    }
  }

  /** Two different strings are ordered one way or the other. */
  lemma {:induction false} LessTotal(a: Bytes, b: Bytes)
    requires a != b
    ensures Less(a, b) || Less(b, a)
    decreases |a|
  {
    if |a| > 0 && |b| > 0 && a[0] == b[0] {
      assert a == [a[0]] + a[1..] && b == [b[0]] + b[1..];
      LessTotal(a[1..], b[1..]);
    }
  }

  /** A proper prefix sorts before the string it begins. */
  lemma {:induction false} PrefixLess(a: Bytes, b: Bytes)
    requires |a| < |b| && a == b[..|a|]
    ensures Less(a, b)
    decreases |a|
  {
    if |a| > 0 {
      assert a[0] == b[0];
      assert a[1..] == b[1..][..|a| - 1];
      PrefixLess(a[1..], b[1..]);
    }
  }

  /** Every pair in order, and (since the order is strict) no string twice. */
  predicate StrictlySorted(s: seq<Bytes>) {
    forall i, j :: 0 <= i < j < |s| ==> Less(s[i], s[j])
  }

  /** Two strictly sorted sequences with the same elements are the same
      sequence: the order `sort.Strings` produces does not depend on the
      order the keys were collected in. */
  lemma {:induction false} StrictlySortedUnique(a: seq<Bytes>, b: seq<Bytes>)
    requires StrictlySorted(a) && StrictlySorted(b)
    requires forall k :: k in a <==> k in b
    ensures a == b
    decreases |a|
  {
    if a != [] {
      assert a[0] in b;
    }
    if b != [] {
      assert b[0] in a;
    }
    if a != [] {
      var j :| 0 <= j < |b| && b[j] == a[0];
      assert b[0] in a;
      var i :| 0 <= i < |a| && a[i] == b[0];
      if j > 0 {
        if i > 0 {
          LessAsymmetric(a[0], a[i]);
        } else {
          LessIrreflexive(a[0]);
        }
      }
      forall k ensures k in a[1..] <==> k in b[1..] {
        if k in a[1..] {
          var m :| 1 <= m < |a| && a[m] == k;
          LessIrreflexive(a[0]);
          assert k in b;
          var n :| 0 <= n < |b| && b[n] == k;
          assert n != 0;
          assert b[1..][n - 1] == k;
        }
        if k in b[1..] {
          var n :| 1 <= n < |b| && b[n] == k;
          LessIrreflexive(b[0]);
          assert k in a;
          var m :| 0 <= m < |a| && a[m] == k;
          assert m != 0;
          assert a[1..][m - 1] == k;
        }
      }
      StrictlySortedUnique(a[1..], b[1..]);
      assert a == [a[0]] + a[1..];
      assert b == [b[0]] + b[1..];
    }
  }

  predicate Sorted(s: seq<Bytes>) {
    forall i, j :: 0 <= i < j < |s| ==> LessEq(s[i], s[j])
  }

  /** Insert `x` before the first element it does not exceed. */
  function Insert(x: Bytes, s: seq<Bytes>): (r: seq<Bytes>)
    ensures |r| == |s| + 1
    ensures multiset(r) == multiset(s) + multiset{x}
  {
    if |s| == 0 then [x]
    else if LessEq(x, s[0]) then [x] + s
    else
      assert s == [s[0]] + s[1..];
      [s[0]] + Insert(x, s[1..])
  }

  lemma {:induction false} InsertSorted(x: Bytes, s: seq<Bytes>)
    requires Sorted(s)
    ensures Sorted(Insert(x, s))
    decreases |s|, 1
  {
    if |s| > 0 {
      if LessEq(x, s[0]) {
        PrependSorted(x, s);
      } else {
        InsertSortedTail(x, s);
      }
    }
  }

  lemma PrependSorted(x: Bytes, s: seq<Bytes>)
    requires Sorted(s) && |s| > 0 && LessEq(x, s[0])
    ensures Sorted([x] + s)
  {
    var r := [x] + s;
    forall k | 0 <= k < |s| ensures LessEq(x, s[k]) {
      if k > 0 && x != s[0] && s[0] != s[k] {
        LessTransitive(x, s[0], s[k]);
      }
    }
    forall i, j | 0 <= i < j < |r| ensures LessEq(r[i], r[j]) {
      if i > 0 {
        assert r[i] == s[i - 1];
      }
    }
  }

  lemma {:induction false} InsertSortedTail(x: Bytes, s: seq<Bytes>)
    requires Sorted(s) && |s| > 0 && !LessEq(x, s[0])
    ensures Sorted(Insert(x, s))
    decreases |s|, 0
  {
    var t := s[1..];
    assert Sorted(t) by {
      forall i, j | 0 <= i < j < |t| ensures LessEq(t[i], t[j]) {
        assert t[i] == s[i + 1] && t[j] == s[j + 1];
      }
    }
    InsertSorted(x, t);
    var rt := Insert(x, t);
    LessTotal(x, s[0]);
    forall k | 0 <= k < |rt| ensures LessEq(s[0], rt[k]) {
      assert rt[k] in multiset(rt);
      if rt[k] != x {
        assert rt[k] in multiset(t);
        var m :| 0 <= m < |t| && t[m] == rt[k];
        assert t[m] == s[m + 1];
      }
    }
    ConsSorted(s[0], rt);
  }

  lemma ConsSorted(x: Bytes, s: seq<Bytes>)
    requires Sorted(s)
    requires forall k :: 0 <= k < |s| ==> LessEq(x, s[k])
    ensures Sorted([x] + s)
  {
    var r := [x] + s;
    forall i, j | 0 <= i < j < |r| ensures LessEq(r[i], r[j]) {
      if i > 0 {
        assert r[i] == s[i - 1];
      }
      assert r[j] == s[j - 1];
    }
  }

  /** `sort.Strings`: the keys in ascending order. */
  function SortStrings(s: seq<Bytes>): (r: seq<Bytes>)
    ensures |r| == |s|
    ensures multiset(r) == multiset(s)
  {
    if |s| == 0 then []
    else
      assert s == [s[0]] + s[1..];
      Insert(s[0], SortStrings(s[1..]))
  }

  lemma {:induction false} SortStringsSorted(s: seq<Bytes>)
    ensures Sorted(SortStrings(s))
  {
    if |s| > 0 {
      SortStringsSorted(s[1..]);
      InsertSorted(s[0], SortStrings(s[1..]));
    }
  }

  /** Sorting strings that are pairwise distinct orders them strictly. */
  lemma SortDistinct(s: seq<Bytes>)
    requires forall i, j :: 0 <= i < j < |s| ==> s[i] != s[j]
    ensures StrictlySorted(SortStrings(s))
  {
    SortStringsSorted(s);
    SortKeepsDistinct(s);
  }

  lemma SortKeepsDistinct(s: seq<Bytes>)
    requires forall i, j :: 0 <= i < j < |s| ==> s[i] != s[j]
    ensures var r := SortStrings(s); forall i, j :: 0 <= i < j < |r| ==> r[i] != r[j]
  {
    var r := SortStrings(s);
    forall i, j | 0 <= i < j < |r| ensures r[i] != r[j] {
      NoDuplicatesOnce(s, r[i]);
      OnceDistinct(r, i, j);
    }
  }

  lemma OnceDistinct(r: seq<Bytes>, i: nat, j: nat)
    requires i < j < |r| && multiset(r)[r[i]] <= 1
    ensures r[i] != r[j]
  {
    assert r == r[..i] + [r[i]] + r[i + 1..j] + [r[j]] + r[j + 1..];
  }

  lemma {:induction false} NoDuplicatesOnce(s: seq<Bytes>, x: Bytes)
    requires forall i, j :: 0 <= i < j < |s| ==> s[i] != s[j]
    ensures multiset(s)[x] <= 1
  {
    if |s| > 0 {
      assert s == [s[0]] + s[1..];
      NoDuplicatesOnce(s[1..], x);
      if s[0] == x {
        assert x !in s[1..];
      }
    }
  }
}
