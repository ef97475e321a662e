/** The order Go's `<` puts on strings (byte-wise lexicographic, a proper prefix
    first), and sort.Strings as an insertion sort under that order. Flatten
    sorts event types with it. */
module ByteStrings {
  import opened GoTypes

  /** `a < b` on Go strings. */
  predicate Less(a: Bytes, b: Bytes)
    decreases |a|
  {
    |b| > 0 && (|a| == 0 || a[0] < b[0] || (a[0] == b[0] && Less(a[1..], b[1..])))
  }

  predicate LessEq(a: Bytes, b: Bytes)
  {
    a == b || Less(a, b)
  }

  lemma {:induction false} LessIrreflexive(a: Bytes)
    ensures !Less(a, a)
    decreases |a|
  {
    if |a| > 0 {
      LessIrreflexive(a[1..]);
    }
  }

  lemma {:induction false} LessAsymmetric(a: Bytes, b: Bytes)
    requires Less(a, b)
    ensures !Less(b, a)
    decreases |a|
  {
    if |a| > 0 && a[0] == b[0] {
      LessAsymmetric(a[1..], b[1..]);
    }
  }

  /** Any two strings are equal or ordered one way or the other. */
  lemma {:induction false} LessTotal(a: Bytes, b: Bytes)
    ensures a == b || Less(a, b) || Less(b, a)
    decreases |a|
  {
    if |a| > 0 && |b| > 0 && a[0] == b[0] {
      LessTotal(a[1..], b[1..]);
      if a[1..] == b[1..] {
        assert a == [a[0]] + a[1..] && b == [b[0]] + b[1..];
      }
    }
  }

  lemma {:induction false} LessTransitive(a: Bytes, b: Bytes, c: Bytes)
    requires Less(a, b) && Less(b, c)
    ensures Less(a, c)
    decreases |a|
  {
    if |a| > 0 && a[0] == b[0] && b[0] == c[0] {
      LessTransitive(a[1..], b[1..], c[1..]);
    }
  }

  lemma LessEqTransitive(a: Bytes, b: Bytes, c: Bytes)
    requires LessEq(a, b) && LessEq(b, c)
    ensures LessEq(a, c)
  {
    if a != b && b != c {
      LessTransitive(a, b, c);
    }
  }

  predicate Sorted(s: seq<Bytes>)
  {
    forall i, j :: 0 <= i < j < |s| ==> LessEq(s[i], s[j])
  }

  predicate StrictlySorted(s: seq<Bytes>)
  {
    forall i, j :: 0 <= i < j < |s| ==> Less(s[i], s[j])
  }

  /** `x` placed into the sorted `s` before the first element not below it. */
  function Insert(s: seq<Bytes>, x: Bytes): (r: seq<Bytes>)
    requires Sorted(s)
    ensures Sorted(r)
    ensures multiset(r) == multiset(s) + multiset{x}
  {
    if s == [] then [x]
    else if LessEq(x, s[0]) then
      assert forall j :: 0 <= j < |s| ==> LessEq(x, s[j]) by {
        forall j | 0 <= j < |s|
          ensures LessEq(x, s[j])
        {
          LessEqTransitive(x, s[0], s[j]);
        }
      }
      [x] + s
    else
      LessTotal(x, s[0]);
      var t := Insert(s[1..], x);
      assert forall y :: y in t ==> LessEq(s[0], y) by {
        forall y | y in t
          ensures LessEq(s[0], y)
        {
          assert y in multiset(t);
          if y != x {
            assert y in s[1..];
            var k :| 0 <= k < |s[1..]| && s[1..][k] == y;
            assert s[k + 1] == y;
          }
        }
      }
      assert s == [s[0]] + s[1..];
      [s[0]] + t
  }

  /** sort.Strings: the same strings, in ascending order. */
  function SortStrings(ks: seq<Bytes>): (r: seq<Bytes>)
    ensures Sorted(r)
    ensures multiset(r) == multiset(ks)
    decreases |ks|
  {
    if ks == [] then []
    else
      assert ks == ks[..|ks| - 1] + [ks[|ks| - 1]];
      Insert(SortStrings(ks[..|ks| - 1]), ks[|ks| - 1])
  }

  /** A sequence in which no string occurs twice holds distinct strings. */
  lemma {:induction false} NoRepeats(s: seq<Bytes>)
    requires forall x :: multiset(s)[x] <= 1
    ensures forall i, j :: 0 <= i < j < |s| ==> s[i] != s[j]
  {
    if s != [] {
      var t := s[1..];
      assert s == [s[0]] + t;
      assert forall x :: multiset(t)[x] <= multiset(s)[x];
      NoRepeats(t);
      assert multiset(t)[s[0]] == 0;
      forall j | 0 < j < |s|
        ensures s[0] != s[j]
      {
        assert s[j] == t[j - 1];
        assert s[j] in multiset(t);
      }
    }
  }

  /** Sorting strings of which none occurs twice gives a strictly ascending list. */
  lemma SortedDistinctIsStrict(s: seq<Bytes>)
    requires Sorted(s)
    requires forall x :: multiset(s)[x] <= 1
    ensures StrictlySorted(s)
  {
    NoRepeats(s);
  }
  /** Two strictly ascending lists of the same strings are the same list. */
  lemma {:induction false} StrictlySortedUnique(a: seq<Bytes>, b: seq<Bytes>)
    requires StrictlySorted(a) && StrictlySorted(b)
    requires forall x :: x in a <==> x in b
    ensures a == b
    decreases |a|
  {
    assert a != [] ==> a[0] in b;
    assert b != [] ==> b[0] in a;
    if a != [] && b != [] {
      assert a[0] in b;
      var k :| 0 <= k < |b| && b[k] == a[0];
      assert b[0] in a;
      var l :| 0 <= l < |a| && a[l] == b[0];
      assert LessEq(b[0], a[0]) && LessEq(a[0], b[0]);
      if a[0] != b[0] {
        LessAsymmetric(a[0], b[0]);
      }
      forall x
        ensures x in a[1..] <==> x in b[1..]
      {
        LessIrreflexive(x);
        if x in a[1..] {
          var i :| 0 <= i < |a[1..]| && a[1..][i] == x;
          assert a[i + 1] == x;
        }
        if x in b[1..] {
          var i :| 0 <= i < |b[1..]| && b[1..][i] == x;
          assert b[i + 1] == x;
        }
        assert x in a <==> x == a[0] || x in a[1..] by { assert a == [a[0]] + a[1..]; }
        assert x in b <==> x == b[0] || x in b[1..] by { assert b == [b[0]] + b[1..]; }
      }
      StrictlySortedUnique(a[1..], b[1..]);
      assert a == [a[0]] + a[1..] && b == [b[0]] + b[1..];
    }
  }
}
