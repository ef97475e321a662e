/** The participation bitmap of a multisignature (a CompactBitArray), seen only
    through the operations the container uses: its length, reading and setting
    one position, and counting set positions. The packed byte layout is not
    part of this model; a bitmap is the sequence of its positions. */
module BitArray {

  /** The number of set positions. */
  function CountTrue(b: seq<bool>): (c: nat)
    ensures c <= |b|
  {
    if |b| == 0 then 0
    else CountTrue(b[..|b| - 1]) + (if b[|b| - 1] then 1 else 0)
  }

  /** NumTrueBitsBefore: the number of set positions strictly below `index`,
      which is the slot of `index` among the signatures present. */
  function NumTrueBitsBefore(b: seq<bool>, index: int): (c: nat)
    requires 0 <= index <= |b|
    ensures c <= CountTrue(b)
    ensures c <= index
  {
    CountTrueMonotone(b, index, |b|);
    assert b[..|b|] == b;
    CountTrue(b[..index])
  }

  /** NewCompactBitArray: `n` positions, none of them set. */
  function NewBitArray(n: nat): (b: seq<bool>)
    ensures |b| == n
    ensures CountTrue(b) == 0
    ensures forall p :: 0 <= p < n ==> !b[p]
  {
    var b := seq(n, _ => false);
    CountTrueNone(b);
    b
  }

  lemma {:induction false} CountTrueNone(b: seq<bool>)
    requires forall p :: 0 <= p < |b| ==> !b[p]
    ensures CountTrue(b) == 0
  {
    if |b| > 0 {
      CountTrueNone(b[..|b| - 1]);
    }
  }

  /** Counting over a longer prefix never gives less, and gives strictly more
      once the longer prefix covers a set position the shorter one misses. */
  lemma {:induction false} CountTrueMonotone(b: seq<bool>, i: int, j: int)
    requires 0 <= i <= j <= |b|
    ensures CountTrue(b[..i]) <= CountTrue(b[..j])
    ensures i < j && b[i] ==> CountTrue(b[..i]) < CountTrue(b[..j])
  {
    if i < j {
      assert b[..j][..j - 1] == b[..j - 1];
      CountTrueMonotone(b, i, j - 1);
      if i == j - 1 {
        assert b[..j - 1] == b[..i];
      }
    }
  }

  /** A set position's slot lies among the signatures present. */
  lemma RankBelowCount(b: seq<bool>, index: int)
    requires 0 <= index < |b| && b[index]
    ensures NumTrueBitsBefore(b, index) < CountTrue(b)
  {
    CountTrueMonotone(b, index, |b|);
    assert b[..|b|] == b;
  }

  /** Two distinct set positions have distinct slots, in the same order. */
  lemma RankStrictlyIncreasing(b: seq<bool>, p: int, q: int)
    requires 0 <= p < q < |b| && b[p]
    ensures NumTrueBitsBefore(b, p) < NumTrueBitsBefore(b, q)
  {
    CountTrueMonotone(b, p, q);
  }

  /** Setting a position that was clear adds exactly one to the count. */
  lemma {:induction false} CountTrueSet(b: seq<bool>, i: int)
    requires 0 <= i < |b| && !b[i]
    ensures CountTrue(b[i := true]) == CountTrue(b) + 1
  {
    var n := |b|;
    if i == n - 1 {
      assert b[i := true][..n - 1] == b[..n - 1];
    } else {
      assert b[i := true][..n - 1] == b[..n - 1][i := true];
      CountTrueSet(b[..n - 1], i);
    }
  }
}
