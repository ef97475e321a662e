/** The multisignature container of crypto/multisig/multisignature.go: a
    participation bitmap paired with the list of signatures present, kept in
    signer order, and the operations that add a signature to it. */
module Multisig {
  import opened GoTypes
  import opened BitArray

  /** The signing mode a signature was produced under (SIGN_MODE_UNSPECIFIED is 0). */
  type SignMode = int
  const SignModeUnspecified: SignMode := 0

  /** One entry of the signature list. `Unset` is the nil entry that `make`
      fills a fresh list with; `Single` is a signer's signature. */
  datatype SignatureData =
    | Unset
    | Single(mode: SignMode, signature: Bytes)

  /** The empty single signature used as the dummy element when the list grows. */
  const Placeholder: SignatureData := Single(SignModeUnspecified, [])

  /** A tx.MultiSignature as a value: the bitmap and the signature list. */
  datatype Container = Container(bitArray: seq<bool>, signatures: seq<SignatureData>)

  /** The error AddSignatureFromPubKey returns: the key that was looked up and
      every key it was looked up in. */
  datatype AddError<K> = KeyNotFound(pubkey: K, pubKeys: seq<K>)

  // ---------------------------------------------------------------------------
  // Specification of the container
  // ---------------------------------------------------------------------------

  /** The value NewMultisig(n) builds: no bit set, and `n` nil entries (the
      list is made with length `n`, not merely capacity `n`). */
  function NewContainer(n: nat): (c: Container)
    ensures |c.bitArray| == n && CountTrue(c.bitArray) == 0
    ensures |c.signatures| == n
    ensures forall k :: 0 <= k < n ==> c.signatures[k] == Unset
  {
    Container(NewBitArray(n), seq(n, _ => Unset))
  }

  /** The container after AddSignature(sig, index). The slot of `index` is the
      number of signers below it; a signer already present has its entry at
      that slot replaced, a new signer gets its bit set and its entry inserted
      at that slot. */
  function Added(c: Container, sig: SignatureData, index: int): (r: Container)
    requires 0 <= index < |c.bitArray|
    requires CountTrue(c.bitArray) <= |c.signatures|
    ensures |r.bitArray| == |c.bitArray| && r.bitArray[index]
    ensures forall p :: 0 <= p < |c.bitArray| && p != index ==> r.bitArray[p] == c.bitArray[p]
    ensures c.bitArray[index] ==> |r.signatures| == |c.signatures|
    ensures !c.bitArray[index] ==> |r.signatures| == |c.signatures| + 1
    ensures |r.signatures| - CountTrue(r.bitArray) == |c.signatures| - CountTrue(c.bitArray)
    ensures r.signatures[CountTrue(r.bitArray)..] == c.signatures[CountTrue(c.bitArray)..]
  {
    var slot := NumTrueBitsBefore(c.bitArray, index);
    if c.bitArray[index] then
      RankBelowCount(c.bitArray, index);
      Container(c.bitArray, c.signatures[slot := sig])
    else
      CountTrueSet(c.bitArray, index);
      Container(c.bitArray[index := true], c.signatures[..slot] + [sig] + c.signatures[slot..])
  }

  /** The signatures of the signers set in `b`, in ascending signer order,
      where `signedBy` gives each signer's signature. */
  function SignedInOrder(b: seq<bool>, signedBy: map<int, SignatureData>): (s: seq<SignatureData>)
    requires forall p :: 0 <= p < |b| && b[p] ==> p in signedBy
    ensures |s| == CountTrue(b)
  {
    if |b| == 0 then []
    else SignedInOrder(b[..|b| - 1], signedBy) + (if b[|b| - 1] then [signedBy[|b| - 1]] else [])
  }

  /** The container invariant: `signedBy` records exactly the signers whose bit
      is set, and the first CountTrue entries of the list are their signatures
      in ascending signer order. Entries beyond those are not constrained. */
  ghost predicate SortedBySigner(c: Container, signedBy: map<int, SignatureData>)
  {
    && CountTrue(c.bitArray) <= |c.signatures|
    && (forall p :: p in signedBy <==> 0 <= p < |c.bitArray| && c.bitArray[p])
    && c.signatures[..CountTrue(c.bitArray)] == SignedInOrder(c.bitArray, signedBy)
  }

  lemma {:induction false} SignedInOrderFrame(b: seq<bool>, m1: map<int, SignatureData>, m2: map<int, SignatureData>)
    requires forall p :: 0 <= p < |b| && b[p] ==> p in m1 && p in m2 && m1[p] == m2[p]
    ensures SignedInOrder(b, m1) == SignedInOrder(b, m2)
  {
    if |b| > 0 {
      SignedInOrderFrame(b[..|b| - 1], m1, m2);
    }
  }

  /** Inserting into a list and then appending equals appending and then
      inserting at the same place. */
  lemma InsertBeforeAppend(s: seq<SignatureData>, r: int, x: SignatureData, t: seq<SignatureData>)
    requires 0 <= r <= |s|
    ensures (s[..r] + [x] + s[r..]) + t == (s + t)[..r] + [x] + (s + t)[r..]
  {
    assert (s + t)[..r] == s[..r];
    assert (s + t)[r..] == s[r..] + t;
  }

  /** Adding a new signer inserts its signature at its slot. */
  lemma {:induction false} SignedInOrderInsert(b: seq<bool>, m: map<int, SignatureData>, i: int, x: SignatureData)
    requires 0 <= i < |b| && !b[i]
    requires forall p :: 0 <= p < |b| && b[p] ==> p in m
    ensures CountTrue(b[..i]) <= |SignedInOrder(b, m)|
    ensures var s, r := SignedInOrder(b, m), CountTrue(b[..i]);
            SignedInOrder(b[i := true], m[i := x]) == s[..r] + [x] + s[r..]
  {
    var n, b0 := |b|, b[..|b| - 1];
    var s0 := SignedInOrder(b0, m);
    var r := CountTrue(b[..i]);
    if i == n - 1 {
      assert b[i := true][..n - 1] == b0;
      SignedInOrderFrame(b0, m[i := x], m);
      assert b[..i] == b0;
    } else {
      var tail := if b[n - 1] then [m[n - 1]] else [];
      assert b[i := true][..n - 1] == b0[i := true];
      assert b0[..i] == b[..i];
      SignedInOrderInsert(b0, m, i, x);
      assert SignedInOrder(b[i := true], m[i := x]) == (s0[..r] + [x] + s0[r..]) + tail;
      InsertBeforeAppend(s0, r, x, tail);
    }
  }

  /** Re-adding a present signer replaces the signature at its slot only. */
  lemma {:induction false} SignedInOrderReplace(b: seq<bool>, m: map<int, SignatureData>, i: int, x: SignatureData)
    requires 0 <= i < |b| && b[i]
    requires forall p :: 0 <= p < |b| && b[p] ==> p in m
    ensures NumTrueBitsBefore(b, i) < |SignedInOrder(b, m)|
    ensures SignedInOrder(b, m[i := x]) == SignedInOrder(b, m)[NumTrueBitsBefore(b, i) := x]
  {
    RankBelowCount(b, i);
    var n, b0 := |b|, b[..|b| - 1];
    var s0 := SignedInOrder(b0, m);
    if i == n - 1 {
      SignedInOrderFrame(b0, m[i := x], m);
    } else {
      assert b0[..i] == b[..i];
      SignedInOrderReplace(b0, m, i, x);
    }
  }

  /** Re-adding a present signer keeps the container sorted by signer. */
  lemma AddedReplaceKeepsOrder(c: Container, m: map<int, SignatureData>, sig: SignatureData, index: int)
    requires SortedBySigner(c, m)
    requires 0 <= index < |c.bitArray| && c.bitArray[index]
    ensures SortedBySigner(Added(c, sig, index), m[index := sig])
  {
    var b, r := c.bitArray, Added(c, sig, index);
    var count, slot := CountTrue(b), NumTrueBitsBefore(b, index);
    RankBelowCount(b, index);
    assert r == Container(b, c.signatures[slot := sig]);
    SignedInOrderReplace(b, m, index, sig);
    assert r.signatures[..count] == c.signatures[..count][slot := sig];
  }

  /** The first `count + 1` entries after inserting at `slot` are the first
      `count` entries with the same insertion. */
  lemma InsertedPrefix(s: seq<SignatureData>, slot: int, count: int, x: SignatureData)
    requires 0 <= slot <= count <= |s|
    ensures (s[..slot] + [x] + s[slot..])[..count + 1] == s[..count][..slot] + [x] + s[..count][slot..]
  {
    assert s[..count][..slot] == s[..slot];
    assert (s[..slot] + [x] + s[slot..])[..count + 1] == s[..slot] + [x] + s[slot..count];
  }

  /** Adding a new signer keeps the container sorted by signer. */
  lemma AddedInsertKeepsOrder(c: Container, m: map<int, SignatureData>, sig: SignatureData, index: int)
    requires SortedBySigner(c, m)
    requires 0 <= index < |c.bitArray| && !c.bitArray[index]
    ensures SortedBySigner(Added(c, sig, index), m[index := sig])
  {
    var b, s := c.bitArray, c.signatures;
    var count, slot := CountTrue(b), NumTrueBitsBefore(b, index);
    var b', s' := b[index := true], s[..slot] + [sig] + s[slot..];
    assert Added(c, sig, index) == Container(b', s');
    CountTrueSet(b, index);
    assert CountTrue(b') == count + 1;
    SignedInOrderInsert(b, m, index, sig);
    InsertedPrefix(s, slot, count, sig);
    assert s'[..count + 1] == SignedInOrder(b', m[index := sig]);
    assert forall p :: p in m[index := sig] <==> 0 <= p < |b'| && b'[p];
  }

  /** AddSignature keeps the container sorted by signer: afterwards the signed
      prefix is the signatures of all present signers in ascending order, with
      `sig` as the signature of `index`. */
  lemma AddedKeepsOrder(c: Container, m: map<int, SignatureData>, sig: SignatureData, index: int)
    requires SortedBySigner(c, m)
    requires 0 <= index < |c.bitArray|
    ensures SortedBySigner(Added(c, sig, index), m[index := sig])
  {
    if c.bitArray[index] {
      AddedReplaceKeepsOrder(c, m, sig, index);
    } else {
      AddedInsertKeepsOrder(c, m, sig, index);
    }
  }

  /** A container is fully determined by its signers, its size and the entries
      past the signed prefix. */
  lemma SortedBySignerDetermines(c1: Container, c2: Container, m: map<int, SignatureData>)
    requires |c1.bitArray| == |c2.bitArray|
    requires SortedBySigner(c1, m) && SortedBySigner(c2, m)
    requires c1.signatures[CountTrue(c1.bitArray)..] == c2.signatures[CountTrue(c2.bitArray)..]
    ensures c1 == c2
  {
    assert c1.bitArray == c2.bitArray;
    var k := CountTrue(c1.bitArray);
    assert c1.signatures == c1.signatures[..k] + c1.signatures[k..];
    assert c2.signatures == c2.signatures[..k] + c2.signatures[k..];
  }

  // ---------------------------------------------------------------------------
  // Sequences of additions
  // ---------------------------------------------------------------------------

  /** The container after adding each `(index, signature)` pair in turn. */
  function AddAll(c: Container, adds: seq<(int, SignatureData)>): (r: Container)
    requires CountTrue(c.bitArray) <= |c.signatures|
    requires forall k :: 0 <= k < |adds| ==> 0 <= adds[k].0 < |c.bitArray|
    ensures |r.bitArray| == |c.bitArray|
    ensures |r.signatures| - CountTrue(r.bitArray) == |c.signatures| - CountTrue(c.bitArray)
    ensures r.signatures[CountTrue(r.bitArray)..] == c.signatures[CountTrue(c.bitArray)..]
    decreases |adds|
  {
    if adds == [] then c
    else Added(AddAll(c, adds[..|adds| - 1]), adds[|adds| - 1].1, adds[|adds| - 1].0)
  }

  /** The signature each signer contributed last, over `m`. */
  function Latest(m: map<int, SignatureData>, adds: seq<(int, SignatureData)>): map<int, SignatureData>
    decreases |adds|
  {
    if adds == [] then m
    else Latest(m, adds[..|adds| - 1])[adds[|adds| - 1].0 := adds[|adds| - 1].1]
  }

  predicate DistinctIndices(adds: seq<(int, SignatureData)>)
  {
    forall k, l :: 0 <= k < l < |adds| ==> adds[k].0 != adds[l].0
  }

  lemma {:induction false} AddAllKeepsOrder(c: Container, m: map<int, SignatureData>, adds: seq<(int, SignatureData)>)
    requires SortedBySigner(c, m)
    requires forall k :: 0 <= k < |adds| ==> 0 <= adds[k].0 < |c.bitArray|
    ensures SortedBySigner(AddAll(c, adds), Latest(m, adds))
    decreases |adds|
  {
    if adds != [] {
      var front := adds[..|adds| - 1];
      AddAllKeepsOrder(c, m, front);
      AddedKeepsOrder(AddAll(c, front), Latest(m, front), adds[|adds| - 1].1, adds[|adds| - 1].0);
    }
  }

  /** With distinct signers, each one's signature is the one it was added with. */
  lemma {:induction false} LatestOfDistinct(adds: seq<(int, SignatureData)>)
    requires DistinctIndices(adds)
    ensures forall k :: 0 <= k < |adds| ==> adds[k].0 in Latest(map[], adds) && Latest(map[], adds)[adds[k].0] == adds[k].1
    ensures forall p :: p in Latest(map[], adds) ==> exists k :: 0 <= k < |adds| && adds[k].0 == p
    decreases |adds|
  {
    if adds != [] {
      LatestOfDistinct(adds[..|adds| - 1]);
    }
  }

  /** Arrival order does not matter: adding the same distinct signers, with the
      same signatures, in any two orders to a fresh container gives the same
      container, whose signed prefix is in ascending signer order. */
  lemma ArrivalOrderIrrelevant(n: nat, adds1: seq<(int, SignatureData)>, adds2: seq<(int, SignatureData)>)
    requires forall k :: 0 <= k < |adds1| ==> 0 <= adds1[k].0 < n
    requires forall k :: 0 <= k < |adds2| ==> 0 <= adds2[k].0 < n
    requires DistinctIndices(adds1) && DistinctIndices(adds2)
    requires multiset(adds1) == multiset(adds2)
    ensures AddAll(NewContainer(n), adds1) == AddAll(NewContainer(n), adds2)
    ensures SortedBySigner(AddAll(NewContainer(n), adds1), Latest(map[], adds1))
  {
    var m1, m2 := Latest(map[], adds1), Latest(map[], adds2);
    LatestOfDistinct(adds1);
    LatestOfDistinct(adds2);
    forall p | p in m1
      ensures p in m2 && m2[p] == m1[p]
    {
      var k :| 0 <= k < |adds1| && adds1[k].0 == p;
      assert adds1[k] in multiset(adds2);
      var l :| 0 <= l < |adds2| && adds2[l] == adds1[k];
    }
    forall p | p in m2
      ensures p in m1
    {
      var l :| 0 <= l < |adds2| && adds2[l].0 == p;
      assert adds2[l] in multiset(adds1);
      var k :| 0 <= k < |adds1| && adds1[k] == adds2[l];
    }
    assert m1 == m2;
    var c := NewContainer(n);
    AddAllKeepsOrder(c, map[], adds1);
    AddAllKeepsOrder(c, map[], adds2);
    SortedBySignerDetermines(AddAll(c, adds1), AddAll(c, adds2), m1);
  }

  lemma {:induction false} ScenarioFirstArrival(sigC: SignatureData)
    ensures Added(NewContainer(3), sigC, 2) == Container([false, false, true], [sigC, Unset, Unset, Unset])
  {
    var c0 := NewContainer(3);
    assert c0.bitArray == [false, false, false];
    assert c0.signatures == [Unset, Unset, Unset];
    assert NumTrueBitsBefore(c0.bitArray, 2) == 0 by {
      CountTrueNone(c0.bitArray[..2]);
    }
    assert c0.signatures[..0] + [sigC] + c0.signatures[0..] == [sigC, Unset, Unset, Unset];
  }

  lemma {:induction false} ScenarioSecondArrival(sigA: SignatureData, sigC: SignatureData)
    ensures Added(Container([false, false, true], [sigC, Unset, Unset, Unset]), sigA, 0)
         == Container([true, false, true], [sigA, sigC, Unset, Unset, Unset])
  {
    var c1 := Container([false, false, true], [sigC, Unset, Unset, Unset]);
    assert CountTrue(c1.bitArray) == 1 by {
      assert c1.bitArray[..2] == [false, false];
      CountTrueNone([false, false]);
    }
    assert NumTrueBitsBefore(c1.bitArray, 0) == 0 by {
      assert c1.bitArray[..0] == [];
    }
    assert c1.signatures[..0] + [sigA] + c1.signatures[0..] == [sigA, sigC, Unset, Unset, Unset];
  }

  /** Members A, B, C: the signature of C arrives first, then that of A. A's
      signature ends up first, and the `n` nil entries NewMultisig made are
      still there after the two signatures. */
  lemma ScenarioOutOfOrderArrival(sigA: SignatureData, sigC: SignatureData)
    ensures AddAll(NewContainer(3), [(2, sigC), (0, sigA)])
         == Container([true, false, true], [sigA, sigC, Unset, Unset, Unset])
  {
    var c0 := NewContainer(3);
    ScenarioFirstArrival(sigC);
    ScenarioSecondArrival(sigA, sigC);
    var adds := [(2, sigC), (0, sigA)];
    assert adds[..1] == [(2, sigC)] && [(2, sigC)][..0] == [];
    assert AddAll(c0, [(2, sigC)]) == Added(c0, sigC, 2);
  }

  /** As written, NewMultisig leaves `n` nil entries behind the signatures for
      good: the list is always `n` longer than the number of signers, so the
      slot of a position is never the end of the list and the appending branch
      of AddSignature is never taken. */
  lemma NilEntriesNeverLeave(n: nat, adds: seq<(int, SignatureData)>, index: int)
    requires forall k :: 0 <= k < |adds| ==> 0 <= adds[k].0 < n
    requires 0 <= index < n
    ensures var r := AddAll(NewContainer(n), adds);
            |r.signatures| == CountTrue(r.bitArray) + n
            && NumTrueBitsBefore(r.bitArray, index) < |r.signatures|
  {
  }

  /** The container NewMultisig evidently means to build: no bit set and no
      entries yet (room for `n` of them is a capacity, which is not modelled). */
  function NewContainerEmpty(n: nat): (c: Container)
    ensures |c.bitArray| == n && CountTrue(c.bitArray) == 0
    ensures c.signatures == []
  {
    Container(NewBitArray(n), [])
  }

  /** Started empty, the list holds exactly the signatures of the signers
      present, one each, in ascending signer order. */
  lemma AddAllFromEmptyIsExact(n: nat, adds: seq<(int, SignatureData)>)
    requires forall k :: 0 <= k < |adds| ==> 0 <= adds[k].0 < n
    ensures var r := AddAll(NewContainerEmpty(n), adds);
            && SortedBySigner(r, Latest(map[], adds))
            && |r.signatures| == CountTrue(r.bitArray)
  {
    var c := NewContainerEmpty(n);
    assert SignedInOrder(c.bitArray, map[]) == [];
    AddAllKeepsOrder(c, map[], adds);
  }

  // ---------------------------------------------------------------------------
  // Key lookup
  // ---------------------------------------------------------------------------

  /** The position of the first key equal to `pk`, or -1 when there is none. */
  function FirstIndex<K(==)>(keys: seq<K>, pk: K): (i: int)
    ensures -1 <= i < |keys|
    ensures i == -1 <==> pk !in keys
    ensures 0 <= i ==> keys[i] == pk && pk !in keys[..i]
  {
    if |keys| == 0 then -1
    else if keys[0] == pk then 0
    else
      var j := FirstIndex(keys[1..], pk);
      if j == -1 then -1
      else
        assert keys[..j + 1] == [keys[0]] + keys[1..][..j];
        j + 1
  }

  /** The first matching position is the only one with no match before it. */
  lemma {:induction false} FirstIndexIsFirstMatch<K>(keys: seq<K>, pk: K, i: int)
    requires 0 <= i < |keys| && keys[i] == pk && pk !in keys[..i]
    ensures FirstIndex(keys, pk) == i
  {
    if i > 0 {
      assert keys[0] in keys[..i];
      assert keys[1..][..i - 1] == keys[..i][1..];
      FirstIndexIsFirstMatch(keys[1..], pk, i - 1);
    }
  }

  /** getIndex: a linear search that stops at the first equal key. */
  method GetIndex<K(==)>(pk: K, keys: seq<K>) returns (i: int)
    ensures i == FirstIndex(keys, pk)
  {
    i := 0;
    while i < |keys|
      invariant 0 <= i <= |keys|
      invariant pk !in keys[..i]
    {
      if pk == keys[i] {
        FirstIndexIsFirstMatch(keys, pk, i);
        return;
      }
      assert keys[..i + 1] == keys[..i] + [keys[i]];
      i := i + 1;
    }
    assert keys[..i] == keys;
    i := -1;
  }

  /** The insertion step of AddSignature when the slot is not the end of the
      list: grow the list by one dummy entry, move every entry from `slot` on
      one place right (a backward copy, as an overlapping `copy` behaves), and
      write `sig` into the gap. */
  method InsertShifting(s: seq<SignatureData>, slot: int, sig: SignatureData) returns (grown: seq<SignatureData>)
    requires 0 <= slot <= |s|
    ensures grown == s[..slot] + [sig] + s[slot..]
  {
    grown := s + [Placeholder];
    var k := |s|;
    while k > slot
      invariant slot <= k <= |s|
      invariant |grown| == |s| + 1
      invariant forall j :: 0 <= j < k ==> grown[j] == s[j]
      invariant forall j :: k < j <= |s| ==> grown[j] == s[j - 1]
    {
      grown := grown[k := grown[k - 1]];
      k := k - 1;
    }
    grown := grown[slot := sig];
  }

  // ---------------------------------------------------------------------------
  // The container object
  // ---------------------------------------------------------------------------

  /** A tx.MultiSignature, updated in place. `signedBy` records, for each signer
      present, the signature it contributed last. */
  class MultiSignature {
    var bitArray: seq<bool>
    var signatures: seq<SignatureData>
    ghost var signedBy: map<int, SignatureData>

    function View(): Container
      reads this
    {
      Container(bitArray, signatures)
    }

    ghost predicate Valid()
      reads this
    {
      SortedBySigner(View(), signedBy)
    }

    /** NewMultisig(n). */
    constructor (n: nat)
      ensures Valid()
      ensures View() == NewContainer(n) && signedBy == map[]
    {
      bitArray := NewBitArray(n);
      signatures := seq(n, _ => Unset);
      signedBy := map[];
    }

    /** AddSignature: overwrite the slot of a signer already present, or set
        its bit and insert at its slot, by appending when the slot is the end
        of the list and otherwise by growing the list by one and shifting the
        tail one place right. */
    method AddSignature(sig: SignatureData, index: int)
      requires Valid()
      requires 0 <= index < |bitArray|
      modifies this
      ensures Valid()
      ensures View() == Added(old(View()), sig, index)
      ensures signedBy == old(signedBy)[index := sig]
    {
      ghost var target := Added(View(), sig, index);
      AddedKeepsOrder(View(), signedBy, sig, index);
      signedBy := signedBy[index := sig];
      var slot := NumTrueBitsBefore(bitArray, index);
      if bitArray[index] {
        RankBelowCount(bitArray, index);
        assert target == Container(bitArray, signatures[slot := sig]);
        signatures := signatures[slot := sig];
        return;
      }
      assert target == Container(bitArray[index := true], signatures[..slot] + [sig] + signatures[slot..]);
      bitArray := bitArray[index := true];
      if slot == |signatures| {
        assert signatures[..slot] + [sig] + signatures[slot..] == signatures + [sig];
        signatures := signatures + [sig];
        return;
      }
      signatures := InsertShifting(signatures, slot, sig);
    }

    /** AddSignatureFromPubKey: add `sig` at the first position of `keys` that
        holds `pubkey`, or fail, naming every key, when there is none. */
    method AddSignatureFromPubKey<K(==)>(sig: SignatureData, pubkey: K, keys: seq<K>) returns (err: Option<AddError<K>>)
      requires Valid()
      requires FirstIndex(keys, pubkey) < |bitArray|
      modifies this
      ensures Valid()
      ensures err.Some? <==> pubkey !in keys
      ensures err.Some? ==> err.value == KeyNotFound(pubkey, keys)
      ensures err.Some? ==> View() == old(View()) && signedBy == old(signedBy)
      ensures err.None? ==> View() == Added(old(View()), sig, FirstIndex(keys, pubkey))
      ensures err.None? ==> signedBy == old(signedBy)[FirstIndex(keys, pubkey) := sig]
    {
      var index := GetIndex(pubkey, keys);
      if index == -1 {
        return Some(KeyNotFound(pubkey, keys));
      }
      AddSignature(sig, index);
      return None;
    }
  }
}
