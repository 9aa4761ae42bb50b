/** A string cut into numbered slots that are filled from left to right. */
module Slots {
  import opened Common

  type Slots = seq<seq<byte>>

  function Concat(slots: Slots): seq<byte> {
    if slots == [] then [] else Concat(slots[..|slots| - 1]) + slots[|slots| - 1]
  }

  /** Where slot k begins in the whole string. */
  function Offset(slots: Slots, k: nat): nat
    requires k <= |slots|
  {
    |Concat(slots[..k])|
  }

  function Put(slots: Slots, k: nat, ch: byte): (r: Slots)
    requires k < |slots|
    ensures |r| == |slots|
  {
    slots[k := slots[k] + [ch]]
  }

  predicate EmptyFrom(slots: Slots, k: nat) {
    forall j | k <= j < |slots| :: slots[j] == []
  }

  lemma {:induction false} EmptyTail(slots: Slots, k: nat)
    requires k <= |slots| && EmptyFrom(slots, k)
    ensures Concat(slots) == Concat(slots[..k])
    decreases |slots|
  {
    if k == |slots| {
      assert slots[..k] == slots;
    } else {
      var n := |slots| - 1;
      assert slots[..n][..k] == slots[..k];
      EmptyTail(slots[..n], k);
      assert Concat(slots[..n]) + [] == Concat(slots[..n]);
    }
  }

  /** Filling the last slot in use appends to the string. */
  lemma PutAppends(slots: Slots, k: nat, ch: byte)
    requires k < |slots| && EmptyFrom(slots, k + 1)
    ensures Concat(Put(slots, k, ch)) == Concat(slots) + [ch]
  {
    hide Concat;
    var more := Put(slots, k, ch);
    EmptyTail(slots, k + 1);
    EmptyTail(more, k + 1);
    ConcatNext(slots, k);
    ConcatNext(more, k);
    assert more[..k] == slots[..k];
    assert Concat(slots[..k]) + (slots[k] + [ch]) == Concat(slots[..k]) + slots[k] + [ch];
  }

  lemma ConcatNext(slots: Slots, k: nat)
    requires k < |slots|
    ensures Concat(slots[..k + 1]) == Concat(slots[..k]) + slots[k]
  {
    assert slots[..k + 1][..k] == slots[..k];
  }

  lemma PutKeepsOffset(slots: Slots, k: nat, ch: byte, j: nat)
    requires k < |slots| && j <= k
    ensures Offset(Put(slots, k, ch), j) == Offset(slots, j)
  {
    assert Put(slots, k, ch)[..j] == slots[..j];
  }

  lemma NextOffset(slots: Slots, k: nat)
    requires k < |slots|
    ensures Offset(slots, k + 1) == Offset(slots, k) + |slots[k]|
  {
    assert slots[..k + 1][..k] == slots[..k];
  }

  lemma {:induction false} OffsetsGrow(slots: Slots, j: nat, k: nat)
    requires j <= k <= |slots|
    ensures Offset(slots, j) <= Offset(slots, k)
    decreases k - j
  {
    if j < k {
      OffsetsGrow(slots, j, k - 1);
      NextOffset(slots, k - 1);
    }
  }

  lemma {:induction false} PrefixOf(slots: Slots, k: nat)
    requires k <= |slots|
    ensures Concat(slots[..k]) <= Concat(slots)
    decreases |slots|
  {
    if k == |slots| {
      assert slots[..k] == slots;
    } else {
      var n := |slots| - 1;
      assert slots[..n][..k] == slots[..k];
      PrefixOf(slots[..n], k);
    }
  }

  /** The string holds each slot at its offset. */
  lemma SlotInPlace(slots: Slots, k: nat)
    requires k < |slots|
    ensures Offset(slots, k) + |slots[k]| <= |Concat(slots)|
    ensures Concat(slots)[Offset(slots, k)..Offset(slots, k) + |slots[k]|] == slots[k]
  {
    PrefixOf(slots, k + 1);
    assert slots[..k + 1][..k] == slots[..k];
    var whole, upto, from := Concat(slots), Concat(slots[..k + 1]), Offset(slots, k);
    assert upto == Concat(slots[..k]) + slots[k];
    assert whole[from..from + |slots[k]|] == upto[from..from + |slots[k]|];
  }

  /** Every position of the string is in some slot. */
  lemma {:induction false} SlotOfPosition(slots: Slots, i: nat) returns (k: nat)
    requires i < |Concat(slots)|
    ensures k < |slots| && Offset(slots, k) <= i < Offset(slots, k) + |slots[k]|
    decreases |slots|
  {
    var n := |slots| - 1;
    if i < |Concat(slots[..n])| {
      k := SlotOfPosition(slots[..n], i);
      assert slots[..n][..k] == slots[..k];
    } else {
      k := n;
    }
  }

  lemma {:induction false} ConcatAppend(a: Slots, b: Slots)
    ensures Concat(a + b) == Concat(a) + Concat(b)
    decreases |b|
  {
    if b == [] {
      assert a + b == a;
    } else {
      var n := |b| - 1;
      assert (a + b)[..|a| + n] == a + b[..n];
      ConcatAppend(a, b[..n]);
    }
  }

  lemma ConcatOne(s: seq<byte>)
    ensures Concat([s]) == s
  {
    var slots: Slots := [s];
    assert slots[..0] == [];
  }
}
