/** Powers of two, bit counts and 64-bit machine words. */
module Words {

  function Pow2(k: nat): (r: nat)
    ensures r >= 1
  {
    if k == 0 then 1 else 2 * Pow2(k - 1)
  }

  function BitLength(n: nat): nat {
    if n == 0 then 0 else 1 + BitLength(n / 2)
  }

  function PopCount(n: nat): nat {
    if n == 0 then 0 else n % 2 + PopCount(n / 2)
  }

  /** The power of two at the highest set bit. */
  function TopBit(n: nat): nat
    requires n > 0
  {
    Pow2(BitLength(n) - 1)
  }

  lemma {:induction false} Pow2Monotone(j: nat, k: nat)
    requires j <= k
    ensures Pow2(j) <= Pow2(k)
  {
    if j < k {
      Pow2Monotone(j, k - 1);
    }
  }

  lemma {:induction false} BitLengthBounds(n: nat)
    requires n > 0
    ensures TopBit(n) <= n < 2 * TopBit(n) == Pow2(BitLength(n))
  {
    if n > 1 {
      BitLengthBounds(n / 2);
    }
  }

  lemma TopBitPower(n: nat)
    requires n > 0
    ensures BitLength(n) > 0 && TopBit(n) == Pow2(BitLength(n) - 1) && 0 < TopBit(n) <= n < 2 * TopBit(n)
  {
    BitLengthBounds(n);
    hide Pow2;
  }

  /** A value below 2^k has at most k bits. */
  lemma {:induction false} BitLengthAtMost(n: nat, k: nat)
    requires n < Pow2(k)
    ensures BitLength(n) <= k
  {
    if n > 0 {
      BitLengthBounds(n);
      if BitLength(n) > k {
        Pow2Monotone(k, BitLength(n) - 1);
      }
    }
  }

  lemma {:induction false} TopBitUnique(n: nat, k: nat)
    requires Pow2(k) <= n < Pow2(k + 1)
    ensures TopBit(n) == Pow2(k)
  {
    BitLengthBounds(n);
    BitLengthAtMost(n, k + 1);
    if BitLength(n) <= k {
      Pow2Monotone(BitLength(n), k);
    }
  }

  /** `TopBit` is the largest power of two that does not exceed its argument. */
  lemma TopBitIsLargestPower(n: nat, k: nat)
    requires n > 0
    ensures Pow2(k) <= n <==> Pow2(k) <= TopBit(n)
  {
    BitLengthBounds(n);
    if Pow2(k) <= n && k >= BitLength(n) {
      Pow2Monotone(BitLength(n), k);
    } else if k < BitLength(n) {
      Pow2Monotone(k, BitLength(n) - 1);
    }
  }

  /** Setting a bit above all others adds one to the population count. */
  lemma {:induction false} PopCountAboveTop(k: nat, m: nat)
    requires m < Pow2(k)
    ensures PopCount(Pow2(k) + m) == 1 + PopCount(m)
  {
    if k > 0 {
      PopCountAboveTop(k - 1, m / 2);
      assert (Pow2(k) + m) / 2 == Pow2(k - 1) + m / 2;
      assert (Pow2(k) + m) % 2 == m % 2;
    } else {
      assert PopCount(1) == 1 + PopCount(0);
    }
  }

  /** A 64-bit machine word, least significant bit first. */
  type Word = s: seq<bool> | |s| == 64 witness seq(64, _ => false)

  function Value(s: seq<bool>): nat {
    if s == [] then 0 else (if s[0] then 1 else 0) + 2 * Value(s[1..])
  }

  function Bits(n: nat, len: nat): (s: seq<bool>)
    ensures |s| == len
  {
    if len == 0 then [] else [n % 2 == 1] + Bits(n / 2, len - 1)
  }

  function ToWord(n: nat): Word {
    Bits(n, 64)
  }

  lemma {:induction false} ValueOfBits(n: nat, len: nat)
    requires n < Pow2(len)
    ensures Value(Bits(n, len)) == n
  {
    if len > 0 {
      ValueOfBits(n / 2, len - 1);
      assert Bits(n, len)[1..] == Bits(n / 2, len - 1);
    }
  }

  /** `w >> k` for a non-negative word. */
  function ShiftRight(w: Word, k: nat): (r: Word)
    ensures forall i | 0 <= i < 64 :: r[i] == (i + k < 64 && w[i + k])
  {
    seq(64, i requires 0 <= i < 64 => i + k < 64 && w[i + k])
  }

  /** `w | v` */
  function Or(w: Word, v: Word): (r: Word)
    ensures forall i | 0 <= i < 64 :: r[i] == (w[i] || v[i])
  {
    seq(64, i requires 0 <= i < 64 => w[i] || v[i])
  }

  /** The bits of `s` at positions 0 to m are set and no others. */
  ghost predicate OnesUpTo(s: seq<bool>, m: int) {
    forall i | 0 <= i < |s| :: s[i] <==> i < m
  }

  lemma {:induction false} ValueOfOnes(s: seq<bool>, m: nat)
    requires m <= |s| && OnesUpTo(s, m)
    ensures Value(s) == Pow2(m) - 1
  {
    if m == 0 {
      ValueOfZeros(s);
    } else {
      assert OnesUpTo(s[1..], m - 1);
      ValueOfOnes(s[1..], m - 1);
    }
  }

  lemma {:induction false} ValueOfZeros(s: seq<bool>)
    requires OnesUpTo(s, 0)
    ensures Value(s) == 0
  {
    if s != [] {
      assert OnesUpTo(s[1..], 0);
      ValueOfZeros(s[1..]);
    }
  }

  /** Bit m is the highest set bit of `s`. */
  ghost predicate TopIs(s: seq<bool>, m: nat) {
    m < |s| && s[m] && forall i | m < i < |s| :: !s[i]
  }

  lemma {:induction false} TopBounds(s: seq<bool>, m: nat)
    requires TopIs(s, m)
    ensures Pow2(m) <= Value(s) < Pow2(m + 1)
  {
    if m == 0 {
      assert OnesUpTo(s, 1);
      ValueOfOnes(s, 1);
    } else {
      assert TopIs(s[1..], m - 1);
      TopBounds(s[1..], m - 1);
    }
  }

  lemma {:induction false} TopExists(s: seq<bool>) returns (m: nat)
    requires Value(s) > 0
    ensures TopIs(s, m)
  {
    if Value(s[1..]) > 0 {
      var k := TopExists(s[1..]);
      m := k + 1;
      assert forall i | m < i < |s| :: s[i] == s[1..][i - 1];
    } else {
      m := 0;
      if i :| 0 < i < |s| && s[i] {
        var t := s[1..];
        var k := LastSet(t, i - 1);
        TopBounds(t, k);
        assert false;
      }
    }
  }

  lemma {:induction false} LastSet(s: seq<bool>, i: nat) returns (m: nat)
    requires i < |s| && s[i]
    ensures TopIs(s, m)
    decreases |s| - i
  {
    if j :| i < j < |s| && s[j] {
      m := LastSet(s, j);
    } else {
      m := i;
    }
  }

  /** Some bit of `w` in the window of `span` bits from position i is set. */
  ghost predicate AnyIn(w: Word, i: nat, span: nat) {
    exists j :: i <= j < i + span && j < 64 && w[j]
  }

  ghost predicate Smeared(w: Word, from: Word, span: nat) {
    forall i | 0 <= i < 64 :: w[i] <==> AnyIn(from, i, span)
  }

  /** One smearing step doubles the window of source bits that every result bit has seen. */
  lemma SmearDoubles(w: Word, from: Word, span: nat)
    requires Smeared(w, from, span)
    ensures Smeared(Or(w, ShiftRight(w, span)), from, 2 * span)
  {
    var r := Or(w, ShiftRight(w, span));
    forall i | 0 <= i < 64
      ensures r[i] <==> AnyIn(from, i, 2 * span)
    {
      assert AnyIn(from, i, span) ==> AnyIn(from, i, 2 * span);
      if i + span < 64 && AnyIn(from, i + span, span) {
        var j :| i + span <= j < i + 2 * span && j < 64 && from[j];
      }
      if AnyIn(from, i, 2 * span) {
        var j :| i <= j < i + 2 * span && j < 64 && from[j];
        assert if j < i + span then AnyIn(from, i, span) else AnyIn(from, i + span, span);
      }
    }
  }

  lemma SmearedTo64(w: Word, from: Word, m: nat)
    requires TopIs(from, m) && Smeared(w, from, 64)
    ensures OnesUpTo(w, m + 1)
  {
    forall i | 0 <= i < 64
      ensures w[i] <==> i < m + 1
    {
      if i <= m {
        assert i <= m < i + 64 && from[m];
      }
    }
  }

  function Smear(w: Word, k: nat): Word {
    Or(w, ShiftRight(w, k))
  }

  function SmearAll(w: Word): Word {
    Smear(Smear(Smear(Smear(Smear(Smear(w, 1), 2), 4), 8), 16), 32)
  }

  lemma SmearedAtFirst(w: Word)
    ensures Smeared(w, w, 1)
  {
    forall i | 0 <= i < 64 ensures w[i] <==> AnyIn(w, i, 1) {}
  }

  lemma SmearAllSees64(w: Word)
    ensures Smeared(SmearAll(w), w, 64)
  {
    hide Smeared;
    SmearedAtFirst(w);
    var w1 := Smear(w, 1);
    var w2 := Smear(w1, 2);
    var w3 := Smear(w2, 4);
    var w4 := Smear(w3, 8);
    var w5 := Smear(w4, 16);
    SmearDoubles(w, w, 1);
    SmearDoubles(w1, w, 2);
    SmearDoubles(w2, w, 4);
    SmearDoubles(w3, w, 8);
    SmearDoubles(w4, w, 16);
    SmearDoubles(w5, w, 32);
  }

  /** Subtracting the shifted word from the smeared one leaves the highest bit alone. */
  lemma SmearKeepsTopBit(start: Word)
    requires Value(start) > 0
    ensures var w := SmearAll(start); Value(w) - Value(ShiftRight(w, 1)) == TopBit(Value(start))
  {
    var w := SmearAll(start);
    var m := TopExists(start);
    assert m < 64;
    hide SmearAll, Value, Smeared, OnesUpTo, TopIs, TopBit, Pow2;
    TopBounds(start, m);
    TopBitUnique(Value(start), m);
    SmearAllSees64(start);
    SmearedTo64(w, start, m);
    OnesShifted(w, m);
    ValueOfOnes(w, m + 1);
    ValueOfOnes(ShiftRight(w, 1), m);
    PowerSplit(m);
  }

  lemma OnesShifted(w: Word, m: nat)
    requires OnesUpTo(w, m + 1) && m < 64
    ensures OnesUpTo(ShiftRight(w, 1), m)
  {
    var shifted := ShiftRight(w, 1);
    forall i | 0 <= i < 64
      ensures shifted[i] <==> i < m
    {
      if i + 1 < 64 {
        assert w[i + 1] <==> i + 1 < m + 1;
      }
    }
  }

  lemma PowerSplit(m: nat)
    ensures Pow2(m + 1) == 2 * Pow2(m)
  {
  }

  lemma {:induction false} Pow2Add(j: nat, k: nat)
    ensures Pow2(j + k) == Pow2(j) * Pow2(k)
  {
    if j > 0 {
      Pow2Add(j - 1, k);
    }
  }

  lemma Pow2Of63()
    ensures Pow2(63) == 0x8000_0000_0000_0000
  {
    assert Pow2(7) == 128;
    hide Pow2;
    Pow2Add(7, 7);
    Pow2Add(14, 14);
    Pow2Add(28, 28);
    Pow2Add(56, 7);
  }

  lemma ValueOfToWord(n: nat)
    requires n < 0x8000_0000_0000_0000
    ensures Value(ToWord(n)) == n
  {
    Pow2Of63();
    Pow2Monotone(63, 64);
    ValueOfBits(n, 64);
  }
}
