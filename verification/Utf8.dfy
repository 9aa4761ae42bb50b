/** Checking that a string is UTF-8, and how far the check is from RFC 3629. */
module Utf8 {
  import opened Common

  /** How many continuation bytes follow a lead byte. */
  function Continuations(b: byte): Option<nat> {
    if b <= 0x7f then Some(0)
    else if 0xc0 <= b <= 0xdf then Some(1)
    else if 0xe0 <= b <= 0xef then Some(2)
    else if 0xf0 <= b <= 0xf4 then Some(3)
    else None
  }

  predicate IsContinuation(b: byte) {
    0x80 <= b <= 0xbf
  }

  /** The outcome of the check from position i on. */
  function Check(s: seq<byte>, i: nat): Result<()>
    decreases |s| - i
  {
    if i >= |s| then Ok(())
    else if i + 1 != |s| && s[i] == 0 then Err(InvalidFormat)
    else
      match Continuations(s[i])
      case None => Err(InvalidFormat)
      case Some(n) =>
        if i + n >= |s| then Err(BufferOverflow)
        else if forall k | i < k <= i + n :: IsContinuation(s[k]) then Check(s, i + n + 1)
        else Err(InvalidFormat)
  }

  method VerifyUtf8(str: seq<byte>) returns (res: Result<()>)
    ensures res == Check(str, 0)
  {
    var i := 0;
    while i < |str|
      invariant i <= |str|
      invariant Check(str, 0) == Check(str, i)
      decreases |str| - i
    {
      var charContinuationLen := 0;
      if i + 1 != |str| && str[i] == 0 {
        return Err(InvalidFormat);
      } else if str[i] <= 0x7f {
        charContinuationLen := 0;
      } else if 0xc0 <= str[i] <= 0xdf {
        charContinuationLen := 1;
      } else if 0xe0 <= str[i] <= 0xef {
        charContinuationLen := 2;
      } else if 0xf0 <= str[i] <= 0xf4 {
        charContinuationLen := 3;
      } else {
        return Err(InvalidFormat);
      }
      if i + charContinuationLen >= |str| {
        return Err(BufferOverflow);
      }
      ghost var lead, all := i, charContinuationLen;
      i := i + 1;
      while i < |str| && charContinuationLen > 0 && IsContinuation(str[i])
        invariant lead < i && i + charContinuationLen == lead + all + 1
        invariant forall k | lead < k < i :: IsContinuation(str[k])
        decreases charContinuationLen
      {
        i := i + 1;
        charContinuationLen := charContinuationLen - 1;
      }
      if charContinuationLen != 0 {
        assert !IsContinuation(str[i]);
        return Err(InvalidFormat);
      }
    }
    return Ok(());
  }

  /** A string value: null-terminated, and UTF-8 by the check above. */
  function StringOf(s: seq<byte>): Result<seq<byte>> {
    if s == [] || s[|s| - 1] != 0 then Err(InvalidFormat)
    else match Check(s, 0)
      case Err(error) => Err(error)
      case Ok(_) => Ok(s)
  }

  // ---- what the check accepts ----------------------------------------------------------------

  predicate IsChar(c: seq<byte>) {
    && c != [] && Continuations(c[0]) == Some(|c| - 1)
    && forall k | 1 <= k < |c| :: IsContinuation(c[k])
  }

  function Text(chars: seq<seq<byte>>): seq<byte> {
    if chars == [] then [] else chars[0] + Text(chars[1..])
  }

  /** Characters of which only the last may be a zero byte. */
  predicate IsText(chars: seq<seq<byte>>) {
    && (forall k | 0 <= k < |chars| :: IsChar(chars[k]))
    && (forall k | 0 <= k < |chars| - 1 :: chars[k] != [0])
  }

  lemma TextFront(c: seq<byte>, rest: seq<seq<byte>>)
    ensures Text([c] + rest) == c + Text(rest)
  {
    assert ([c] + rest)[1..] == rest;
  }

  lemma {:induction false} AcceptedIsText(s: seq<byte>, i: nat) returns (chars: seq<seq<byte>>)
    requires i <= |s| && Check(s, i).Ok?
    ensures IsText(chars) && Text(chars) == s[i..]
    decreases |s| - i
  {
    if i == |s| {
      chars := [];
    } else {
      var n := Continuations(s[i]).value;
      var c := s[i..i + n + 1];
      var rest := AcceptedIsText(s, i + n + 1);
      chars := [c] + rest;
      TextFront(c, rest);
      assert c + s[i + n + 1..] == s[i..];
      assert rest != [] ==> rest[0] != [];
      assert c[0] == s[i];
    }
  }

  lemma CheckSkipsChar(s: seq<byte>, i: nat, c: seq<byte>, rest: seq<byte>)
    requires i <= |s| && s[i..] == c + rest && IsChar(c) && (c == [0] ==> rest == [])
    ensures i + |c| <= |s| && s[i + |c|..] == rest && Check(s, i) == Check(s, i + |c|)
  {
    assert forall k | 0 <= k < |c| :: s[i + k] == s[i..][k] == c[k];
    assert s[i + |c|..] == s[i..][|c|..] == rest;
    assert forall k | i < k < i + |c| :: s[k] == c[k - i];
    assert s[i] == 0 ==> c == [0];
  }

  lemma {:induction false} TextIsAccepted(s: seq<byte>, i: nat, chars: seq<seq<byte>>)
    requires i <= |s| && IsText(chars) && Text(chars) == s[i..]
    ensures Check(s, i).Ok?
    decreases chars
  {
    hide Check, IsChar;
    if chars != [] {
      CheckSkipsChar(s, i, chars[0], Text(chars[1..]));
      TextIsAccepted(s, i + |chars[0]|, chars[1..]);
    } else {
      EndAccepted(s, i);
    }
  }

  lemma EndAccepted(s: seq<byte>, i: nat)
    requires i >= |s|
    ensures Check(s, i).Ok?
  {
  }

  /** The check accepts exactly the concatenations of characters without a zero byte before the
      end. */
  lemma CheckExact(s: seq<byte>)
    ensures Check(s, 0).Ok? <==> exists chars :: IsText(chars) && Text(chars) == s
  {
    assert s[0..] == s;
    if Check(s, 0).Ok? {
      var chars := AcceptedIsText(s, 0);
    }
    if chars :| IsText(chars) && Text(chars) == s {
      TextIsAccepted(s, 0, chars);
    }
  }

  /** The beginning of a character that goes on behind the end. */
  predicate IsCut(rest: seq<byte>) {
    rest != [] && Continuations(rest[0]).Some? && |rest| <= Continuations(rest[0]).value
  }

  predicate IsCutText(s: seq<byte>, chars: seq<seq<byte>>, rest: seq<byte>) {
    s == Text(chars) + rest && IsCut(rest) && forall k | 0 <= k < |chars| :: IsChar(chars[k]) && chars[k] != [0]
  }

  lemma {:induction false} OverflowIsCut(s: seq<byte>, i: nat) returns (chars: seq<seq<byte>>, rest: seq<byte>)
    requires i <= |s| && Check(s, i) == Err(BufferOverflow)
    ensures IsCutText(s[i..], chars, rest)
    decreases |s| - i
  {
    var n := Continuations(s[i]).value;
    if i + n >= |s| {
      chars, rest := [], s[i..];
      assert Text([]) + rest == rest;
    } else {
      var c := s[i..i + n + 1];
      chars, rest := OverflowIsCut(s, i + n + 1);
      TextFront(c, chars);
      assert c + (Text(chars) + rest) == s[i..] by {
        assert c + s[i + n + 1..] == s[i..];
      }
      assert c + (Text(chars) + rest) == c + Text(chars) + rest;
      assert IsChar(c) && c[0] == s[i];
      var all := [c] + chars;
      forall k | 0 <= k < |all|
        ensures IsChar(all[k]) && all[k] != [0]
      {
        assert k > 0 ==> all[k] == chars[k - 1];
      }
      hide Check;
      chars := all;
    }
  }

  lemma CutEnds(s: seq<byte>, i: nat, rest: seq<byte>)
    requires i <= |s| && s[i..] == rest && IsCut(rest)
    ensures Check(s, i) == Err(BufferOverflow)
  {
    assert s[i] == rest[0];
  }

  lemma {:induction false} CutOverflows(s: seq<byte>, i: nat, chars: seq<seq<byte>>, rest: seq<byte>)
    requires i <= |s| && IsCutText(s[i..], chars, rest)
    ensures Check(s, i) == Err(BufferOverflow)
    decreases chars
  {
    hide Check, IsChar, IsCut;
    if chars == [] {
      assert Text(chars) + rest == rest;
      CutEnds(s, i, rest);
    } else {
      var more := Text(chars[1..]) + rest;
      assert s[i..] == chars[0] + more;
      CheckSkipsChar(s, i, chars[0], more);
      CutOverflows(s, i + |chars[0]|, chars[1..], rest);
    }
  }

  /** The error for a text that ends within a character; every other text that is refused has an
      invalid format. */
  lemma CutExact(s: seq<byte>)
    ensures Check(s, 0) == Err(BufferOverflow) <==> exists chars, rest :: IsCutText(s, chars, rest)
    ensures Check(s, 0).Ok? || Check(s, 0) == Err(BufferOverflow) || Check(s, 0) == Err(InvalidFormat)
  {
    assert s[0..] == s;
    if Check(s, 0) == Err(BufferOverflow) {
      var chars, rest := OverflowIsCut(s, 0);
    }
    if chars, rest :| IsCutText(s, chars, rest) {
      CutOverflows(s, 0, chars, rest);
    }
    TwoErrors(s, 0);
  }

  lemma {:induction false} TwoErrors(s: seq<byte>, i: nat)
    ensures Check(s, i).Ok? || Check(s, i) == Err(BufferOverflow) || Check(s, i) == Err(InvalidFormat)
    decreases |s| - i
  {
    if i < |s| && Continuations(s[i]).Some? {
      TwoErrors(s, i + Continuations(s[i]).value + 1);
    }
  }

  // ---- RFC 3629 ------------------------------------------------------------------------------

  predicate IsCodePoint(p: int) {
    0 <= p <= 0x10ffff && !(0xd800 <= p <= 0xdfff)
  }

  /** The encoding of section 3 of RFC 3629. */
  function EncodePoint(p: int): (c: seq<byte>)
    requires 0 <= p <= 0x10ffff
  {
    var q := p / 64;
    var r := q / 64;
    if p < 0x80 then [p]
    else if p < 0x800 then [0xc0 + q, 0x80 + p % 64]
    else if p < 0x1_0000 then [0xe0 + r, 0x80 + q % 64, 0x80 + p % 64]
    else [0xf0 + r / 64, 0x80 + r % 64, 0x80 + q % 64, 0x80 + p % 64]
  }

  /** The number that the bits of a character make up. */
  function PointOf(c: seq<byte>): int
    requires IsChar(c)
  {
    if |c| == 1 then c[0]
    else if |c| == 2 then Join(c[0] as int - 0xc0, c[1])
    else if |c| == 3 then Join(Join(c[0] as int - 0xe0, c[1]), c[2])
    else Join(Join(Join(c[0] as int - 0xf0, c[1]), c[2]), c[3])
  }

  /** Six more bits, from a continuation byte. */
  function Join(high: int, b: byte): int {
    high * 64 + (b as int - 0x80)
  }

  /** The first number that needs as many bytes. */
  function LeastOfLength(n: int): int {
    if n == 2 then 0x80 else if n == 3 then 0x800 else if n == 4 then 0x1_0000 else 0
  }

  lemma PointOfEncoding(p: int)
    requires 0 <= p <= 0x10ffff
    ensures IsChar(EncodePoint(p)) && PointOf(EncodePoint(p)) == p && p >= LeastOfLength(|EncodePoint(p)|)
  {
    var c := EncodePoint(p);
    var q := p / 64;
    assert Join(q, 0x80 + p % 64) == p && Join(q / 64, 0x80 + q % 64) == q;
  }

  lemma SplitJoin(high: int, b: byte)
    requires IsContinuation(b)
    ensures Join(high, b) / 64 == high && 0x80 + Join(high, b) % 64 == b
  {
  }

  lemma EncodingOfTwo(high: int, b: byte)
    requires IsContinuation(b) && 0x80 <= Join(high, b) < 0x800
    ensures EncodePoint(Join(high, b)) == [0xc0 + high, b]
  {
    SplitJoin(high, b);
    hide Join;
  }

  lemma EncodingOfThree(high: int, b: byte, c: byte)
    requires IsContinuation(b) && IsContinuation(c) && 0x800 <= Join(Join(high, b), c) < 0x1_0000
    ensures EncodePoint(Join(Join(high, b), c)) == [0xe0 + high, b, c]
  {
    SplitJoin(high, b);
    SplitJoin(Join(high, b), c);
    hide Join;
  }

  lemma EncodingOfFour(high: int, b: byte, c: byte, d: byte)
    requires IsContinuation(b) && IsContinuation(c) && IsContinuation(d)
    requires 0x1_0000 <= Join(Join(Join(high, b), c), d) <= 0x10ffff
    ensures EncodePoint(Join(Join(Join(high, b), c), d)) == [0xf0 + high, b, c, d]
  {
    SplitJoin(high, b);
    SplitJoin(Join(high, b), c);
    SplitJoin(Join(Join(high, b), c), d);
    hide Join;
  }

  lemma JoinBounds(high: int, b: byte)
    requires IsContinuation(b)
    ensures 64 * high <= Join(high, b) < 64 * high + 64
  {
  }

  lemma EncodingOfPoint(c: seq<byte>)
    requires IsChar(c) && LeastOfLength(|c|) <= PointOf(c) <= 0x10ffff
    ensures EncodePoint(PointOf(c)) == c
  {
    hide Join;
    if |c| == 2 {
      JoinBounds(c[0] as int - 0xc0, c[1]);
      EncodingOfTwo(c[0] as int - 0xc0, c[1]);
    } else if |c| == 3 {
      var high := c[0] as int - 0xe0;
      JoinBounds(high, c[1]);
      JoinBounds(Join(high, c[1]), c[2]);
      EncodingOfThree(high, c[1], c[2]);
    } else if |c| == 4 {
      EncodingOfFour(c[0] as int - 0xf0, c[1], c[2], c[3]);
    }
  }

  /** A character that the check accepts is one of RFC 3629 exactly when it is not overlong, not a
      surrogate and not beyond the last code point. */
  lemma CharExact(c: seq<byte>)
    requires IsChar(c)
    ensures (exists p :: IsCodePoint(p) && c == EncodePoint(p)) <==>
      IsCodePoint(PointOf(c)) && PointOf(c) >= LeastOfLength(|c|)
  {
    if p :| IsCodePoint(p) && c == EncodePoint(p) {
      PointOfEncoding(p);
    }
    if IsCodePoint(PointOf(c)) && PointOf(c) >= LeastOfLength(|c|) {
      EncodingOfPoint(c);
    }
  }

  predicate NonZeroPoints(points: seq<int>) {
    forall k | 0 <= k < |points| :: IsCodePoint(points[k]) && points[k] != 0
  }

  function EncodePoints(points: seq<int>): seq<byte>
    requires NonZeroPoints(points)
  {
    if points == [] then [] else EncodePoint(points[0]) + EncodePoints(points[1..])
  }

  lemma {:induction false} EncodedText(points: seq<int>) returns (chars: seq<seq<byte>>)
    requires NonZeroPoints(points)
    ensures IsText(chars + [[0]]) && Text(chars + [[0]]) == EncodePoints(points) + [0]
  {
    if points == [] {
      chars := [];
      assert [] + [[0]] == [[0]] && [[0]][1..] == [];
    } else {
      var c := EncodePoint(points[0]);
      PointOfEncoding(points[0]);
      var rest := EncodedText(points[1..]);
      chars := [c] + rest;
      assert chars + [[0]] == [c] + (rest + [[0]]);
      TextFront(c, rest + [[0]]);
      assert c + (EncodePoints(points[1..]) + [0]) == EncodePoints(points) + [0];
    }
  }

  /** Every null-terminated text of RFC 3629 without U+0000 is a string value. */
  lemma EncodingAccepted(points: seq<int>)
    requires NonZeroPoints(points)
    ensures StringOf(EncodePoints(points) + [0]) == Ok(EncodePoints(points) + [0])
  {
    var s := EncodePoints(points) + [0];
    var chars := EncodedText(points);
    assert s[0..] == s;
    TextIsAccepted(s, 0, chars + [[0]]);
  }

  /** The two-byte form of zero is accepted, in the middle of a string, and is no code point. */
  lemma OverlongAccepted()
    ensures StringOf([0xc0, 0x80, 0]).Ok?
    ensures forall p | IsCodePoint(p) :: EncodePoint(p) != [0xc0, 0x80]
  {
    var s: seq<byte> := [0xc0, 0x80, 0];
    assert Check(s, 2) == Check(s, 3) == Ok(());
    var c: seq<byte> := [0xc0, 0x80];
    assert IsChar(c) && PointOf(c) == 0;
    CharExact(c);
  }
}
