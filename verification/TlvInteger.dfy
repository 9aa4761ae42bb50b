/** Unsigned 64-bit integers as TLV payloads: big-endian, without leading zero bytes. */
module TlvInteger {
  import opened Common
  import opened Tlv

  /** The minimal big-endian form; zero is the empty string. */
  function IntBytes(v: nat): seq<byte> {
    if v == 0 then [] else IntBytes(v / 256) + [v % 256]
  }

  function BytesValue(s: seq<byte>): nat {
    if s == [] then 0 else 256 * BytesValue(s[..|s| - 1]) + s[|s| - 1]
  }

  function Power256(n: nat): (r: nat)
    ensures r >= 1
  {
    if n == 0 then 1 else 256 * Power256(n - 1)
  }

  lemma {:induction false} ValueOfIntBytes(v: nat)
    ensures BytesValue(IntBytes(v)) == v
    ensures v > 0 ==> IntBytes(v)[0] != 0
  {
    if v > 0 {
      ValueOfIntBytes(v / 256);
      var s := IntBytes(v);
      assert s[..|s| - 1] == IntBytes(v / 256);
    }
  }

  lemma {:induction false} IntBytesOfValue(s: seq<byte>)
    ensures IntBytes(BytesValue(s)) == s <==> s == [] || s[0] != 0
    ensures s != [] && s[0] != 0 ==> BytesValue(s) > 0
  {
    if s != [] {
      var rest, b := s[..|s| - 1], s[|s| - 1];
      IntBytesOfValue(rest);
      assert BytesValue(s) / 256 == BytesValue(rest) && BytesValue(s) % 256 == b;
      assert s == rest + [b];
      ValueOfIntBytes(BytesValue(s));
    }
  }

  lemma {:induction false} ValueBound(s: seq<byte>)
    ensures BytesValue(s) < Power256(|s|)
  {
    if s != [] {
      ValueBound(s[..|s| - 1]);
    }
  }

  // The size macros of the source.

  function MinSize16(v: nat): nat {
    if v > 0xff then 2 else if v == 0 then 0 else 1
  }

  function MinSize32(v: nat): nat {
    if v > 0xffff then 2 + MinSize16(v / 0x1_0000) else MinSize16(v)
  }

  function MinSize64(v: nat): nat {
    if v > 0xffff_ffff then 4 + MinSize32(v / 0x1_0000_0000) else MinSize32(v)
  }

  lemma {:induction false} IntBytesLength(v: nat, n: nat)
    ensures |IntBytes(v)| <= n <==> v < Power256(n)
  {
    if v > 0 && n > 0 {
      IntBytesLength(v / 256, n - 1);
      assert |IntBytes(v)| == |IntBytes(v / 256)| + 1;
    }
  }

  /** The macro counts the bytes of the minimal form. */
  lemma MinSizeIsLength(v: uint64)
    ensures MinSize64(v) == |IntBytes(v)| <= 8
  {
    PowersOf256();
    IntBytesLength(v, 0);
    IntBytesLength(v, 1);
    IntBytesLength(v, 2);
    IntBytesLength(v, 3);
    IntBytesLength(v, 4);
    IntBytesLength(v, 5);
    IntBytesLength(v, 6);
    IntBytesLength(v, 7);
    IntBytesLength(v, 8);
  }

  lemma PowersOf256()
    ensures Power256(0) == 1 && Power256(1) == 0x100 && Power256(2) == 0x1_0000 && Power256(3) == 0x100_0000
    ensures Power256(4) == 0x1_0000_0000 && Power256(5) == 0x100_0000_0000 && Power256(6) == 0x1_0000_0000_0000
    ensures Power256(7) == 0x100_0000_0000_0000 && Power256(8) == UINT64_LIMIT
  {
    assert Power256(3) == 256 * Power256(2);
    assert Power256(4) == 256 * Power256(3);
    assert Power256(5) == 256 * Power256(4);
    assert Power256(6) == 256 * Power256(5);
    assert Power256(7) == 256 * Power256(6);
    assert Power256(8) == 256 * Power256(7);
  }

  /** The value of an integer payload, if it is one. */
  function IntegerOf(p: Payload): Result<uint64> {
    match p
    case Nested(_) => Err(PayloadTypeMismatch)
    case Raw(bytes) =>
      if |bytes| > 8 || (bytes != [] && bytes[0] == 0) then Err(InvalidFormat)
      else
        assert BytesValue(bytes) < UINT64_LIMIT by { ValueFits(bytes); }
        Ok(BytesValue(bytes))
  }

  lemma ValueFits(s: seq<byte>)
    requires |s| <= 8
    ensures BytesValue(s) < UINT64_LIMIT
  {
    ValueBound(s);
    PowersOf256();
    IntBytesLength(BytesValue(s), 8);
    PowerMonotone(|s|, 8);
  }

  lemma {:induction false} PowerMonotone(m: nat, n: nat)
    requires m <= n
    ensures Power256(m) <= Power256(n)
  {
    if m < n {
      PowerMonotone(m, n - 1);
    }
  }

  method IntegerFromTlv(t: Tlv) returns (res: Result<uint64>)
    ensures res == IntegerOf(t.payload)
  {
    if t.payload.Nested? {
      return Err(PayloadTypeMismatch);
    }
    var raw := t.payload.bytes;
    var len := |raw|;
    if len > 8 {
      return Err(InvalidFormat);
    }
    var val: nat := 0;
    for i := 0 to len
      invariant val == BytesValue(raw[..i])
    {
      assert raw[..i + 1][..i] == raw[..i];
      val := val * 256 + raw[i];
    }
    assert raw[..len] == raw;
    ValueFits(raw);
    MinSizeIsLength(val);
    IntBytesOfValue(raw);
    SameLengthMinimal(raw);
    if len != MinSize64(val) {
      return Err(InvalidFormat);
    }
    return Ok(val);
  }

  /** A byte string is minimal as soon as it is as long as the minimal form of its value. */
  lemma SameLengthMinimal(s: seq<byte>)
    ensures |s| == |IntBytes(BytesValue(s))| <==> s == [] || s[0] != 0
  {
    IntBytesOfValue(s);
    if s != [] && s[0] == 0 {
      ValueOfTail(s);
      ValueBound(s[1..]);
      IntBytesLength(BytesValue(s), |s| - 1);
    }
  }

  lemma {:induction false} ValueOfTail(s: seq<byte>)
    requires s != [] && s[0] == 0
    ensures BytesValue(s) == BytesValue(s[1..])
  {
    if |s| > 1 {
      ValueOfTail(s[..|s| - 1]);
      assert s[..|s| - 1][1..] == s[1..][..|s| - 2];
    }
  }

  /** One more byte at the front of the bytes written so far. */
  lemma NextByte(val: nat, raw: seq<byte>, at: nat)
    requires val != 0 && at < |raw|
    ensures IntBytes(val) + raw[at + 1..] == IntBytes(val / 256) + raw[at := val % 256][at..]
  {
    var now := raw[at := val % 256];
    assert now[at..] == [val % 256] + raw[at + 1..];
    assert IntBytes(val) == IntBytes(val / 256) + [val % 256];
    hide IntBytes;
  }

  /** Collects the bytes of the value from the end of an eight-byte buffer. */
  method IntegerToTlv(v: uint64, tag: Tag, nonCritical: bool, forward: bool) returns (t: Tlv)
    ensures t == Tlv(tag, nonCritical, forward, Raw(IntBytes(v)))
  {
    var raw := new byte[8](_ => 0);
    var val: nat := v;
    var len := 0;
    MinSizeIsLength(v);
    hide MinSize64;
    while val != 0
      invariant 0 <= len <= 8 && fresh(raw) && raw.Length == 8
      invariant IntBytes(v) == IntBytes(val) + raw[8 - len..]
    {
      assert IntBytes(val) != [];
      NextByte(val, raw[..], 7 - len);
      raw[7 - len] := val % 256;
      len := len + 1;
      val := val / 256;
    }
    assert IntBytes(v) == raw[8 - len..];
    return Tlv(tag, nonCritical, forward, Raw(raw[8 - len..]));
  }

  /** Integers and minimal payloads of at most eight bytes correspond one to one. */
  lemma IntegerExact(p: Payload, v: uint64)
    ensures IntegerOf(p) == Ok(v) <==> p == Raw(IntBytes(v))
    ensures IntegerOf(p).Err? ==> IntegerOf(p) == Err(if p.Nested? then PayloadTypeMismatch else InvalidFormat)
  {
    MinSizeIsLength(v);
    ValueOfIntBytes(v);
    if p.Raw? {
      IntBytesOfValue(p.bytes);
    }
  }

  /** The bytes are the digits to the base 256, the highest first. */
  lemma {:induction false} ByteOfInteger(v: nat, i: nat)
    requires i < |IntBytes(v)|
    ensures IntBytes(v)[i] == v / Power256(|IntBytes(v)| - 1 - i) % 256
    decreases v
  {
    var n := |IntBytes(v)| - 1;
    if i < n {
      ByteOfInteger(v / 256, i);
      var p := Power256(n - 1 - i);
      assert Power256(n - i) == 256 * p;
      DivideTwice(v, p);
    } else {
      assert Power256(0) == 1;
    }
  }

  lemma DivideTwice(v: nat, p: nat)
    requires p >= 1
    ensures v / 256 / p == v / (256 * p)
  {
    var q, r := v / 256 / p, v / 256 % p;
    assert v / 256 == q * p + r;
    var low := v % 256;
    assert v == 256 * (q * p + r) + low;
    assert v == (256 * p) * q + (256 * r + low);
    assert 0 <= 256 * r + low < 256 * p;
    QuotientIs(v, 256 * p, q, 256 * r + low);
  }

  lemma QuotientIs(v: nat, d: nat, q: nat, r: nat)
    requires v == d * q + r && r < d
    ensures v / d == q
  {
    var k := v / d;
    assert v == d * k + v % d;
    if k < q {
      TimesGrows(d, k + 1, q);
      assert false;
    }
    if q < k {
      TimesGrows(d, q + 1, k);
      assert false;
    }
  }

  lemma TimesGrows(d: nat, a: nat, b: nat)
    requires a <= b
    ensures d * a <= d * b
  {
  }
}
