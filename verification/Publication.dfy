/** Publication strings: a time, an imprint and a checksum in grouped base32. */
module Publication {
  import opened Common
  import Base32
  import Crc32
  import Hashing

  function HashLength(id: bv8): nat {
    Hashing.DigestLength(id as int)
  }

  predicate IsSupported(id: bv8) {
    Hashing.IsSupported(id as int)
  }

  /** An imprint is the algorithm id followed by the digest. */
  datatype PublicationData = PublicationData(time: bv64, imprint: seq<bv8>) {
    predicate Valid() {
      imprint != [] && IsSupported(imprint[0]) && |imprint| == 1 + HashLength(imprint[0])
    }
  }

  // ---- big-endian numbers --------------------------------------------------------------------

  function BigEndian(t: bv64, n: nat): (r: seq<bv8>)
    ensures |r| == n
    decreases n
  {
    if n == 0 then [] else BigEndian(t >> 8, n - 1) + [(t & 0xff) as bv8]
  }

  function Shifted(t: bv64, b: bv8): bv64 {
    (t << 8) | b as bv64
  }

  function FromBigEndian(s: seq<bv8>): bv64 {
    if s == [] then 0 else Shifted(FromBigEndian(s[..|s| - 1]), s[|s| - 1])
  }

  /** The number has at most n bytes. */
  predicate FitsIn(t: bv64, n: nat)
    decreases n
  {
    if n == 0 then t == 0 else FitsIn(t >> 8, n - 1)
  }

  lemma ShiftedBack(t: bv64)
    ensures Shifted(t >> 8, (t & 0xff) as bv8) == t
  {
  }

  lemma {:induction false} FromBigEndianOf(t: bv64, n: nat)
    requires FitsIn(t, n)
    ensures FromBigEndian(BigEndian(t, n)) == t
    decreases n
  {
    hide Shifted;
    if n > 0 {
      var s := BigEndian(t, n);
      assert s[..|s| - 1] == BigEndian(t >> 8, n - 1);
      FromBigEndianOf(t >> 8, n - 1);
      ShiftedBack(t);
    }
  }

  lemma ShiftedParts(t: bv64, b: bv8)
    ensures (Shifted(t, b) & 0xff) as bv8 == b
    ensures t & 0xff00_0000_0000_0000 == 0 ==> Shifted(t, b) >> 8 == t
  {
  }

  /** Any eight bytes, and fewer, are the big-endian form of the number they make. */
  lemma {:induction false} BigEndianOfBytes(s: seq<bv8>)
    requires |s| <= 8
    ensures BigEndian(FromBigEndian(s), |s|) == s
  {
    hide Shifted;
    if s != [] {
      var rest, b := s[..|s| - 1], s[|s| - 1];
      BigEndianOfBytes(rest);
      TopByteClear(rest);
      ShiftedParts(FromBigEndian(rest), b);
      assert s == rest + [b];
    }
  }

  /** The bits above the lowest n bytes, for n up to seven. */
  function Above(n: nat): bv64
    requires n <= 7
  {
    match n
    case 0 => 0xffff_ffff_ffff_ffff
    case 1 => 0xffff_ffff_ffff_ff00
    case 2 => 0xffff_ffff_ffff_0000
    case 3 => 0xffff_ffff_ff00_0000
    case 4 => 0xffff_ffff_0000_0000
    case 5 => 0xffff_ff00_0000_0000
    case 6 => 0xffff_0000_0000_0000
    case _ => 0xff00_0000_0000_0000
  }

  lemma AboveShifted(t: bv64, b: bv8, n: nat)
    requires n < 7 && t & Above(n) == 0
    ensures Shifted(t, b) & Above(n + 1) == 0
  {
  }

  lemma {:induction false} ClearAbove(s: seq<bv8>)
    requires |s| <= 7
    ensures FromBigEndian(s) & Above(|s|) == 0
  {
    hide Shifted, Above;
    if s == [] {
      assert 0 & Above(0) == 0;
    } else {
      var rest := s[..|s| - 1];
      ClearAbove(rest);
      AboveShifted(FromBigEndian(rest), s[|s| - 1], |rest|);
    }
  }

  lemma AboveIncludesTop(t: bv64, n: nat)
    requires n <= 7 && t & Above(n) == 0
    ensures t & 0xff00_0000_0000_0000 == 0
  {
  }

  lemma TopByteClear(s: seq<bv8>)
    requires |s| <= 7
    ensures FromBigEndian(s) & 0xff00_0000_0000_0000 == 0
  {
    ClearAbove(s);
    AboveIncludesTop(FromBigEndian(s), |s|);
  }

  lemma EveryTimeFits(t: bv64)
    ensures FitsIn(t, 8)
  {
    var t4 := t >> 8 >> 8 >> 8 >> 8;
    assert FitsIn(t4, 4);
  }

  lemma EveryChecksumFits(c: bv32)
    ensures FitsIn(Widen(c), 4)
  {
  }

  lemma ChecksumsAsLong(c: bv32, d: bv32)
    requires c != d
    ensures Widen(c) != Widen(d)
  {
  }

  lemma NumbersDiffer(x: seq<bv8>, y: seq<bv8>)
    requires |x| == |y| <= 8 && x != y
    ensures FromBigEndian(x) != FromBigEndian(y)
  {
    hide BigEndian, FromBigEndian;
    BigEndianOfBytes(x);
    BigEndianOfBytes(y);
  }

  // ---- printing ------------------------------------------------------------------------------

  function Body(d: PublicationData): seq<bv8> {
    BigEndian(d.time, 8) + d.imprint
  }

  function CrcBytes(body: seq<bv8>): (r: seq<bv8>)
    ensures |r| == 4
  {
    BigEndian(Checksum64(body), 4)
  }

  /** The checksum in the type `unsigned long`. */
  function Checksum64(body: seq<bv8>): bv64 {
    Widen(Crc32.Checksum(body, 0))
  }

  function Widen(c: bv32): bv64 {
    c as bv64
  }

  /** The bytes that a publication string encodes. */
  function Binary(d: PublicationData): seq<bv8> {
    Body(d) + CrcBytes(Body(d))
  }

  /** Writes a number into buf[at..at + n], lowest byte last, as both loops of the source do. */
  method WriteBigEndian(buf: array<bv8>, at: nat, n: nat, value: bv64)
    requires at + n <= buf.Length
    modifies buf
    ensures buf[..] == old(buf[..at]) + BigEndian(value, n) + old(buf[at + n..])
  {
    var v, i := value, n;
    while i > 0
      invariant 0 <= i <= n
      invariant buf[..at] == old(buf[..at]) && buf[at + n..] == old(buf[at + n..])
      invariant BigEndian(value, n) == BigEndian(v, i) + buf[at + i..at + n]
    {
      i := i - 1;
      buf[at + i] := (v & 0xff) as bv8;
      assert buf[at + i..at + n] == [(v & 0xff) as bv8] + buf[at + i + 1..at + n];
      v := v >> 8;
    }
    assert buf[..] == buf[..at] + buf[at..at + n] + buf[at + n..];
  }

  method Checksum(body: seq<bv8>) returns (crc: bv64)
    ensures crc == Checksum64(body)
  {
    hide Crc32.Checksum, Widen;
    var c := Crc32.ComputeCrc32(body, 0);
    return Widen(c);
  }

  method ToBase32(d: PublicationData) returns (res: Result<Base32.CString>)
    ensures res.Ok? && Base32.Encodes(res.value, Binary(d), 6)
  {
    hide Checksum64, BigEndian, Base32.Encodes;
    var n := |d.imprint|;
    var binPub := new bv8[8 + n + 4](_ => 0);
    WriteBigEndian(binPub, 0, 8, d.time);
    forall i | 0 <= i < n {
      binPub[8 + i] := d.imprint[i];
    }
    assert binPub[..8 + n] == Body(d);
    var crc := Checksum(binPub[..binPub.Length - 4]);
    WriteBigEndian(binPub, 8 + n, 4, crc);
    assert binPub[..] == Binary(d);
    res := Base32.Encode(binPub[..], 6);
  }

  // ---- parsing -------------------------------------------------------------------------------

  function ParseBinary(b: seq<bv8>): Result<PublicationData> {
    if |b| < 13 then Err(InvalidFormat)
    else
      var body, crc := b[..|b| - 4], b[|b| - 4..];
      if Checksum64(body) != FromBigEndian(crc) then Err(InvalidFormat)
      else if !IsSupported(b[8]) then Err(UnavailableHashAlgorithm)
      else if |b| != 8 + 1 + HashLength(b[8]) + 4 then Err(InvalidFormat)
      else Ok(PublicationData(FromBigEndian(b[..8]), b[8..9 + HashLength(b[8])]))
  }

  function ParseText(s: string): Result<PublicationData> {
    match Base32.DecodeText(s)
    case Err(e) => Err(e)
    case Ok(b) => ParseBinary(b)
  }

  /** The byte-collecting loop of the source. */
  method ReadBigEndian(b: seq<bv8>, at: nat, n: nat) returns (value: bv64)
    requires at + n <= |b|
    ensures value == FromBigEndian(b[at..at + n])
  {
    value := 0;
    for i := 0 to n
      invariant value == FromBigEndian(b[at..at + i])
    {
      var prefix := b[at..at + i + 1];
      assert prefix[..|prefix| - 1] == b[at..at + i];
      value := Shifted(value, b[at + i]);
    }
  }

  method FromBase32(publication: Base32.CString) returns (res: Result<PublicationData>)
    ensures res == ParseText(publication)
  {
    hide Checksum64, HashLength, IsSupported, FromBigEndian, Base32.DecodeText, ParseBinary;
    var decoded := Base32.Decode(publication);
    if decoded.Err? {
      return Err(decoded.error);
    }
    res := ParseDecoded(decoded.value);
  }

  /** The checks behind the decoding. */
  method ParseDecoded(b: seq<bv8>) returns (res: Result<PublicationData>)
    ensures res == ParseBinary(b)
  {
    hide Checksum64, HashLength, IsSupported, FromBigEndian;
    if |b| < 13 {
      return Err(InvalidFormat);
    }
    var stored := ReadBigEndian(b, |b| - 4, 4);
    var crc := Checksum(b[..|b| - 4]);
    assert b[|b| - 4..|b| - 4 + 4] == b[|b| - 4..];
    if crc != stored {
      return Err(InvalidFormat);
    }
    var time := ReadBigEndian(b, 0, 8);
    assert b[0..8] == b[..8];
    var hashAlg := b[8];
    if !IsSupported(hashAlg) {
      return Err(UnavailableHashAlgorithm);
    }
    var hashSize := HashLength(hashAlg);
    if |b| != 8 + 1 + hashSize + 4 {
      return Err(InvalidFormat);
    }
    return Ok(PublicationData(time, b[8..8 + hashSize + 1]));
  }

  // ---- properties ----------------------------------------------------------------------------

  lemma ParsePrinted(d: PublicationData)
    requires d.Valid()
    ensures ParseBinary(Binary(d)) == Ok(d)
  {
    hide Checksum64, HashLength, IsSupported, FromBigEndian, BigEndian;
    var b, body := Binary(d), Body(d);
    assert b[..|b| - 4] == body && b[|b| - 4..] == CrcBytes(body);
    assert b[8] == d.imprint[0];
    ChecksumReadsBack(body);
    EveryTimeFits(d.time);
    FromBigEndianOf(d.time, 8);
    assert b[..8] == BigEndian(d.time, 8);
    assert b[8..9 + HashLength(b[8])] == d.imprint;
  }

  lemma ChecksumReadsBack(body: seq<bv8>)
    ensures FromBigEndian(CrcBytes(body)) == Checksum64(body)
  {
    hide FromBigEndian, BigEndian, FitsIn, Crc32.Checksum, Widen;
    EveryChecksumFits(Crc32.Checksum(body, 0));
    FromBigEndianOf(Checksum64(body), 4);
  }

  lemma PrintParsed(b: seq<bv8>)
    requires ParseBinary(b).Ok?
    ensures ParseBinary(b).value.Valid() && b == Binary(ParseBinary(b).value)
  {
    hide Checksum64, HashLength, IsSupported, FromBigEndian, BigEndian;
    var d := ParseBinary(b).value;
    var body, crc := b[..|b| - 4], b[|b| - 4..];
    BigEndianOfBytes(b[..8]);
    BigEndianOfBytes(crc);
    assert d.imprint[0] == b[8];
    assert body == b[..8] + d.imprint;
    assert b == body + crc;
  }

  /** The parser accepts exactly the bytes that printing produces, and returns what was printed. */
  lemma ParseBinaryExact(b: seq<bv8>, d: PublicationData)
    ensures ParseBinary(b) == Ok(d) <==> d.Valid() && b == Binary(d)
  {
    hide ParseBinary, Binary;
    if d.Valid() {
      ParsePrinted(d);
    }
    if ParseBinary(b) == Ok(d) {
      PrintParsed(b);
    }
  }

  /** What is printed parses back, for every 64-bit time and every supported imprint. */
  lemma PublicationRoundTrip(d: PublicationData, s: string)
    requires d.Valid() && Base32.Encodes(s, Binary(d), 6)
    ensures ParseText(s) == Ok(d)
  {
    Base32.RoundTrip(s, Binary(d));
    ParseBinaryExact(Binary(d), d);
  }

  /** Damage to at most four neighbouring bytes, all of them before the checksum or all of them
      in it, is always noticed. */
  lemma DamageRejected(d: PublicationData, b: seq<bv8>, at: nat, n: nat)
    requires d.Valid() && |b| == |Binary(d)| && b != Binary(d)
    requires n <= 4 && (at + n <= |b| - 4 || |b| - 4 <= at <= at + n <= |b|)
    requires b[..at] == Binary(d)[..at] && b[at + n..] == Binary(d)[at + n..]
    ensures ParseBinary(b) == Err(InvalidFormat)
  {
    hide Checksum64, HashLength, IsSupported, FromBigEndian, BigEndian;
    var good := Binary(d);
    var k := |b| - 4;
    assert good[..k] == Body(d) && good[k..] == CrcBytes(Body(d));
    ChecksumReadsBack(Body(d));
    if at + n <= k {
      BodyDamage(good, b, at, n);
      assert b[k..] == good[k..] by {
        assert b[k..] == b[at + n..][k - at - n..] && good[k..] == good[at + n..][k - at - n..];
      }
    } else {
      assert b[..k] == good[..k] by {
        assert b[..k] == b[..at][..k] && good[..k] == good[..at][..k];
      }
      assert b == b[..k] + b[k..] && good == good[..k] + good[k..];
      NumbersDiffer(b[k..], good[k..]);
    }
  }

  lemma BodyDamage(good: seq<bv8>, b: seq<bv8>, at: nat, n: nat)
    requires |b| == |good| >= 4 && b != good && n <= 4 && at + n <= |b| - 4
    requires b[..at] == good[..at] && b[at + n..] == good[at + n..]
    ensures Checksum64(b[..|b| - 4]) != Checksum64(good[..|b| - 4])
  {
    hide Crc32.Checksum, Widen;
    var k := |b| - 4;
    var s, t := b[at..at + n], good[at..at + n];
    var before, after := b[..at], b[at + n..k];
    assert after == good[at + n..k] by {
      assert after == b[at + n..][..k - at - n] && good[at + n..k] == good[at + n..][..k - at - n];
    }
    assert b[..k] == before + s + after && good[..k] == before + t + after;
    assert b == before + s + b[at + n..] && good == before + t + good[at + n..];
    Crc32.BurstDetected(before, s, t, after, 0);
    ChecksumsAsLong(Crc32.Checksum(b[..k], 0), Crc32.Checksum(good[..k], 0));
  }

  /** In particular no single damaged byte is ever accepted. */
  lemma SingleByteDamageRejected(d: PublicationData, at: nat, x: bv8)
    requires d.Valid() && at < |Binary(d)| && x != Binary(d)[at]
    ensures ParseBinary(Binary(d)[at := x]) == Err(InvalidFormat)
  {
    DamageRejected(d, Binary(d)[at := x], at, 1);
  }

  function LowBytes(t: bv64): bv64 {
    t & 0x00ff_ffff
  }

  lemma LowNumber(t: bv64, a: bv8, b: bv8, c: bv8)
    ensures LowBytes(Shifted(Shifted(Shifted(t, a), b), c)) == Shifted(Shifted(Shifted(0, a), b), c)
  {
  }

  lemma NumberAppend(s: seq<bv8>, b: bv8)
    ensures FromBigEndian(s + [b]) == Shifted(FromBigEndian(s), b)
  {
    hide Shifted;
    assert (s + [b])[..|s|] == s;
  }

  lemma NumberOfThree(s: seq<bv8>, a: bv8, b: bv8, c: bv8)
    ensures FromBigEndian(s + [a, b, c]) == Shifted(Shifted(Shifted(FromBigEndian(s), a), b), c)
  {
    hide FromBigEndian, Shifted;
    NumberAppend(s, a);
    NumberAppend(s + [a], b);
    NumberAppend(s + [a] + [b], c);
    assert s + [a, b, c] == s + [a] + [b] + [c];
  }

  /** The low three bytes of a number do not depend on the bytes in front of them. */
  lemma LowBytesOf(s: seq<bv8>)
    requires |s| == 4
    ensures LowBytes(FromBigEndian(s)) == FromBigEndian(s[1..])
  {
    hide Shifted, LowBytes;
    var t := s[1..];
    NumberOfThree(s[..1], s[1], s[2], s[3]);
    NumberOfThree([], s[1], s[2], s[3]);
    assert s == s[..1] + [s[1], s[2], s[3]] && t == [] + [s[1], s[2], s[3]];
    LowNumber(FromBigEndian(s[..1]), s[1], s[2], s[3]);
    hide FromBigEndian;
  }

  lemma LowBytesAsLong(c: bv32)
    ensures LowBytes(Widen(c)) == Crc32.LowBytes(c)
  {
  }

  /** Damage to the last byte before the checksum and the first byte of the checksum. */
  lemma BorderDamage(d: PublicationData, b: seq<bv8>, k: nat)
    requires d.Valid() && |b| == |Binary(d)| == k + 4
    requires b[..k - 1] == Binary(d)[..k - 1] && b[k + 1..] == Binary(d)[k + 1..] && b[k - 1] != Binary(d)[k - 1]
    ensures ParseBinary(b) == Err(InvalidFormat)
  {
    hide HashLength, IsSupported, FromBigEndian, BigEndian, Widen, Crc32.Checksum, Crc32.LowBytes, LowBytes;
    var good, front := Binary(d), b[..k - 1];
    assert good[..k] == Body(d) && good[k..] == CrcBytes(Body(d));
    ChecksumReadsBack(Body(d));
    assert b[..k] == front + [b[k - 1]] && good[..k] == front + [good[k - 1]];
    Crc32.LastByteSpreads(front, b[k - 1], good[k - 1], 0);
    LowBytesAsLong(Crc32.Checksum(b[..k], 0));
    LowBytesAsLong(Crc32.Checksum(good[..k], 0));
    LowBytesOf(b[k..]);
    LowBytesOf(good[k..]);
    assert b[k..][1..] == b[k + 1..] && good[k..][1..] == good[k + 1..];
  }

  /** Damage that is given byte by byte. */
  lemma BytesDamaged(d: PublicationData, b: seq<bv8>, at: nat, n: nat)
    requires d.Valid() && |b| == |Binary(d)| && b != Binary(d)
    requires n <= 4 && (at + n <= |b| - 4 || |b| - 4 <= at <= at + n <= |b|)
    requires forall i | 0 <= i < |b| && !(at <= i < at + n) :: b[i] == Binary(d)[i]
    ensures ParseBinary(b) == Err(InvalidFormat)
  {
    hide ParseBinary, IsSupported, HashLength, Binary;
    DamageRejected(d, b, at, n);
  }

  /** Damage to two neighbouring bytes is noticed wherever it is. */
  lemma NeighboursDamaged(d: PublicationData, b: seq<bv8>, p: nat)
    requires d.Valid() && |b| == |Binary(d)| && b != Binary(d)
    requires forall i | 0 <= i < |b| && i != p && i != p + 1 :: b[i] == Binary(d)[i]
    ensures ParseBinary(b) == Err(InvalidFormat)
  {
    var good, k := Binary(d), |b| - 4;
    assert k >= 9;
    hide ParseBinary, IsSupported, HashLength, Binary;
    if p + 1 != k {
      BytesDamaged(d, b, p, if p + 1 < |b| then 2 else 1);
    } else if b[p] == good[p] {
      BytesDamaged(d, b, k, 1);
    } else {
      BorderDamage(d, b, k);
    }
  }

  /** A character of a publication string that is replaced by another one of the alphabet is
      noticed, unless the two symbols differ only in bits that the decoder drops at the end. */
  lemma CharacterDamageRejected(d: PublicationData, a: string, c: char, x: char, b: string)
    requires d.Valid() && Base32.DecodeText(a + [c] + b) == Ok(Binary(d))
    requires forall i | 0 <= i < |a| :: a[i] != '='
    requires Base32.IsAlphanumeric(c) && Base32.IsAlphanumeric(x)
    ensures Base32.Symbols(a).Some?
    ensures var kept := 8 * |Binary(d)| - 5 * |Base32.Symbols(a).value|;
      ParseText(a + [x] + b) ==
      if Base32.SameBits(Base32.SymbolOf(c), Base32.SymbolOf(x), kept) then Ok(d) else Err(InvalidFormat)
  {
    hide ParseBinary, Binary, Base32.SameBits, Base32.SymbolOf, Base32.Symbols, Base32.DecodeText;
    Base32.CharacterReplaced(a, c, x, b, Binary(d));
    ParseBinaryExact(Binary(d), d);
    var damaged := Base32.DecodeText(a + [x] + b).value;
    if damaged != Binary(d) {
      NeighboursDamaged(d, damaged, 5 * |Base32.Symbols(a).value| / 8);
    }
  }

  // ---- the layout ----------------------------------------------------------------------------

  /** Byte k of a number, the lowest one being byte 0. */
  function OctetOf(t: bv64, k: nat): bv8
    requires k < 8
  {
    match k
    case 0 => (t & 0xff) as bv8
    case 1 => ((t >> 8) & 0xff) as bv8
    case 2 => ((t >> 16) & 0xff) as bv8
    case 3 => ((t >> 24) & 0xff) as bv8
    case 4 => ((t >> 32) & 0xff) as bv8
    case 5 => ((t >> 40) & 0xff) as bv8
    case 6 => ((t >> 48) & 0xff) as bv8
    case _ => ((t >> 56) & 0xff) as bv8
  }

  lemma NextOctet(t: bv64, k: nat)
    requires k < 7
    ensures OctetOf(t >> 8, k) == OctetOf(t, k + 1)
  {
  }

  lemma {:induction false} OctetAt(t: bv64, n: nat, i: nat)
    requires i < n <= 8
    ensures BigEndian(t, n)[i] == OctetOf(t, n - 1 - i)
    decreases n
  {
    if i < n - 1 {
      OctetAt(t >> 8, n - 1, i);
      NextOctet(t, n - 2 - i);
    }
    hide OctetOf;
  }

  /** What a publication string encodes: eight bytes of time, the imprint, and four bytes with the
      checksum of what is in front of them, each number with its high byte first. */
  lemma PrintedLayout(d: PublicationData)
    ensures var b, n := Binary(d), |d.imprint|;
      var crc := Crc32.Checksum(b[..8 + n], 0) as bv64;
      && |b| == 8 + n + 4
      && (forall i | 0 <= i < 8 :: b[i] == OctetOf(d.time, 7 - i))
      && b[8..8 + n] == d.imprint
      && (forall i | 8 + n <= i < 12 + n :: b[i] == OctetOf(crc, 11 + n - i))
  {
    hide BigEndian, OctetOf, Crc32.Checksum;
    var b, n := Binary(d), |d.imprint|;
    assert b[..8 + n] == Body(d);
    forall i | 0 <= i < 8
      ensures b[i] == OctetOf(d.time, 7 - i)
    {
      OctetAt(d.time, 8, i);
    }
    forall i | 8 + n <= i < 12 + n
      ensures b[i] == OctetOf(Checksum64(Body(d)), 11 + n - i)
    {
      OctetAt(Checksum64(Body(d)), 4, i - 8 - n);
    }
  }

  /** The printed string has a separator at every seventh place, or padding. */
  lemma GroupsOfSix(d: PublicationData, s: string, i: nat)
    requires Base32.Encodes(s, Binary(d), 6) && i < |s|
    ensures s[i] == '-' ==> i % 7 == 6
    ensures i % 7 == 6 ==> s[i] == '-' || s[i] == '='
  {
    hide Binary;
  }

  /** Why decoded bytes are refused: an algorithm that is not implemented behind a good checksum, and
      in all other cases the format. */
  lemma RefusedBinary(b: seq<bv8>)
    requires ParseBinary(b).Err?
    ensures ParseBinary(b) == Err(
      if |b| >= 13 && b[|b| - 4..] == CrcBytes(b[..|b| - 4]) && b[8] > 5 then UnavailableHashAlgorithm else InvalidFormat)
  {
    hide Checksum64, HashLength, BigEndian, FromBigEndian;
    if |b| >= 13 {
      var body, crc := b[..|b| - 4], b[|b| - 4..];
      ChecksumReadsBack(body);
      BigEndianOfBytes(crc);
      BigEndianOfBytes(CrcBytes(body));
      SupportedIds(b[8]);
    }
  }

  lemma SupportedIds(id: bv8)
    ensures IsSupported(id) <==> !(id > 5)
  {
  }
}
