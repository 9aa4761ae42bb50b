/** Base32 with grouping: the alphabet of section 6 of RFC 4648, packed bit by bit. */
module Base32 {
  import opened Common

  /** A C string: its characters up to, and not including, the terminating NUL. */
  type CString = s: string | '\0' !in s

  // ---- bits ----------------------------------------------------------------------------------

  /** Bit i of a byte, the most significant bit first. */
  predicate Bit(b: bv8, i: nat)
    requires i < 8
  {
    match i
    case 0 => b & 0x80 != 0
    case 1 => b & 0x40 != 0
    case 2 => b & 0x20 != 0
    case 3 => b & 0x10 != 0
    case 4 => b & 0x08 != 0
    case 5 => b & 0x04 != 0
    case 6 => b & 0x02 != 0
    case _ => b & 0x01 != 0
  }

  /** Bit k of a byte sequence that continues with zeros for ever. */
  predicate DataBit(data: seq<bv8>, k: nat) {
    k / 8 < |data| && Bit(data[k / 8], k % 8)
  }

  /** Bit k of a sequence of five-bit symbols; each symbol holds its bits in the low end. */
  predicate SymbolBit(symbols: seq<bv8>, k: nat) {
    k / 5 < |symbols| && Bit(symbols[k / 5], 3 + k % 5)
  }

  /** Bytes are determined by their bits. */
  lemma BitsDetermine(a: bv8, b: bv8)
    requires forall i: nat | i < 8 :: Bit(a, i) == Bit(b, i)
    ensures a == b
  {
    assert Bit(a, 0) == Bit(b, 0) && Bit(a, 1) == Bit(b, 1) && Bit(a, 2) == Bit(b, 2) && Bit(a, 3) == Bit(b, 3);
    assert Bit(a, 4) == Bit(b, 4) && Bit(a, 5) == Bit(b, 5) && Bit(a, 6) == Bit(b, 6) && Bit(a, 7) == Bit(b, 7);
  }

  lemma BitOr(a: bv8, b: bv8, i: nat)
    requires i < 8
    ensures Bit(a | b, i) == (Bit(a, i) || Bit(b, i))
  {
  }

  lemma BitZero(i: nat)
    requires i < 8
    ensures !Bit(0, i)
  {
  }

  // ---- masks ---------------------------------------------------------------------------------

  /** The lowest n bits. */
  function Mask(n: nat): bv8
    requires n <= 5
  {
    match n
    case 0 => 0
    case 1 => 1
    case 2 => 3
    case 3 => 7
    case 4 => 15
    case _ => 31
  }

  method MakeMask(bitCount: nat) returns (ret: bv8)
    requires bitCount <= 5
    ensures ret == Mask(bitCount)
  {
    ret := 0;
    for i := 0 to bitCount
      invariant ret == Mask(i)
    {
      ret := ret << 1;
      ret := ret | 1;
    }
  }

  // ---- reading five bits ---------------------------------------------------------------------

  /** The five bits that start at bit `off` of b0 and may run over into b1. */
  function Window(b0: bv8, b1: bv8, off: nat): bv8
    requires off < 8
  {
    var first := if 8 - off > 5 then 5 else 8 - off;
    var shift := 8 - off - first;
    var high := (b0 & (Mask(first) << shift)) >> shift;
    if first < 5 then
      var second := 5 - first;
      (high << second) | ((b1 & (Mask(second) << (8 - second))) >> (8 - second))
    else
      high
  }

  predicate WindowOk(b0: bv8, b1: bv8, off: nat, j: nat)
    requires off < 8 && j < 5
  {
    Window(b0, b1, off) < 32 &&
    Bit(Window(b0, b1, off), 3 + j) == if off + j < 8 then Bit(b0, off + j) else Bit(b1, off + j - 8)
  }

  lemma WindowBits(b0: bv8, b1: bv8, off: nat, j: nat)
    requires off < 8 && j < 5
    ensures WindowOk(b0, b1, off, j)
  {
    if off == 0 {
      assert WindowOk(b0, b1, 0, j);
    } else if off == 1 {
      assert WindowOk(b0, b1, 1, j);
    } else if off == 2 {
      assert WindowOk(b0, b1, 2, j);
    } else if off == 3 {
      assert WindowOk(b0, b1, 3, j);
    } else if off == 4 {
      assert WindowOk(b0, b1, 4, j);
    } else if off == 5 {
      assert WindowOk(b0, b1, 5, j);
    } else if off == 6 {
      assert WindowOk(b0, b1, 6, j);
    } else if off == 7 {
      assert WindowOk(b0, b1, 7, j);
    }
  }

  /** The next five bits, or nothing behind the last byte; missing bits read as zero. */
  function ReadNextBits(data: seq<bv8>, bitsRead: nat): (r: Option<bv8>)
    ensures r == None <==> bitsRead >= 8 * |data|
  {
    var k := bitsRead / 8;
    if k >= |data| then None
    else Some(Window(data[k], if k + 1 < |data| then data[k + 1] else 0, bitsRead % 8))
  }

  lemma ReadNextBitsReads(data: seq<bv8>, bitsRead: nat, j: nat)
    requires bitsRead < 8 * |data| && j < 5
    ensures var v := ReadNextBits(data, bitsRead).value; v < 32 && Bit(v, 3 + j) == DataBit(data, bitsRead + j)
  {
    hide Bit, Window;
    var k, off := bitsRead / 8, bitsRead % 8;
    WindowBits(data[k], if k + 1 < |data| then data[k + 1] else 0, off, j);
    if off + j < 8 {
      assert (bitsRead + j) / 8 == k && (bitsRead + j) % 8 == off + j;
    } else {
      assert (bitsRead + j) / 8 == k + 1 && (bitsRead + j) % 8 == off + j - 8;
      BitZero(off + j - 8);
    }
  }

  // ---- writing five bits ---------------------------------------------------------------------

  /** The part of a symbol that goes into the byte at bit offset `off`. */
  function FirstPart(bits: bv8, off: nat): bv8
    requires off < 8
  {
    var first := if 8 - off > 5 then 5 else 8 - off;
    ((bits & (Mask(first) << (5 - first))) >> (5 - first)) << (8 - first - off)
  }

  /** The rest of the symbol, at the top of the byte behind it. */
  function SecondPart(bits: bv8, off: nat): bv8
    requires 3 < off < 8
  {
    var second := off - 3;
    (bits & ((Mask(second) << (5 - second)) >> (5 - second))) << (8 - second)
  }

  predicate FirstPartOk(bits: bv8, off: nat, k: nat)
    requires off < 8 && k < 8
  {
    Bit(FirstPart(bits, off), k) == (off <= k < off + 5 && Bit(bits, 3 + k - off))
  }

  predicate SecondPartOk(bits: bv8, off: nat, k: nat)
    requires 3 < off < 8 && k < 8
  {
    Bit(SecondPart(bits, off), k) == (k + 8 < off + 5 && Bit(bits, 11 + k - off))
  }

  lemma FirstPartBits(bits: bv8, off: nat, k: nat)
    requires off < 8 && k < 8
    ensures FirstPartOk(bits, off, k)
  {
    if off == 0 {
      assert FirstPartOk(bits, 0, k);
    } else if off == 1 {
      assert FirstPartOk(bits, 1, k);
    } else if off == 2 {
      assert FirstPartOk(bits, 2, k);
    } else if off == 3 {
      assert FirstPartOk(bits, 3, k);
    } else if off == 4 {
      assert FirstPartOk(bits, 4, k);
    } else if off == 5 {
      assert FirstPartOk(bits, 5, k);
    } else if off == 6 {
      assert FirstPartOk(bits, 6, k);
    } else if off == 7 {
      assert FirstPartOk(bits, 7, k);
    }
  }

  lemma SecondPartBits(bits: bv8, off: nat, k: nat)
    requires 3 < off < 8 && k < 8
    ensures SecondPartOk(bits, off, k)
  {
    if off == 4 {
      assert SecondPartOk(bits, 4, k);
    } else if off == 5 {
      assert SecondPartOk(bits, 5, k);
    } else if off == 6 {
      assert SecondPartOk(bits, 6, k);
    } else if off == 7 {
      assert SecondPartOk(bits, 7, k);
    }
  }

  /** Appends the five low bits of `bits` behind the bits that are already in the buffer. */
  method AddBits(buf: array<bv8>, bitsDecoded: nat, bits: bv8) returns (r: nat)
    requires (bitsDecoded + 4) / 8 < buf.Length
    requires forall k: nat | k >= bitsDecoded :: !DataBit(buf[..], k)
    modifies buf
    ensures r == bitsDecoded + 5
    ensures forall k: nat ::
      DataBit(buf[..], k) == if bitsDecoded <= k < r then Bit(bits, 3 + k - bitsDecoded) else DataBit(old(buf[..]), k)
  {
    hide Bit, FirstPart, SecondPart;
    var off, idx := bitsDecoded % 8, bitsDecoded / 8;
    ghost var before := buf[..];
    buf[idx] := buf[idx] | FirstPart(bits, off);
    r := bitsDecoded + if 8 - off > 5 then 5 else 8 - off;
    if off > 3 {
      idx := idx + 1;
      buf[idx] := buf[idx] | SecondPart(bits, off);
      r := r + off - 3;
    }
    forall k: nat
      ensures DataBit(buf[..], k) ==
        if bitsDecoded <= k < bitsDecoded + 5 then Bit(bits, 3 + k - bitsDecoded) else DataBit(before, k)
    {
      AddedBit(before, buf[..], bitsDecoded, bits, k);
    }
  }

  lemma AddedBit(before: seq<bv8>, after: seq<bv8>, pos: nat, bits: bv8, k: nat)
    requires |after| == |before| && (pos + 4) / 8 < |before|
    requires forall k: nat | k >= pos :: !DataBit(before, k)
    requires forall i | 0 <= i < |before| ::
      after[i] == if i == pos / 8 then before[i] | FirstPart(bits, pos % 8)
                  else if i == pos / 8 + 1 && pos % 8 > 3 then before[i] | SecondPart(bits, pos % 8)
                  else before[i]
    ensures DataBit(after, k) == if pos <= k < pos + 5 then Bit(bits, 3 + k - pos) else DataBit(before, k)
  {
    hide Bit, FirstPart, SecondPart;
    var off, i, j := pos % 8, k / 8, k % 8;
    if i < |before| {
      assert k >= pos ==> !DataBit(before, k);
      if i == pos / 8 {
        BitOr(before[i], FirstPart(bits, off), j);
        FirstPartBits(bits, off, j);
        assert FirstPartOk(bits, off, j);
        assert j - off == k - pos;
      } else if i == pos / 8 + 1 && off > 3 {
        BitOr(before[i], SecondPart(bits, off), j);
        SecondPartBits(bits, off, j);
        assert SecondPartOk(bits, off, j);
        assert 8 + j - off == k - pos;
      }
    }
  }

  // ---- the alphabet --------------------------------------------------------------------------

  const ENCODE_TABLE := "ABCDEFGHIJKLMNOPQRSTUVWXYZ234567"

  /** The entry of the decoding table for a digit. The entries of '0', '1', '8' and '9' are
      written as -1 but have the type `unsigned char`. */
  function NumDecTable(i: nat): bv8
    requires i < 10
  {
    match i
    case 2 => 26
    case 3 => 27
    case 4 => 28
    case 5 => 29
    case 6 => 30
    case 7 => 31
    case _ => 255
  }

  function ToUpper(c: char): char {
    if 'a' <= c <= 'z' then (c as int - 32) as char else c
  }

  predicate IsDigit(c: char) {
    '0' <= c <= '9'
  }

  predicate IsLetter(c: char) {
    'A' <= c <= 'Z'
  }

  function Symbol(c: char): bv8
    requires IsDigit(c) || IsLetter(c)
  {
    if IsDigit(c) then NumDecTable(c as int - '0' as int) else (c as int - 'A' as int) as bv8
  }

  predicate LetterOk(v: bv8)
    requires v < 32
  {
    var c := ENCODE_TABLE[v as int];
    ToUpper(c) == c && (IsDigit(c) || IsLetter(c)) && Symbol(c) == v
  }

  lemma SymbolOfLetter(v: bv8)
    requires v < 32
    ensures LetterOk(v)
  {
    if v < 8 {
      assert LetterOk(v);
    } else if v < 16 {
      assert LetterOk(v);
    } else if v < 24 {
      assert LetterOk(v);
    } else {
      assert LetterOk(v);
    }
  }

  // ---- decoding ------------------------------------------------------------------------------

  /** The symbols of a text up to its first '='; '-' only separates groups. */
  function Symbols(s: string): Option<seq<bv8>> {
    if s == "" then Some([])
    else
      var c := ToUpper(s[0]);
      if c == '=' then Some([])
      else if c == '-' then Symbols(s[1..])
      else if IsDigit(c) || IsLetter(c) then
        Prefixed([Symbol(c)], Symbols(s[1..]))
      else None
  }

  function Prefixed(prefix: seq<bv8>, rest: Option<seq<bv8>>): Option<seq<bv8>> {
    match rest
    case None => None
    case Some(symbols) => Some(prefix + symbols)
  }

  lemma PrefixedTwice(p: seq<bv8>, q: seq<bv8>, rest: Option<seq<bv8>>)
    ensures Prefixed([], rest) == rest
    ensures Prefixed(p, Prefixed(q, rest)) == Prefixed(p + q, rest)
  {
    if rest.Some? {
      assert [] + rest.value == rest.value;
      assert p + (q + rest.value) == p + q + rest.value;
    }
  }

  function ByteOf(b0: bool, b1: bool, b2: bool, b3: bool, b4: bool, b5: bool, b6: bool, b7: bool): bv8 {
    (if b0 then 0x80 else 0) | (if b1 then 0x40 else 0) | (if b2 then 0x20 else 0) | (if b3 then 0x10 else 0) |
    (if b4 then 0x08 else 0) | (if b5 then 0x04 else 0) | (if b6 then 0x02 else 0) | (if b7 then 0x01 else 0)
  }

  function ByteAt(symbols: seq<bv8>, k: nat): bv8 {
    ByteOf(SymbolBit(symbols, k), SymbolBit(symbols, k + 1), SymbolBit(symbols, k + 2), SymbolBit(symbols, k + 3),
           SymbolBit(symbols, k + 4), SymbolBit(symbols, k + 5), SymbolBit(symbols, k + 6), SymbolBit(symbols, k + 7))
  }

  /** The whole bytes that the bits of the symbols fill; left-over bits are dropped. */
  function Bytes(symbols: seq<bv8>): seq<bv8> {
    seq(5 * |symbols| / 8, i requires 0 <= i => ByteAt(symbols, 8 * i))
  }

  function DecodeText(s: string): Result<seq<bv8>> {
    match Symbols(s)
    case None => Err(InvalidFormat)
    case Some(symbols) => Ok(Bytes(symbols))
  }

  lemma ByteOfBits(b0: bool, b1: bool, b2: bool, b3: bool, b4: bool, b5: bool, b6: bool, b7: bool)
    ensures var b := ByteOf(b0, b1, b2, b3, b4, b5, b6, b7);
      Bit(b, 0) == b0 && Bit(b, 1) == b1 && Bit(b, 2) == b2 && Bit(b, 3) == b3 &&
      Bit(b, 4) == b4 && Bit(b, 5) == b5 && Bit(b, 6) == b6 && Bit(b, 7) == b7
  {
  }

  lemma ByteAtBit(symbols: seq<bv8>, at: nat, j: nat)
    requires j < 8
    ensures Bit(ByteAt(symbols, at), j) == SymbolBit(symbols, at + j)
  {
    hide Bit, ByteOf, SymbolBit;
    ByteOfBits(SymbolBit(symbols, at), SymbolBit(symbols, at + 1), SymbolBit(symbols, at + 2), SymbolBit(symbols, at + 3),
               SymbolBit(symbols, at + 4), SymbolBit(symbols, at + 5), SymbolBit(symbols, at + 6), SymbolBit(symbols, at + 7));
    assert j == 0 || j == 1 || j == 2 || j == 3 || j == 4 || j == 5 || j == 6 || j == 7;
  }

  lemma BytesBit(symbols: seq<bv8>, k: nat)
    requires k < 5 * |symbols| / 8 * 8
    ensures DataBit(Bytes(symbols), k) == SymbolBit(symbols, k)
  {
    hide Bit, ByteAt, SymbolBit;
    ByteAtBit(symbols, 8 * (k / 8), k % 8);
  }

  /** Byte sequences of one length that agree on all their bits are equal. */
  lemma DataBitsDetermine(a: seq<bv8>, b: seq<bv8>)
    requires |a| == |b| && forall k: nat | k < 8 * |a| :: DataBit(a, k) == DataBit(b, k)
    ensures a == b
  {
    hide Bit;
    forall i | 0 <= i < |a|
      ensures a[i] == b[i]
    {
      forall j: nat | j < 8
        ensures Bit(a[i], j) == Bit(b[i], j)
      {
        assert DataBit(a, 8 * i + j) == DataBit(b, 8 * i + j);
      }
      BitsDetermine(a[i], b[i]);
    }
  }

  lemma SymbolBitAppend(symbols: seq<bv8>, v: bv8, k: nat)
    ensures SymbolBit(symbols + [v], k) ==
      if 5 * |symbols| <= k < 5 * |symbols| + 5 then Bit(v, 3 + k - 5 * |symbols|) else SymbolBit(symbols, k)
  {
    hide Bit;
    if k >= 5 * |symbols| && k < 5 * |symbols| + 5 {
      assert k % 5 == k - 5 * |symbols|;
    }
  }

  method Decode(base32: CString) returns (res: Result<seq<bv8>>)
    ensures res == DecodeText(base32)
  {
    hide Bit, Symbol;
    var tmp := new bv8[|base32| * 5 / 8 + 2](_ => 0);
    var bitsDecoded := 0;
    ghost var symbols := [];
    forall k: nat ensures !DataBit(tmp[..], k) { BitZero(k % 8); }
    assert base32[0..] == base32;
    PrefixedTwice([], [], Symbols(base32));
    var i := 0;
    while i < |base32|
      invariant 0 <= i <= |base32| && |symbols| <= i && bitsDecoded == 5 * |symbols|
      invariant fresh(tmp) && tmp.Length == |base32| * 5 / 8 + 2
      invariant forall k: nat :: DataBit(tmp[..], k) == SymbolBit(symbols, k)
      invariant Symbols(base32) == Prefixed(symbols, Symbols(base32[i..]))
    {
      var c := ToUpper(base32[i]);
      ghost var rest := base32[i..];
      assert rest[1..] == base32[i + 1..];
      if c == '=' {
        break;
      }
      if c != '-' {
        if !IsDigit(c) && !IsLetter(c) {
          return Err(InvalidFormat);
        }
        ghost var before := tmp[..];
        bitsDecoded := AddBits(tmp, bitsDecoded, Symbol(c));
        forall k: nat
          ensures DataBit(tmp[..], k) == SymbolBit(symbols + [Symbol(c)], k)
        {
          SymbolBitAppend(symbols, Symbol(c), k);
          assert DataBit(before, k) == SymbolBit(symbols, k);
        }
        PrefixedTwice(symbols, [Symbol(c)], Symbols(base32[i + 1..]));
        symbols := symbols + [Symbol(c)];
      }
      i := i + 1;
    }
    assert symbols + [] == symbols;
    assert Symbols(base32) == Some(symbols);
    var data := tmp[..bitsDecoded / 8];
    forall k: nat | k < 8 * |data|
      ensures DataBit(data, k) == DataBit(Bytes(symbols), k)
    {
      BytesBit(symbols, k);
      assert DataBit(tmp[..], k) == SymbolBit(symbols, k);
      assert tmp[..][k / 8] == data[k / 8];
    }
    DataBitsDetermine(data, Bytes(symbols));
    return Ok(data);
  }

  // ---- encoding ------------------------------------------------------------------------------

  /** The number of symbols that n bytes take. */
  function SymbolCount(n: nat): nat {
    (8 * n + 4) / 5
  }

  /** The first n symbols of the data. */
  function Fives(data: seq<bv8>, n: nat): (r: seq<bv8>)
    requires n <= SymbolCount(|data|)
    ensures |r| == n
  {
    if n == 0 then [] else Fives(data, n - 1) + [ReadNextBits(data, 5 * (n - 1)).value]
  }

  function Letter(v: bv8): char {
    if v < 32 then ENCODE_TABLE[v as int] else '?'
  }

  function Letters(symbols: seq<bv8>): (r: string)
    ensures |r| == |symbols|
  {
    seq(|symbols|, i requires 0 <= i < |symbols| => Letter(symbols[i]))
  }

  function Padding(n: nat): (r: string)
    ensures |r| == n && forall c <- r :: c == '='
  {
    seq(n, _ => '=')
  }

  /** A text without its group separators. */
  function Ungroup(s: string): string {
    if s == "" then ""
    else
      var last := s[|s| - 1];
      Ungroup(s[..|s| - 1]) + if last == '-' then "" else [last]
  }

  /** Separators stand at every index that leaves g characters since the last one, except
      between the last letter and the padding, and never anywhere else. */
  ghost predicate Grouped(s: string, g: nat) {
    if g == 0 then '-' !in s
    else
      && (forall i | 0 <= i < |s| && s[i] == '-' :: i % (g + 1) == g)
      && (forall i | 0 <= i < |s| && i % (g + 1) == g && s[i] != '-' ::
            s[i] == '=' && i > 0 && s[i - 1] != '=' && s[i - 1] != '-')
      && (forall i | 0 < i < |s| && s[i] == '=' && s[i - 1] == '-' :: i > 1 && s[i - 2] == '=')
  }

  /** The length of a text whose symbols are padded to a multiple of eight. */
  function PaddedCount(n: nat): nat {
    (n * 8 + 39) / 40 * 8
  }

  /** The text for the data without separators: its letters and the padding. */
  function PaddedText(data: seq<bv8>): string {
    Letters(Fives(data, SymbolCount(|data|))) + Padding(PaddedCount(|data|) - SymbolCount(|data|))
  }

  /** The text for the data, with separators in their places. */
  ghost predicate Encodes(s: string, data: seq<bv8>, g: nat) {
    && Ungroup(s) == PaddedText(data)
    && Grouped(s, g)
    && (s == "" || s[|s| - 1] != '-')
  }

  /** The buffer that the source allocates, its terminating NUL included. */
  function BufLen(n: nat, g: nat): nat
    requires n > 0
  {
    var chars := PaddedCount(n);
    chars + (if g > 0 then (chars - 1) / g else 0) + 1
  }

  lemma UngroupAppend(s: string, c: char)
    ensures Ungroup(s + [c]) == Ungroup(s) + if c == '-' then "" else [c]
  {
    assert (s + [c])[..|s|] == s;
  }

  lemma LettersAppend(symbols: seq<bv8>, v: bv8)
    ensures Letters(symbols + [v]) == Letters(symbols) + [Letter(v)]
  {
  }

  lemma GroupedAppend(s: string, c: char, g: nat)
    requires Grouped(s, g)
    requires c == '-' ==> g > 0 && |s| % (g + 1) == g
    requires c != '-' && g > 0 && |s| % (g + 1) == g ==>
      c == '=' && |s| > 0 && s[|s| - 1] != '=' && s[|s| - 1] != '-'
    requires c == '=' && |s| > 0 && s[|s| - 1] == '-' ==> |s| > 1 && s[|s| - 2] == '='
    ensures Grouped(s + [c], g)
  {
    var t, n := s + [c], |s|;
    assert t[..n] == s && t[n] == c;
    if g > 0 {
      forall i | 0 <= i <= n && t[i] == '-'
        ensures i % (g + 1) == g
      {
        assert i < n ==> s[i] == '-';
      }
      forall i | 0 <= i <= n && i % (g + 1) == g && t[i] != '-'
        ensures t[i] == '=' && i > 0 && t[i - 1] != '=' && t[i - 1] != '-'
      {
        assert i < n ==> s[i] != '-';
      }
      forall i | 0 < i <= n && t[i] == '=' && t[i - 1] == '-'
        ensures i > 1 && t[i - 2] == '='
      {
        assert i < n ==> s[i] == '=' && s[i - 1] == '-';
      }
    }
  }

  /** A separator that completes a group is at most the number of groups so far. */
  lemma DashCount(d: nat, g: nat, len: nat)
    requires d * (g + 1) <= len && len % (g + 1) == g
    ensures (d + 1) * (g + 1) <= len + 1
  {
    var q := g + 1;
    var m := len / q;
    assert len == m * q + g;
    if d > m {
      MulMonotone(m + 1, d, q);
      assert false;
    }
    MulMonotone(d + 1, m + 1, q);
  }

  lemma MulMonotone(a: nat, b: nat, q: nat)
    requires a <= b
    ensures a * q <= b * q
  {
  }

  lemma DashBound(d: nat, g: nat, len: nat, chars: nat)
    requires g > 0 && d * (g + 1) <= len == chars + d
    ensures d <= chars / g
  {
    assert d * g <= chars;
    if d > chars / g {
      MulMonotone(chars / g + 1, d, g);
      assert false;
    }
  }

  lemma NextGroup(len: nat, g: nat)
    requires g > 0 && len % (g + 1) == g
    ensures (len + 1) % (g + 1) == 0
  {
    var q, next := g + 1, len + 1;
    var k, m := len / q + 1, next / q;
    assert next == k * q;
    assert next == m * q + next % q;
    if m < k {
      MulMonotone(m + 1, k, q);
      assert false;
    }
    MulMonotone(k, m, q);
  }

  /** With fewer than all characters written there is room for one more and the NUL. */
  lemma Room(n: nat, g: nat, chars: nat, dashes: nat)
    requires n > 0 && chars < PaddedCount(n)
    requires if g > 0 then dashes * (g + 1) <= chars + dashes else dashes == 0
    ensures chars + dashes + 2 <= BufLen(n, g)
  {
    if g > 0 {
      DashBound(dashes, g, chars + dashes, chars);
      DivMonotone(chars, PaddedCount(n) - 1, g);
    }
  }

  lemma DivMonotone(a: nat, b: nat, g: nat)
    requires a <= b && g > 0
    ensures a / g <= b / g
  {
    if a / g > b / g {
      MulMonotone(b / g + 1, a / g, g);
      assert false;
    }
  }

  lemma LetterIsPlain(v: bv8)
    requires v < 32
    ensures Letter(v) != '-' && Letter(v) != '=' && Letter(v) != '\0'
  {
    SymbolOfLetter(v);
  }

  lemma PaddingAppend(n: nat)
    ensures Padding(n) + "=" == Padding(n + 1)
  {
  }

  /** The first characters of the text without its separators. */
  function Chars(data: seq<bv8>, chars: nat): string {
    var n := SymbolCount(|data|);
    if chars <= n then Letters(Fives(data, chars)) else Letters(Fives(data, n)) + Padding(chars - n)
  }

  /** The numbers of characters and of separators. */
  ghost predicate Tallied(out: string, n: nat, g: nat, chars: nat, dashes: nat) {
    && chars <= PaddedCount(n)
    && |out| == chars + dashes
    && (if g == 0 then dashes == 0 else dashes * (g + 1) <= |out|)
    && (g > 0 && out != "" && out[|out| - 1] != '-' ==> dashes * (g + 1) <= |out| - 1)
  }

  /** The characters themselves. */
  ghost predicate Spelled(out: string, data: seq<bv8>, chars: nat) {
    && Ungroup(out) == Chars(data, chars)
    && '\0' !in out
    && (chars <= SymbolCount(|data|) ==> '=' !in out)
  }

  /** A separator at the end has more to separate. */
  ghost predicate DashPending(out: string, n: nat, chars: nat) {
    out != "" && out[|out| - 1] == '-' ==>
      && chars < PaddedCount(n) && chars != SymbolCount(n)
      && (chars > SymbolCount(n) ==> |out| > 1 && out[|out| - 2] == '=')
  }

  /** What the loops of the encoder have written: `chars` letters and padding characters, and
      `dashes` separators. */
  ghost predicate Written(out: string, data: seq<bv8>, g: nat, chars: nat, dashes: nat) {
    && Tallied(out, |data|, g, chars, dashes)
    && Spelled(out, data, chars)
    && Grouped(out, g)
    && DashPending(out, |data|, chars)
  }

  /** No separator is due before the next character, unless the letters have just ended. */
  predicate Aligned(len: nat, g: nat) {
    g > 0 ==> len % (g + 1) != g
  }

  lemma CharTallied(out: string, c: char, n: nat, g: nat, chars: nat, dashes: nat)
    requires Tallied(out, n, g, chars, dashes) && c != '-' && chars < PaddedCount(n)
    ensures Tallied(out + [c], n, g, chars + 1, dashes)
  {
    hide PaddedCount;
  }

  lemma DashTallied(out: string, n: nat, g: nat, chars: nat, dashes: nat)
    requires Tallied(out, n, g, chars, dashes) && !Aligned(|out|, g)
    ensures Tallied(out + "-", n, g, chars, dashes + 1)
  {
    hide PaddedCount;
    DashCount(dashes, g, |out|);
  }

  lemma LetterSpelled(out: string, data: seq<bv8>, chars: nat, v: bv8)
    requires Spelled(out, data, chars) && chars < SymbolCount(|data|) && v < 32
    requires ReadNextBits(data, 5 * chars) == Some(v)
    ensures Spelled(out + [Letter(v)], data, chars + 1)
  {
    hide Letter, ReadNextBits, SymbolCount;
    LetterIsPlain(v);
    UngroupAppend(out, Letter(v));
    LettersAppend(Fives(data, chars), v);
  }

  lemma PadSpelled(out: string, data: seq<bv8>, chars: nat)
    requires Spelled(out, data, chars) && SymbolCount(|data|) <= chars
    ensures Spelled(out + "=", data, chars + 1)
  {
    hide Letters, Fives, SymbolCount;
    var n := SymbolCount(|data|);
    UngroupAppend(out, '=');
    PaddingAppend(chars - n);
    var letters := Letters(Fives(data, n));
    assert Padding(0) == "" && letters + "" == letters;
    assert letters + Padding(chars - n) + "=" == letters + (Padding(chars - n) + "=");
  }

  lemma DashSpelled(out: string, data: seq<bv8>, chars: nat)
    requires Spelled(out, data, chars)
    ensures Spelled(out + "-", data, chars)
  {
    hide Chars, SymbolCount;
    UngroupAppend(out, '-');
  }

  lemma WriteLetter(out: string, data: seq<bv8>, g: nat, chars: nat, dashes: nat)
    requires chars < SymbolCount(|data|) && Written(out, data, g, chars, dashes) && Aligned(|out|, g)
    ensures ReadNextBits(data, 5 * chars).Some?
    ensures var c := Letter(ReadNextBits(data, 5 * chars).value);
      c != '-' && Written(out + [c], data, g, chars + 1, dashes)
  {
    hide Letter, ReadNextBits, SymbolCount, PaddedCount, Grouped, Tallied, Spelled;
    Positions(|data|, chars);
    SymbolIsSmall(data, chars);
    var v := ReadNextBits(data, 5 * chars).value;
    LetterIsPlain(v);
    CharTallied(out, Letter(v), |data|, g, chars, dashes);
    LetterSpelled(out, data, chars, v);
    GroupedAppend(out, Letter(v), g);
  }

  lemma SymbolIsSmall(data: seq<bv8>, i: nat)
    requires 5 * i < 8 * |data|
    ensures ReadNextBits(data, 5 * i).Some? && ReadNextBits(data, 5 * i).value < 32
  {
    hide Window, Bit, DataBit;
    ReadNextBitsReads(data, 5 * i, 0);
  }

  /** The last character of letters alone is no padding, and of padding no separator out of place. */
  lemma PadGrouped(out: string, data: seq<bv8>, g: nat, chars: nat)
    requires Grouped(out, g) && Spelled(out, data, chars) && DashPending(out, |data|, chars)
    requires SymbolCount(|data|) <= chars
    requires chars == SymbolCount(|data|) > 0 || Aligned(|out|, g)
    ensures Grouped(out + "=", g)
  {
    hide Chars, PaddedCount, SymbolCount, Ungroup, Grouped;
    if chars == SymbolCount(|data|) && out != "" {
      assert out[|out| - 1] in out;
    }
    GroupedAppend(out, '=', g);
  }

  lemma WritePad(out: string, data: seq<bv8>, g: nat, chars: nat, dashes: nat)
    requires SymbolCount(|data|) <= chars < PaddedCount(|data|) && Written(out, data, g, chars, dashes)
    requires chars == SymbolCount(|data|) > 0 || Aligned(|out|, g)
    ensures Written(out + "=", data, g, chars + 1, dashes)
  {
    hide PaddedCount, SymbolCount, Grouped, Tallied, Spelled;
    CharTallied(out, '=', |data|, g, chars, dashes);
    PadSpelled(out, data, chars);
    PadGrouped(out, data, g, chars);
  }

  lemma WriteDash(out: string, data: seq<bv8>, g: nat, chars: nat, dashes: nat)
    requires Written(out, data, g, chars, dashes) && !Aligned(|out|, g)
    requires out != "" && out[|out| - 1] != '-'
    requires chars < PaddedCount(|data|) && chars != SymbolCount(|data|)
    requires chars > SymbolCount(|data|) ==> out[|out| - 1] == '='
    ensures Written(out + "-", data, g, chars, dashes + 1) && Aligned(|out| + 1, g)
  {
    hide PaddedCount, SymbolCount, Grouped, Tallied, Spelled;
    DashTallied(out, |data|, g, chars, dashes);
    NextGroup(|out|, g);
    DashSpelled(out, data, chars);
    GroupedAppend(out, '-', g);
  }

  lemma NothingWritten(data: seq<bv8>, g: nat)
    requires data != []
    ensures Written("", data, g, 0, 0)
  {
  }

  lemma WrittenRoom(out: string, data: seq<bv8>, g: nat, chars: nat, dashes: nat)
    requires data != [] && Written(out, data, g, chars, dashes) && chars < PaddedCount(|data|)
    ensures |out| + 2 <= BufLen(|data|, g)
  {
    hide Spelled, Grouped, DashPending, PaddedCount, BufLen;
    Room(|data|, g, chars, dashes);
  }

  lemma SpelledAll(out: string, data: seq<bv8>)
    requires Spelled(out, data, PaddedCount(|data|))
    ensures Ungroup(out) == PaddedText(data)
  {
    hide Letters, Fives, SymbolCount, PaddedCount;
    var n, total := SymbolCount(|data|), PaddedCount(|data|);
    PaddedIsMore(|data|);
    var letters := Letters(Fives(data, n));
    assert Padding(0) == "" && letters + "" == letters;
  }

  lemma WrittenAll(out: string, data: seq<bv8>, g: nat, dashes: nat)
    requires data != [] && Written(out, data, g, PaddedCount(|data|), dashes)
    ensures Encodes(out, data, g) && '\0' !in out && |out| + 1 <= BufLen(|data|, g)
  {
    hide Grouped, PaddedText, SymbolCount, Ungroup;
    SpelledAll(out, data);
    if g > 0 {
      DashBound(dashes, g, |out| - 1, PaddedCount(|data|) - 1);
    }
  }

  // How bit positions relate to the numbers of letters and of padded characters.

  lemma SymbolBlocks(n: nat)
    ensures 8 * n <= 5 * SymbolCount(n) < 8 * n + 5
  {
  }

  lemma PaddedBlocks(n: nat) returns (blocks: nat)
    ensures PaddedCount(n) == 8 * blocks && 8 * n <= 40 * blocks < 8 * n + 40
  {
    blocks := (n * 8 + 39) / 40;
  }

  lemma PaddedIsMore(n: nat)
    ensures SymbolCount(n) <= PaddedCount(n)
  {
    SymbolBlocks(n);
    var blocks := PaddedBlocks(n);
    hide SymbolCount, PaddedCount;
  }

  lemma BitOfChar(chars: nat) returns (k: nat, rest: nat)
    ensures chars == 8 * k + rest && rest < 8 && 5 * chars % 40 == 5 * rest
  {
    k, rest := chars / 8, chars % 8;
    assert 5 * chars == 40 * k + 5 * rest;
  }

  /** Where the padding loop is within its block. */
  lemma BlockPosition(n: nat, chars: nat)
    requires chars <= PaddedCount(n)
    ensures 5 * chars % 40 != 0 ==> chars < PaddedCount(n)
    ensures chars < PaddedCount(n) && 5 * chars % 40 != 35 ==> chars + 1 < PaddedCount(n)
    ensures SymbolCount(n) <= chars && 5 * chars % 40 == 0 ==> chars == PaddedCount(n)
    ensures SymbolCount(n) <= chars < PaddedCount(n) && 5 * chars % 40 == 35 ==> chars + 1 == PaddedCount(n)
  {
    SymbolBlocks(n);
    var blocks := PaddedBlocks(n);
    var k, rest := BitOfChar(chars);
    hide SymbolCount, PaddedCount;
  }

  lemma Remainder35(k: nat)
    ensures (40 * k + 35) % 40 == 35
  {
  }

  /** Data of four bytes behind its last whole block lacks a single character. */
  lemma LastCharOnly(n: nat, chars: nat)
    requires (n % 5 == 0 || n % 5 == 4) && SymbolCount(n) <= chars < PaddedCount(n)
    ensures 5 * chars % 40 == 35
  {
    SymbolBlocks(n);
    var blocks := PaddedBlocks(n);
    var fives, left := n / 5, n % 5;
    assert n == 5 * fives + left;
    hide SymbolCount, PaddedCount;
    assert chars == 8 * fives + 7;
    Remainder35(fives);
  }

  lemma Positions(n: nat, chars: nat)
    ensures SymbolCount(n) <= PaddedCount(n)
    ensures 5 * chars < 8 * n <==> chars < SymbolCount(n)
    ensures chars <= PaddedCount(n) && 5 * chars % 40 != 0 ==> chars < PaddedCount(n)
    ensures chars < PaddedCount(n) && 5 * chars % 40 != 35 ==> chars + 1 < PaddedCount(n)
    ensures SymbolCount(n) <= chars <= PaddedCount(n) && 5 * chars % 40 == 0 ==> chars == PaddedCount(n)
    ensures SymbolCount(n) <= chars < PaddedCount(n) && 5 * chars % 40 == 35 ==> chars + 1 == PaddedCount(n)
    ensures (n % 5 == 0 || n % 5 == 4) && SymbolCount(n) <= chars < PaddedCount(n) ==> 5 * chars % 40 == 35
  {
    hide SymbolCount, PaddedCount;
    SymbolBlocks(n);
    PaddedIsMore(n);
    if chars <= PaddedCount(n) {
      BlockPosition(n, chars);
    }
    if (n % 5 == 0 || n % 5 == 4) && SymbolCount(n) <= chars < PaddedCount(n) {
      LastCharOnly(n, chars);
    }
  }

  method Put(tmp: array<char>, retLen: nat, c: char, ghost out: string) returns (r: nat)
    requires retLen < tmp.Length && tmp[..retLen] == out
    modifies tmp
    ensures r == retLen + 1 && tmp[..r] == out + [c]
  {
    tmp[retLen] := c;
    return retLen + 1;
  }

  /** What the padding loop writes behind `len` characters if `left` padding characters are due. */
  function PadText(left: nat, len: nat, g: nat): string {
    if left == 0 then ""
    else
      var now := PadStep(left, len, g);
      now + PadText(left - 1, len + |now|, g)
  }

  function PadStep(left: nat, len: nat, g: nat): string {
    if (len + 1) % (g + 1) == g && left != 1 then "=-" else "="
  }

  lemma PadMore(out: string, left: nat, g: nat)
    requires left > 0
    ensures var now := PadStep(left, |out|, g);
      out + PadText(left, |out|, g) == out + now + PadText(left - 1, |out + now|, g)
  {
    hide PadStep;
  }

  lemma NothingPadded(out: string, g: nat)
    ensures out + PadText(0, |out|, g) == out
  {
  }

  lemma {:induction false} ZeroPadLength(left: nat, len: nat)
    ensures |PadText(left, len, 0)| == if left == 0 then 0 else 2 * left - 1
  {
    if left > 0 {
      assert (len + 1) % 1 == 0;
      ZeroPadLength(left - 1, len + |PadStep(left, len, 0)|);
    }
  }

  lemma PaddingDue(n: nat)
    ensures PaddedCount(n) >= SymbolCount(n)
    ensures PaddedCount(n) - SymbolCount(n) <= 1 <==> n % 5 == 0 || n % 5 == 4
  {
    SymbolBlocks(n);
    var blocks := PaddedBlocks(n);
    var fives, left := n / 5, n % 5;
    hide SymbolCount, PaddedCount;
    assert n == 5 * fives + left;
  }

  /** With group length 0 every padding character but the last is followed by a separator, for
      which the source has not made room. What is written fits exactly if at most one padding
      character is due. */
  lemma ZeroGroupExact(n: nat)
    requires n > 0
    ensures PaddedCount(n) >= SymbolCount(n)
    ensures SymbolCount(n) + |PadText(PaddedCount(n) - SymbolCount(n), SymbolCount(n), 0)| + 1 <= BufLen(n, 0) <==>
      n % 5 == 0 || n % 5 == 4
  {
    PaddingDue(n);
    hide PadText, SymbolCount, PaddedCount;
    ZeroPadLength(PaddedCount(n) - SymbolCount(n), SymbolCount(n));
  }

  /** The padding loop. */
  method Pad(tmp: array<char>, retLen0: nat, bitsRead0: nat, groupLen: nat,
             ghost data: seq<bv8>, ghost out0: string, ghost chars0: nat, ghost dashes0: nat)
      returns (retLen: nat, ghost out: string, ghost dashes: nat)
    requires groupLen > 0 || |data| % 5 == 0 || |data| % 5 == 4
    requires data != [] && tmp.Length == BufLen(|data|, groupLen)
    requires bitsRead0 == 5 * chars0 && chars0 == SymbolCount(|data|)
    requires retLen0 == |out0| <= tmp.Length && tmp[..retLen0] == out0
    requires Written(out0, data, groupLen, chars0, dashes0)
    modifies tmp
    ensures retLen == |out| <= tmp.Length && tmp[..retLen] == out
    ensures Written(out, data, groupLen, PaddedCount(|data|), dashes)
    ensures PaddedCount(|data|) >= SymbolCount(|data|)
    ensures out == out0 + PadText(PaddedCount(|data|) - SymbolCount(|data|), retLen0, groupLen)
  {
    hide Letter, Written, BufLen, SymbolCount, PaddedCount, PadText;
    ghost var n, chars := |data|, chars0;
    var bitsRead := bitsRead0;
    retLen, out, dashes := retLen0, out0, dashes0;
    Positions(n, chars);
    while bitsRead % 40 != 0
      invariant tmp.Length == BufLen(n, groupLen)
      invariant bitsRead == 5 * chars && SymbolCount(n) <= chars <= PaddedCount(n)
      invariant retLen == |out| <= tmp.Length && tmp[..retLen] == out
      invariant Written(out, data, groupLen, chars, dashes)
      invariant chars < PaddedCount(n) ==> chars == SymbolCount(n) || Aligned(retLen, groupLen)
      invariant out + PadText(PaddedCount(n) - chars, |out|, groupLen) ==
        out0 + PadText(PaddedCount(n) - SymbolCount(n), retLen0, groupLen)
      decreases PaddedCount(n) - chars
    {
      Positions(n, chars);
      PadMore(out, PaddedCount(n) - chars, groupLen);
      WrittenRoom(out, data, groupLen, chars, dashes);
      WritePad(out, data, groupLen, chars, dashes);
      retLen := Put(tmp, retLen, '=', out);
      out, chars := out + "=", chars + 1;
      if retLen % (groupLen + 1) == groupLen && bitsRead % 40 != 35 {
        WrittenRoom(out, data, groupLen, chars, dashes);
        WriteDash(out, data, groupLen, chars, dashes);
        retLen := Put(tmp, retLen, '-', out);
        out, dashes := out + "-", dashes + 1;
      }
      bitsRead := bitsRead + 5;
    }
    Positions(n, chars);
    NothingPadded(out, groupLen);
  }

  method Encode(data: seq<bv8>, groupLen: nat) returns (res: Result<CString>)
    requires groupLen > 0 || |data| % 5 == 0 || |data| % 5 == 4
    ensures data == [] ==> res == Err(InvalidArgument)
    ensures data != [] ==> res.Ok? && Encodes(res.value, data, groupLen) && |res.value| + 1 <= BufLen(|data|, groupLen)
  {
    hide Letter, Written, BufLen, SymbolCount, PaddedCount, Encodes;
    if |data| == 0 {
      return Err(InvalidArgument);
    }
    ghost var n := |data|;
    var tmp := new char[BufLen(|data|, groupLen)](_ => '\0');
    var retLen, bitsRead := 0, 0;
    ghost var out, chars, dashes := "", 0, 0;
    NothingWritten(data, groupLen);
    Positions(n, 0);
    var nextBits := ReadNextBits(data, bitsRead);
    while nextBits != None
      invariant fresh(tmp) && tmp.Length == BufLen(n, groupLen)
      invariant bitsRead == 5 * chars && chars <= SymbolCount(n)
      invariant nextBits == ReadNextBits(data, bitsRead)
      invariant retLen == |out| <= tmp.Length && tmp[..retLen] == out
      invariant Written(out, data, groupLen, chars, dashes)
      invariant nextBits != None ==> Aligned(retLen, groupLen)
      decreases SymbolCount(n) - chars, if nextBits != None then 1 else 0
    {
      Positions(n, chars);
      Positions(n, chars + 1);
      WrittenRoom(out, data, groupLen, chars, dashes);
      WriteLetter(out, data, groupLen, chars, dashes);
      retLen := Put(tmp, retLen, Letter(nextBits.value), out);
      out, chars := out + [Letter(nextBits.value)], chars + 1;
      if groupLen > 0 && retLen % (groupLen + 1) == groupLen && bitsRead + 5 < |data| * 8 {
        WrittenRoom(out, data, groupLen, chars, dashes);
        WriteDash(out, data, groupLen, chars, dashes);
        retLen := Put(tmp, retLen, '-', out);
        out, dashes := out + "-", dashes + 1;
      }
      bitsRead := bitsRead + 5;
      nextBits := ReadNextBits(data, bitsRead);
    }
    Positions(n, chars);
    retLen, out, dashes := Pad(tmp, retLen, bitsRead, groupLen, data, out, chars, dashes);
    WrittenAll(out, data, groupLen, dashes);
    tmp[retLen] := '\0';
    return Ok(tmp[..retLen]);
  }

  // ---- the round trip ------------------------------------------------------------------------

  lemma {:induction false} UngroupPrepend(c: char, s: string)
    ensures Ungroup([c] + s) == (if c == '-' then "" else [c]) + Ungroup(s)
  {
    var all := [c] + s;
    if s == "" {
      assert all[..|all| - 1] == "";
    } else {
      var rest := s[..|s| - 1];
      assert all[..|all| - 1] == [c] + rest;
      UngroupPrepend(c, rest);
    }
  }

  /** Separators mean nothing to the decoder. */
  lemma {:induction false} SymbolsOfUngrouped(s: string)
    ensures Symbols(Ungroup(s)) == Symbols(s)
  {
    hide Symbol;
    if s != "" {
      assert s == [s[0]] + s[1..];
      UngroupPrepend(s[0], s[1..]);
      SymbolsOfUngrouped(s[1..]);
      if s[0] != '-' {
        var u := [s[0]] + Ungroup(s[1..]);
        assert Ungroup(s) == u && u[1..] == Ungroup(s[1..]);
      } else {
        assert Ungroup(s) == Ungroup(s[1..]);
      }
    }
  }

  predicate AllSymbols(symbols: seq<bv8>) {
    forall i | 0 <= i < |symbols| :: symbols[i] < 32
  }

  lemma {:induction false} SymbolsOfLetters(symbols: seq<bv8>, pad: nat)
    requires AllSymbols(symbols)
    ensures Symbols(Letters(symbols) + Padding(pad)) == Some(symbols)
  {
    hide Symbol;
    var s := Letters(symbols) + Padding(pad);
    if symbols == [] {
    } else {
      SymbolOfLetter(symbols[0]);
      LetterIsPlain(symbols[0]);
      assert s[1..] == Letters(symbols[1..]) + Padding(pad);
      SymbolsOfLetters(symbols[1..], pad);
      assert [symbols[0]] + symbols[1..] == symbols;
    }
  }

  lemma {:induction false} FivesAt(data: seq<bv8>, n: nat, i: nat)
    requires i < n <= SymbolCount(|data|)
    ensures ReadNextBits(data, 5 * i).Some? && Fives(data, n)[i] == ReadNextBits(data, 5 * i).value
  {
    hide ReadNextBits;
    if i < n - 1 {
      FivesAt(data, n - 1, i);
    }
  }

  lemma SymbolPosition(n: nat, i: nat)
    ensures i < SymbolCount(n) <==> 5 * i < 8 * n
    ensures 5 * SymbolCount(n) / 8 == n
  {
  }

  lemma FivesBit(data: seq<bv8>, k: nat)
    requires k < 5 * SymbolCount(|data|)
    ensures SymbolBit(Fives(data, SymbolCount(|data|)), k) == DataBit(data, k)
  {
    hide Bit, ReadNextBits, DataBit, SymbolCount, Fives;
    var i, j := k / 5, k % 5;
    assert k == 5 * i + j;
    SymbolPosition(|data|, i);
    var symbols := Fives(data, SymbolCount(|data|));
    FivesAt(data, |symbols|, i);
    ReadNextBitsReads(data, 5 * i, j);
    assert SymbolBit(symbols, k) == Bit(symbols[i], 3 + j);
  }

  lemma FivesAreSymbols(data: seq<bv8>)
    ensures AllSymbols(Fives(data, SymbolCount(|data|)))
  {
    hide Bit, ReadNextBits, Fives, SymbolCount;
    var symbols := Fives(data, SymbolCount(|data|));
    forall i | 0 <= i < |symbols|
      ensures symbols[i] < 32
    {
      FivesAt(data, |symbols|, i);
      SymbolPosition(|data|, i);
      SymbolIsSmall(data, i);
    }
  }

  /** The symbols of the data fill its bytes again. */
  lemma BytesOfFives(data: seq<bv8>)
    ensures Bytes(Fives(data, SymbolCount(|data|))) == data
  {
    hide Bit, ByteAt, SymbolBit, DataBit, SymbolCount;
    var symbols := Fives(data, SymbolCount(|data|));
    SymbolPosition(|data|, 0);
    forall k: nat | k < 8 * |data|
      ensures DataBit(Bytes(symbols), k) == DataBit(data, k)
    {
      BytesBit(symbols, k);
      FivesBit(data, k);
    }
    DataBitsDetermine(Bytes(symbols), data);
  }

  /** Every encoding of the data, whatever its grouping, decodes to the data. */
  lemma RoundTrip(s: string, data: seq<bv8>)
    requires Ungroup(s) == PaddedText(data)
    ensures DecodeText(s) == Ok(data)
  {
    hide Grouped, Bytes;
    SymbolsOfUngrouped(s);
    FivesAreSymbols(data);
    SymbolsOfLetters(Fives(data, SymbolCount(|data|)), PaddedCount(|data|) - SymbolCount(|data|));
    BytesOfFives(data);
  }

  /** Exactly the texts with a foreign character before the first '=' are refused. */
  lemma {:induction false} DecodeFails(s: string)
    ensures DecodeText(s).Err? <==>
      exists i | 0 <= i < |s| ::
        !IsDigit(ToUpper(s[i])) && !IsLetter(ToUpper(s[i])) && s[i] != '-' && s[i] != '=' && '=' !in s[..i]
    ensures DecodeText(s).Err? ==> DecodeText(s) == Err(InvalidFormat)
  {
    hide Symbol;
    if s != "" {
      DecodeFails(s[1..]);
      forall i | 0 < i < |s| ensures s[1..][i - 1] == s[i] && ('=' in s[..i] <==> s[0] == '=' || '=' in s[1..][..i - 1]) {
        assert s[..i] == [s[0]] + s[1..][..i - 1];
      }
    }
  }

  lemma ForeignDigitBits(c: char, n: int)
    requires c == '0' || c == '1' || c == '8' || c == '9'
    ensures SameBits(Symbol(c), Symbol('7'), n)
  {
    assert Symbol(c) == 255;
    assert forall i: nat | 3 <= i < 8 :: Bit(255, i) && Bit(31, i);
  }

  lemma SymbolBitConcat(x: seq<bv8>, y: seq<bv8>, k: nat)
    ensures SymbolBit(x + y, k) == if k < 5 * |x| then SymbolBit(x, k) else SymbolBit(y, k - 5 * |x|)
  {
    hide Bit;
    if k >= 5 * |x| {
      assert k % 5 == (k - 5 * |x|) % 5 && k / 5 == (k - 5 * |x|) / 5 + |x|;
    }
  }

  /** Without a '=' in the first part, the parts decode one after the other. */
  lemma {:induction false} SymbolsConcat(a: string, b: string)
    requires forall i | 0 <= i < |a| :: a[i] != '='
    ensures Symbols(a + b) == if Symbols(a) == None then None else Prefixed(Symbols(a).value, Symbols(b))
  {
    hide Symbol;
    if a == "" {
      assert a + b == b;
      PrefixedTwice([], [], Symbols(b));
    } else {
      var c := ToUpper(a[0]);
      assert (a + b)[1..] == a[1..] + b;
      SymbolsConcat(a[1..], b);
      if c != '-' && (IsDigit(c) || IsLetter(c)) && Symbols(a[1..]).Some? {
        PrefixedTwice([Symbol(c)], Symbols(a[1..]).value, Symbols(b));
      }
    }
  }

  /** The symbols of a text around one character of the alphabet. */
  lemma MiddleSymbol(a: string, c: char, b: string)
    requires forall i | 0 <= i < |a| :: a[i] != '='
    requires IsDigit(ToUpper(c)) || IsLetter(ToUpper(c))
    ensures Symbols(a + [c] + b) ==
      if Symbols(a) == None then None else Prefixed(Symbols(a).value + [Symbol(ToUpper(c))], Symbols(b))
  {
    hide Symbol;
    SymbolsConcat(a, [c] + b);
    assert a + ([c] + b) == a + [c] + b && ([c] + b)[1..] == b;
    if Symbols(a).Some? {
      PrefixedTwice(Symbols(a).value, [Symbol(ToUpper(c))], Symbols(b));
    }
  }

  /** The bits of a symbol sequence around one symbol. */
  lemma MiddleBits(before: seq<bv8>, v: bv8, after: seq<bv8>, k: nat)
    ensures SymbolBit(before + [v] + after, k) ==
      if k < 5 * |before| then SymbolBit(before, k)
      else if k < 5 * |before| + 5 then Bit(v, 3 + k - 5 * |before|)
      else SymbolBit(after, k - 5 * |before| - 5)
  {
    hide Bit, SymbolBit;
    SymbolBitConcat(before + [v], after, k);
    SymbolBitAppend(before, v, k);
  }

  /** The first n of its five bits agree. */
  predicate SameBits(v: bv8, w: bv8, n: int) {
    forall i: nat | 3 <= i < 8 && i < 3 + n :: Bit(v, i) == Bit(w, i)
  }

  /** Another symbol in one place leaves all bytes but two neighbours alone. */
  lemma SymbolReplaced(before: seq<bv8>, v: bv8, w: bv8, after: seq<bv8>)
    ensures var x, y := Bytes(before + [v] + after), Bytes(before + [w] + after);
      && |x| == |y|
      && (forall i | 0 <= i < |x| && i != 5 * |before| / 8 && i != 5 * |before| / 8 + 1 :: x[i] == y[i])
      && (x == y <==> SameBits(v, w, 8 * |x| - 5 * |before|))
  {
    var s, t := before + [v] + after, before + [w] + after;
    var x, y, m := Bytes(s), Bytes(t), 5 * |before|;
    assert |x| == |y|;
    hide Bit, SymbolBit, Bytes, ByteAt, DataBit;
    forall i | 0 <= i < |x| && i != m / 8 && i != m / 8 + 1
      ensures x[i] == y[i]
    {
      forall j: nat | j < 8
        ensures Bit(x[i], j) == Bit(y[i], j)
      {
        ByteReplaced(before, v, w, after, i, j);
      }
      BitsDetermine(x[i], y[i]);
    }
    if SameBits(v, w, 8 * |x| - m) {
      forall k: nat | k < 8 * |x|
        ensures DataBit(x, k) == DataBit(y, k)
      {
        BitReplaced(before, v, w, after, k);
      }
      DataBitsDetermine(x, y);
    } else {
      var i: nat :| 3 <= i < 8 && i < 3 + 8 * |x| - m && Bit(v, i) != Bit(w, i);
      BitReplaced(before, v, w, after, m + i - 3);
    }
  }

  lemma BitReplaced(before: seq<bv8>, v: bv8, w: bv8, after: seq<bv8>, k: nat)
    requires k < 8 * |Bytes(before + [v] + after)|
    ensures var m := 5 * |before|;
      (DataBit(Bytes(before + [v] + after), k) == DataBit(Bytes(before + [w] + after), k)) <==>
      (m <= k < m + 5 ==> Bit(v, 3 + k - m) == Bit(w, 3 + k - m))
  {
    hide Bit, SymbolBit, ByteAt, DataBit;
    var s, t := before + [v] + after, before + [w] + after;
    BytesBit(s, k);
    BytesBit(t, k);
    MiddleBits(before, v, after, k);
    MiddleBits(before, w, after, k);
  }

  lemma ByteReplaced(before: seq<bv8>, v: bv8, w: bv8, after: seq<bv8>, i: nat, j: nat)
    requires i < |Bytes(before + [v] + after)| && j < 8 && i != 5 * |before| / 8 && i != 5 * |before| / 8 + 1
    ensures Bit(Bytes(before + [v] + after)[i], j) == Bit(Bytes(before + [w] + after)[i], j)
  {
    hide Bit, ByteAt;
    var k := 8 * i + j;
    assert k / 8 == i && k % 8 == j;
    BitReplaced(before, v, w, after, k);
  }

  predicate IsAlphanumeric(c: char) {
    IsDigit(ToUpper(c)) || IsLetter(ToUpper(c))
  }

  function SymbolOf(c: char): bv8
    requires IsAlphanumeric(c)
  {
    Symbol(ToUpper(c))
  }

  lemma MiddleDecoded(a: string, c: char, b: string)
    requires forall i | 0 <= i < |a| :: a[i] != '='
    requires IsAlphanumeric(c)
    ensures DecodeText(a + [c] + b) ==
      if Symbols(a) == None || Symbols(b) == None then Err(InvalidFormat)
      else Ok(Bytes(Symbols(a).value + [SymbolOf(c)] + Symbols(b).value))
  {
    hide Symbol, Symbols, Bytes;
    MiddleSymbol(a, c, b);
  }

  /** Another character of the alphabet in one place leaves all bytes but two neighbours alone,
      and those two as well exactly if it has the same bits but for those dropped at the end. */
  lemma CharacterReplaced(a: string, c: char, x: char, b: string, data: seq<bv8>)
    requires forall i | 0 <= i < |a| :: a[i] != '='
    requires IsAlphanumeric(c) && IsAlphanumeric(x) && DecodeText(a + [c] + b) == Ok(data)
    ensures Symbols(a).Some? && DecodeText(a + [x] + b).Ok?
    ensures var m, y := 5 * |Symbols(a).value|, DecodeText(a + [x] + b).value;
      && |y| == |data|
      && (forall i | 0 <= i < |data| && i != m / 8 && i != m / 8 + 1 :: y[i] == data[i])
      && (y == data <==> SameBits(SymbolOf(c), SymbolOf(x), 8 * |data| - m))
  {
    hide SymbolOf, Symbols, DecodeText, Bytes, SameBits;
    MiddleDecoded(a, c, b);
    MiddleDecoded(a, x, b);
    SymbolReplaced(Symbols(a).value, SymbolOf(c), SymbolOf(x), Symbols(b).value);
  }

  /** The digits that are not in the alphabet are not refused: each reads like '7'. */
  lemma ForeignDigitReadsAsSeven(a: string, c: char, b: string)
    requires c == '0' || c == '1' || c == '8' || c == '9'
    requires forall i | 0 <= i < |a| :: a[i] != '='
    requires DecodeText(a + [c] + b).Ok?
    ensures DecodeText(a + [c] + b) == DecodeText(a + ['7'] + b)
  {
    hide Symbol, Symbols, SameBits, DecodeText;
    var data := DecodeText(a + [c] + b).value;
    CharacterReplaced(a, c, '7', b, data);
    ForeignDigitBits(c, 8 * |data| - 5 * |Symbols(a).value|);
  }

  // ---- the characters themselves -------------------------------------------------------------

  /** Five bits of a sixteen-bit word, from bit `off` on, the most significant bit first. */
  function FiveBits(w: bv16, off: nat): bv16
    requires off < 8
  {
    match off
    case 0 => (w >> 11) & 31
    case 1 => (w >> 10) & 31
    case 2 => (w >> 9) & 31
    case 3 => (w >> 8) & 31
    case 4 => (w >> 7) & 31
    case 5 => (w >> 6) & 31
    case 6 => (w >> 5) & 31
    case _ => (w >> 4) & 31
  }

  function Word16(high: bv8, low: bv8): bv16 {
    ((high as bv16) << 8) | low as bv16
  }

  predicate WindowIs(b0: bv8, b1: bv8, off: nat)
    requires off < 8
  {
    Window(b0, b1, off) as bv16 == FiveBits(Word16(b0, b1), off)
  }

  lemma WindowInFirstByte(b0: bv8, b1: bv8, off: nat)
    requires off < 4
    ensures WindowIs(b0, b1, off)
  {
    if off == 0 {
      assert WindowIs(b0, b1, 0);
    } else if off == 1 {
      assert WindowIs(b0, b1, 1);
    } else if off == 2 {
      assert WindowIs(b0, b1, 2);
    } else {
      assert WindowIs(b0, b1, 3);
    }
  }

  lemma WindowAt4(b0: bv8, b1: bv8)
    ensures WindowIs(b0, b1, 4)
  {
  }

  lemma WindowAt5(b0: bv8, b1: bv8)
    ensures WindowIs(b0, b1, 5)
  {
  }

  lemma WindowAt6(b0: bv8, b1: bv8)
    ensures WindowIs(b0, b1, 6)
  {
  }

  lemma WindowAt7(b0: bv8, b1: bv8)
    ensures WindowIs(b0, b1, 7)
  {
  }

  lemma WindowOfWord(b0: bv8, b1: bv8, off: nat)
    requires off < 8
    ensures WindowIs(b0, b1, off)
  {
    hide WindowIs;
    if off < 4 {
      WindowInFirstByte(b0, b1, off);
    } else if off == 4 {
      WindowAt4(b0, b1);
    } else if off == 5 {
      WindowAt5(b0, b1);
    } else if off == 6 {
      WindowAt6(b0, b1);
    } else {
      WindowAt7(b0, b1);
    }
  }

  lemma TextLength(n: nat)
    ensures SymbolCount(n) <= PaddedCount(n)
    ensures PaddedCount(n) % 8 == 0 && 8 * n <= 5 * PaddedCount(n) < 8 * n + 40
  {
    PaddedIsMore(n);
    var blocks := PaddedBlocks(n);
    hide SymbolCount, PaddedCount;
    assert 5 * PaddedCount(n) == 40 * blocks;
  }

  lemma IsLetterPosition(n: nat, i: nat)
    ensures i < SymbolCount(n) <==> 5 * i / 8 < n
    ensures i < SymbolCount(n) <==> 5 * i < 8 * n
  {
    SymbolBlocks(n);
    hide SymbolCount;
  }

  predicate LetterIs(v: bv8)
    requires v < 32
  {
    Letter(v) as int == if v < 26 then 'A' as int + v as int else '2' as int + v as int - 26
  }

  /** The letters A to Z stand for 0 to 25 and the digits 2 to 7 for 26 to 31. */
  lemma LetterOfValue(v: bv8)
    requires v < 32
    ensures LetterIs(v)
  {
    if v < 8 {
      assert LetterIs(v);
    } else if v < 16 {
      assert LetterIs(v);
    } else if v < 24 {
      assert LetterIs(v);
    } else {
      assert LetterIs(v);
    }
  }

  /** Character i of a text without its separators: five bits of the data from bit 5 * i on, or
      padding up to a multiple of eight characters. */
  lemma CharacterAt(data: seq<bv8>, i: nat)
    requires i < |PaddedText(data)|
    ensures |PaddedText(data)| % 8 == 0 && 8 * |data| <= 5 * |PaddedText(data)| < 8 * |data| + 40
    ensures var k := 5 * i / 8;
      if k >= |data| then PaddedText(data)[i] == '='
      else
        exists v: bv8 ::
          && v < 32 && LetterIs(v) && PaddedText(data)[i] == Letter(v)
          && v as bv16 == FiveBits(Word16(data[k], if k + 1 < |data| then data[k + 1] else 0), 5 * i % 8)
  {
    hide Letter, LetterIs, FiveBits, Word16, Window, SymbolCount, PaddedCount, WindowIs, ReadNextBits;
    var n := SymbolCount(|data|);
    TextLength(|data|);
    IsLetterPosition(|data|, i);
    if i < n {
      FivesAt(data, n, i);
      SymbolIsSmall(data, i);
      var v := ReadNextBits(data, 5 * i).value;
      LetterOfValue(v);
      SymbolIsWindow(data, i);
      assert PaddedText(data)[i] == Letter(v);
    }
  }

  lemma SymbolIsWindow(data: seq<bv8>, i: nat)
    requires 5 * i < 8 * |data|
    ensures var k := 5 * i / 8;
      && ReadNextBits(data, 5 * i).Some?
      && ReadNextBits(data, 5 * i).value as bv16 ==
         FiveBits(Word16(data[k], if k + 1 < |data| then data[k + 1] else 0), 5 * i % 8)
  {
    hide FiveBits, Word16, Window;
    var k := 5 * i / 8;
    WindowOfWord(data[k], if k + 1 < |data| then data[k + 1] else 0, 5 * i % 8);
  }

  /** A lower-case letter reads like the upper-case one. */
  lemma CaseIgnored(a: string, c: char, b: string)
    requires 'A' <= c <= 'Z'
    ensures DecodeText(a + [(c as int + 32) as char] + b) == DecodeText(a + [c] + b)
  {
    hide Symbol, Bytes;
    SameSymbols(a, (c as int + 32) as char, c, b);
  }

  lemma {:induction false} SameSymbols(a: string, x: char, c: char, b: string)
    requires ToUpper(x) == ToUpper(c)
    ensures Symbols(a + [x] + b) == Symbols(a + [c] + b)
  {
    hide Symbol, ToUpper;
    if a == "" {
      assert "" + [x] + b == [x] + b && ([x] + b)[1..] == b;
      assert "" + [c] + b == [c] + b && ([c] + b)[1..] == b;
    } else {
      assert (a + [x] + b)[1..] == a[1..] + [x] + b && (a + [c] + b)[1..] == a[1..] + [c] + b;
      SameSymbols(a[1..], x, c, b);
    }
  }
}
